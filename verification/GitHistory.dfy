/** Commit histories: ancestors over every parent, and the choice of a merge base. */
module GitHistory {
  import opened Codec
  import opened GitObjects

  /** The parents a walk sees: none if the commit cannot be read. */
  function Parents(store: set<Id>, c: Id): (ps: seq<Id>)
    ensures forall p :: p in ps <==> c in store && c.Commit? && p in c.parents
  {
    if c in store && c.Commit? then c.parents else []
  }

  /** `x` is `n` parent steps away from `c`. */
  ghost predicate Reaches(store: set<Id>, c: Id, x: Id, n: nat)
    decreases n
  {
    if n == 0 then x == c
    else exists m :: Reaches(store, c, m, n - 1) && x in Parents(store, m)
  }

  ghost predicate Ancestor(store: set<Id>, c: Id, x: Id)
  {
    exists n: nat :: Reaches(store, c, x, n)
  }

  // ---- histories are finite and acyclic ----

  /** The commits an id can lead to. */
  ghost function Inside(c: Id): set<Id>
    decreases c
  {
    {c} + if c.Commit? then set p, x | p in c.parents && x in Inside(p) :: x else {}
  }

  lemma {:induction false} InsideTrans(c: Id, x: Id, p: Id)
    requires x in Inside(c) && x.Commit? && p in x.parents
    ensures p in Inside(c)
    decreases c
  {
    if x != c {
      var q :| q in c.parents && x in Inside(q);
      InsideTrans(q, x, p);
    } else {
      assert p in Inside(p);
    }
  }

  /** A measure that every parent step lowers. */
  ghost function Height(c: Id): nat
    decreases c
  {
    if c.Commit? then 1 + MaxHeight(c.parents) else 0
  }

  ghost function MaxHeight(cs: seq<Id>): nat
    decreases cs
  {
    if cs == [] then 0
    else
      var h, rest := Height(cs[0]), MaxHeight(cs[1..]);
      if h > rest then h else rest
  }

  lemma {:induction false} HeightOf(cs: seq<Id>, i: nat)
    requires i < |cs|
    ensures Height(cs[i]) <= MaxHeight(cs)
  {
    if i > 0 {
      HeightOf(cs[1..], i - 1);
    }
  }

  lemma {:induction false} StepsLower(store: set<Id>, c: Id, x: Id, n: nat)
    requires Reaches(store, c, x, n)
    ensures Height(x) + n <= Height(c)
    decreases n
  {
    if n > 0 {
      var m :| Reaches(store, c, m, n - 1) && x in Parents(store, m);
      StepsLower(store, c, m, n - 1);
      var i :| 0 <= i < |m.parents| && m.parents[i] == x;
      HeightOf(m.parents, i);
    }
  }

  // ---- the breadth-first walk ----

  type Depths = map<Id, nat>

  /** What is recorded is reached in that many steps. */
  ghost predicate Sound(store: set<Id>, start: Id, depth: Depths)
  {
    start in depth && depth[start] == 0 && depth.Keys <= Inside(start) &&
    forall x | x in depth :: Reaches(store, start, x, depth[x])
  }

  ghost predicate ParentsIn(store: set<Id>, depth: Depths, x: Id)
    requires x in depth
  {
    forall p | p in Parents(store, x) :: p in depth && depth[p] <= depth[x] + 1
  }

  /** Whatever is recorded and not open any more has its parents recorded. */
  ghost predicate Closed(store: set<Id>, depth: Depths, open: set<Id>)
  {
    forall x | x in depth && x !in open :: ParentsIn(store, depth, x)
  }

  /** The queue is in order of depth. */
  ghost predicate Ordered(depth: Depths, queue: seq<Id>)
  {
    (forall i | 0 <= i < |queue| :: queue[i] in depth) &&
    (forall i, j | 0 <= i < j < |queue| :: queue[i] != queue[j] && depth[queue[i]] <= depth[queue[j]])
  }

  ghost predicate Bounded(depth: Depths, bound: nat)
  {
    forall x | x in depth :: depth[x] <= bound
  }

  ghost function Members(queue: seq<Id>): set<Id>
  {
    set x | x in queue
  }

  ghost predicate Walk(store: set<Id>, start: Id, depth: Depths, queue: seq<Id>)
  {
    Sound(store, start, depth) && Closed(store, depth, Members(queue)) && Ordered(depth, queue) &&
    (queue != [] ==> Bounded(depth, depth[queue[0]] + 1))
  }

  /** The middle of a turn: `current` is off the queue and its first `k` parents are done. */
  ghost predicate Expanding(store: set<Id>, start: Id, current: Id, k: nat, depth: Depths, queue: seq<Id>)
  {
    current in depth && k <= |Parents(store, current)| && Sound(store, start, depth) &&
    Closed(store, depth, Members([current] + queue)) && Ordered(depth, [current] + queue) &&
    Bounded(depth, depth[current] + 1) && forall i | 0 <= i < k :: Parents(store, current)[i] in depth
  }

  lemma {:induction false} AddSound(store: set<Id>, start: Id, depth: Depths, current: Id, p: Id)
    requires Sound(store, start, depth) && current in depth && p in Parents(store, current) && p !in depth
    ensures p in Inside(start) && Sound(store, start, depth[p := depth[current] + 1])
  {
    InsideTrans(start, current, p);
    hide Inside;
    assert Reaches(store, start, p, depth[current] + 1);
    hide Reaches;
  }

  lemma {:induction false} AddClosed(store: set<Id>, depth: Depths, open: set<Id>, p: Id, d: nat)
    requires Closed(store, depth, open) && p !in depth
    ensures Closed(store, depth[p := d], open + {p})
  {
    hide Parents;
    forall x | x in depth && x !in open && x != p
      ensures ParentsIn(store, depth[p := d], x)
    {
      assert ParentsIn(store, depth, x);
    }
  }

  lemma {:induction false} AddOrdered(depth: Depths, queue: seq<Id>, p: Id, d: nat)
    requires Ordered(depth, queue) && Bounded(depth, d) && p !in depth
    ensures Ordered(depth[p := d], queue + [p]) && Bounded(depth[p := d], d)
  {
  }

  lemma {:induction false} MembersSnoc(queue: seq<Id>, p: Id)
    ensures Members(queue + [p]) == Members(queue) + {p}
  {
  }

  lemma {:induction false} OneParent(store: set<Id>, start: Id, current: Id, k: nat, depth: Depths, queue: seq<Id>)
    requires Expanding(store, start, current, k, depth, queue) && k < |Parents(store, current)|
    ensures var p := Parents(store, current)[k];
            if p in depth then Expanding(store, start, current, k + 1, depth, queue)
            else p in Inside(start) && Expanding(store, start, current, k + 1, depth[p := depth[current] + 1], queue + [p])
  {
    hide Sound, Closed, Ordered, Bounded, Members, Inside, Parents;
    var p := Parents(store, current)[k];
    if p !in depth {
      var q, d := [current] + queue, depth[current] + 1;
      assert q + [p] == [current] + (queue + [p]);
      AddSound(store, start, depth, current, p);
      AddClosed(store, depth, Members(q), p, d);
      MembersSnoc(q, p);
      AddOrdered(depth, q, p, d);
    }
  }

  lemma {:induction false} StartsExpanding(store: set<Id>, start: Id, depth: Depths, queue: seq<Id>)
    requires Walk(store, start, depth, queue) && queue != []
    ensures Expanding(store, start, queue[0], 0, depth, queue[1..])
  {
    assert queue == [queue[0]] + queue[1..];
    assert queue[0] in depth;
    hide Sound, Closed, Ordered, Bounded, Members;
  }

  lemma {:induction false} EndsExpanding(store: set<Id>, start: Id, current: Id, depth: Depths, queue: seq<Id>)
    requires Expanding(store, start, current, |Parents(store, current)|, depth, queue)
    ensures Walk(store, start, depth, queue)
  {
    CloseOne(store, depth, current, queue);
    DropFirst(depth, current, queue);
    hide Sound, Closed, Ordered, Members;
  }

  lemma {:induction false} CloseOne(store: set<Id>, depth: Depths, current: Id, queue: seq<Id>)
    requires current in depth && Closed(store, depth, Members([current] + queue)) && Bounded(depth, depth[current] + 1)
    requires forall i | 0 <= i < |Parents(store, current)| :: Parents(store, current)[i] in depth
    ensures Closed(store, depth, Members(queue))
  {
    hide Parents;
    assert ParentsIn(store, depth, current);
    forall x | x in depth && x !in Members(queue)
      ensures ParentsIn(store, depth, x)
    {
      assert x == current || x !in Members([current] + queue);
    }
  }

  lemma {:induction false} DropFirst(depth: Depths, current: Id, queue: seq<Id>)
    requires current in depth && Ordered(depth, [current] + queue) && Bounded(depth, depth[current] + 1)
    ensures Ordered(depth, queue) && (queue != [] ==> Bounded(depth, depth[queue[0]] + 1))
  {
    var all := [current] + queue;
    assert forall i | 0 <= i < |queue| :: queue[i] == all[i + 1];
    assert queue != [] ==> all[0] == current && depth[all[0]] <= depth[all[1]];
  }

  /** `allAncestors`: exactly the reachable commits, each with its shortest distance. */
  method AllAncestors(store: set<Id>, start: Id) returns (depth: Depths)
    ensures forall x :: x in depth <==> Ancestor(store, start, x)
    ensures forall x | x in depth :: Reaches(store, start, x, depth[x])
    ensures forall x, n: nat | Reaches(store, start, x, n) :: x in depth && depth[x] <= n
  {
    hide Walk, Expanding, Inside, Reaches, Ancestor, Parents, Left;
    depth := map[start := 0];
    var queue := [start];
    WalkStarts(store, start);
    while queue != []
      invariant Walk(store, start, depth, queue)
      decreases Left(start, depth), |queue|
    {
      StartsExpanding(store, start, depth, queue);
      var current := queue[0];
      queue := queue[1..];
      depth, queue := Expand(store, start, current, depth, queue);
      EndsExpanding(store, start, current, depth, queue);
    }
    WalkComplete(store, start, depth);
  }

  /** One turn: records the parents not seen yet. */
  method Expand(store: set<Id>, ghost start: Id, current: Id, seen: Depths, waiting: seq<Id>) returns (depth: Depths, queue: seq<Id>)
    requires Expanding(store, start, current, 0, seen, waiting)
    ensures Expanding(store, start, current, |Parents(store, current)|, depth, queue)
    ensures (depth == seen && queue == waiting) || Left(start, depth) < Left(start, seen)
  {
    hide Expanding, Inside, Parents, Left;
    depth, queue := seen, waiting;
    var parents, k := Parents(store, current), 0;
    Recorded(store, start, current, depth, queue);
    var currentDepth := depth[current];
    while k < |parents|
      invariant 0 <= k <= |parents| && current in depth && depth[current] == currentDepth
      invariant Expanding(store, start, current, k, depth, queue)
      invariant (depth == seen && queue == waiting) || Left(start, depth) < Left(start, seen)
    {
      OneParent(store, start, current, k, depth, queue);
      var p := parents[k];
      if p !in depth {
        FewerLeft(start, depth, p, currentDepth + 1);
        depth := depth[p := currentDepth + 1];
        queue := queue + [p];
      }
      k := k + 1;
    }
  }

  lemma {:induction false} Recorded(store: set<Id>, start: Id, current: Id, depth: Depths, queue: seq<Id>)
    requires Expanding(store, start, current, 0, depth, queue)
    ensures current in depth
  {
    hide Inside, Reaches;
  }

  lemma {:induction false} WalkStarts(store: set<Id>, start: Id)
    ensures Walk(store, start, map[start := 0], [start])
  {
  }

  /** How many commits the walk has not seen. */
  ghost function Left(start: Id, depth: Depths): nat
  {
    |Inside(start) - depth.Keys|
  }

  lemma {:induction false} FewerLeft(start: Id, depth: Depths, p: Id, d: nat)
    requires p in Inside(start) && p !in depth
    ensures Left(start, depth[p := d]) < Left(start, depth)
  {
    hide Inside;
    var all := Inside(start);
    assert all - depth.Keys == (all - depth[p := d].Keys) + {p};
  }

  /** Following any path from the start, depths grow by at most one a step. */
  lemma {:induction false} ShortestDepth(store: set<Id>, start: Id, depth: Depths, x: Id, n: nat)
    requires Walk(store, start, depth, []) && Reaches(store, start, x, n)
    ensures x in depth && depth[x] <= n
    decreases n
  {
    hide Reaches, Walk, Parents;
    if n == 0 {
      StartOnly(store, start, x, depth);
    } else {
      var m := LastStep(store, start, x, n);
      ShortestDepth(store, start, depth, m, n - 1);
      ClosedAt(store, start, depth, m, x);
    }
  }

  lemma {:induction false} StartOnly(store: set<Id>, start: Id, x: Id, depth: Depths)
    requires Walk(store, start, depth, []) && Reaches(store, start, x, 0)
    ensures x in depth && depth[x] == 0
  {
    hide Inside;
  }

  lemma {:induction false} LastStep(store: set<Id>, start: Id, x: Id, n: nat) returns (m: Id)
    requires n > 0 && Reaches(store, start, x, n)
    ensures Reaches(store, start, m, n - 1) && x in Parents(store, m)
  {
    m :| Reaches(store, start, m, n - 1) && x in Parents(store, m);
  }

  lemma {:induction false} ClosedAt(store: set<Id>, start: Id, depth: Depths, m: Id, x: Id)
    requires Walk(store, start, depth, []) && m in depth && x in Parents(store, m)
    ensures x in depth && depth[x] <= depth[m] + 1
  {
    hide Sound, Ordered, Parents;
    assert m !in Members([]);
    assert ParentsIn(store, depth, m);
  }

  lemma {:induction false} WalkComplete(store: set<Id>, start: Id, depth: Depths)
    requires Walk(store, start, depth, [])
    ensures forall x :: x in depth <==> Ancestor(store, start, x)
    ensures forall x | x in depth :: Reaches(store, start, x, depth[x])
    ensures forall x, n: nat | Reaches(store, start, x, n) :: x in depth && depth[x] <= n
  {
    hide Reaches, Inside, Closed, Ordered;
    forall x, n: nat | Reaches(store, start, x, n)
      ensures x in depth && depth[x] <= n
    {
      ShortestDepth(store, start, depth, x, n);
    }
  }

  // ---- the merge base ----

  ghost predicate Common(store: set<Id>, a: Id, b: Id, x: Id)
  {
    Ancestor(store, a, x) && Ancestor(store, b, x)
  }

  /** A common ancestor from which no other common ancestor descends. */
  ghost predicate Lowest(store: set<Id>, a: Id, b: Id, x: Id)
  {
    Common(store, a, b, x) && forall y | Common(store, a, b, y) && y != x :: !Ancestor(store, y, x)
  }

  /** The order of ids by their hexadecimal digits. */
  ghost predicate StrictTotal(less: (Id, Id) -> bool)
  {
    (forall x :: !less(x, x)) &&
    (forall x, y :: x == y || less(x, y) || less(y, x)) &&
    (forall x, y, z :: less(x, y) && less(y, z) ==> less(x, z))
  }

  /** The least of the lowest common ancestors. */
  ghost predicate IsBase(less: (Id, Id) -> bool, store: set<Id>, a: Id, b: Id, x: Id)
  {
    Lowest(store, a, b, x) && forall y | Lowest(store, a, b, y) && y != x :: less(x, y)
  }

  /** The base does not depend on the order of the two commits, and there is at most one. */
  lemma {:induction false} BaseUnique(less: (Id, Id) -> bool, store: set<Id>, a: Id, b: Id, x: Id, y: Id)
    requires StrictTotal(less) && IsBase(less, store, a, b, x) && IsBase(less, store, b, a, y)
    ensures x == y
  {
    hide Ancestor;
    assert Lowest(store, b, a, x) && Lowest(store, a, b, y);
    assert less(x, y) && less(y, x) ==> less(x, x);
  }

  /** A proper ancestor is lower. */
  lemma {:induction false} AncestorLower(store: set<Id>, c: Id, x: Id)
    requires Ancestor(store, c, x)
    ensures Height(x) <= Height(c) && (x != c ==> Height(x) < Height(c))
  {
    var n: nat :| Reaches(store, c, x, n);
    StepsLower(store, c, x, n);
  }

  /** Whenever the histories meet there is a lowest common ancestor. */
  lemma {:induction false} LowestExists(store: set<Id>, a: Id, b: Id, x: Id) returns (y: Id)
    requires Common(store, a, b, x)
    ensures Lowest(store, a, b, y)
    decreases Height(a) - Height(x)
  {
    hide Ancestor, Height;
    AncestorLower(store, a, x);
    if Lowest(store, a, b, x) {
      y := x;
    } else {
      var z :| Common(store, a, b, z) && z != x && Ancestor(store, z, x);
      AncestorLower(store, z, x);
      AncestorLower(store, a, z);
      y := LowestExists(store, a, b, z);
    }
  }

  lemma {:induction false} SomeLowest(store: set<Id>, a: Id, b: Id)
    ensures (exists x :: Common(store, a, b, x)) ==> exists y :: Lowest(store, a, b, y)
  {
    hide Ancestor;
    if x :| Common(store, a, b, x) {
      var y := LowestExists(store, a, b, x);
    }
  }

  /** The commits in both ancestor maps. */
  method CommonIds(ours: Depths, theirs: Depths) returns (common: set<Id>)
    ensures forall x :: x in common <==> x in ours && x in theirs
  {
    common := {};
    var todo := ours.Keys;
    while todo != {}
      invariant todo <= ours.Keys
      invariant forall x :: x in common <==> x in ours && x !in todo && x in theirs
      decreases |todo|
    {
      var x :| x in todo;
      if x in theirs {
        common := common + {x};
      }
      todo := todo - {x};
    }
  }

  /** Is `candidate` an ancestor of another common ancestor? */
  method Dominated(store: set<Id>, common: set<Id>, candidate: Id) returns (r: bool)
    ensures r <==> exists y :: y in common && y != candidate && Ancestor(store, y, candidate)
  {
    hide Ancestor, Reaches;
    var todo := common;
    while todo != {}
      invariant todo <= common
      invariant forall y | y in common && y !in todo && y != candidate :: !Ancestor(store, y, candidate)
      decreases |todo|
    {
      var y :| y in todo;
      todo := todo - {y};
      if y != candidate {
        var depth := AllAncestors(store, y);
        if candidate in depth {
          return true;
        }
      }
    }
    r := false;
  }

  /** The smallest undominated common ancestor. */
  method ChooseBase(less: (Id, Id) -> bool, store: set<Id>, a: Id, b: Id, ours: Depths, theirs: Depths) returns (base: Option<Id>)
    requires StrictTotal(less)
    requires forall x :: (x in ours <==> Ancestor(store, a, x)) && (x in theirs <==> Ancestor(store, b, x))
    ensures base.None? <==> forall x :: !Common(store, a, b, x)
    ensures base.Some? ==> IsBase(less, store, a, b, base.value)
  {
    hide Ancestor;
    var common := CommonIds(ours, theirs);
    assert forall x :: x in common <==> Common(store, a, b, x);
    base := None;
    var todo := common;
    while todo != {}
      invariant todo <= common
      invariant base.None? ==> forall x | x in common && x !in todo :: !Lowest(store, a, b, x)
      invariant base.Some? ==> Lowest(store, a, b, base.value) &&
                               forall x | x in common && x !in todo && Lowest(store, a, b, x) && x != base.value :: less(base.value, x)
      decreases |todo|
    {
      var x :| x in todo;
      todo := todo - {x};
      var dominated := Dominated(store, common, x);
      assert dominated <==> !Lowest(store, a, b, x);
      if !dominated && (base.None? || less(x, base.value)) {
        base := Some(x);
      }
    }
    SomeLowest(store, a, b);
  }
}
