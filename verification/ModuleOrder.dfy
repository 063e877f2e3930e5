/** The import graph of a compilation: three-colour depth-first search for a cycle, then Kahn's
    loop for an order with dependencies first. */
module ModuleOrder {
  import opened Codec

  /** `g[i]` lists the modules that module `i` imports, possibly more than once. */
  type Graph = seq<seq<nat>>

  ghost predicate WellFormed(g: Graph)
  {
    forall i, k | 0 <= i < |g| && 0 <= k < |g[i]| :: g[i][k] < |g|
  }

  ghost predicate Imports(g: Graph, i: nat, d: nat)
  {
    i < |g| && d in g[i]
  }

  /** A chain of imports. */
  ghost predicate Walk(g: Graph, w: seq<nat>)
  {
    (forall i | 0 <= i < |w| :: w[i] < |g|) && forall i | 0 < i < |w| :: Imports(g, w[i - 1], w[i])
  }

  ghost predicate Cycle(g: Graph, w: seq<nat>)
  {
    |w| >= 2 && Walk(g, w) && w[0] == w[|w| - 1]
  }

  ghost predicate HasCycle(g: Graph)
  {
    exists w :: Cycle(g, w)
  }

  /** Every module of `order` comes once, after everything it imports. */
  ghost predicate DependenciesFirst(g: Graph, order: seq<nat>)
  {
    (forall i | 0 <= i < |order| :: order[i] < |g|) &&
    (forall i, j | 0 <= i < j < |order| :: order[i] != order[j]) &&
    forall i, d | 0 <= i < |order| && Imports(g, order[i], d) :: d in order[..i]
  }

  /** All modules are in the order. */
  ghost predicate Complete(g: Graph, order: seq<nat>)
  {
    forall i: nat | i < |g| :: i in order
  }

  ghost function Position(order: seq<nat>, x: nat): (i: nat)
    requires x in order
    ensures i < |order| && order[i] == x
  {
    if order[0] == x then 0 else 1 + Position(order[1..], x)
  }

  lemma {:induction false} PositionUnique(g: Graph, order: seq<nat>, i: nat)
    requires DependenciesFirst(g, order) && i < |order|
    ensures order[i] in order && Position(order, order[i]) == i
  {
    var p := Position(order, order[i]);
    assert order[p] == order[i];
  }

  /** Along a walk positions only go down. */
  lemma {:induction false} WalkDescends(g: Graph, order: seq<nat>, w: seq<nat>, k: nat)
    requires DependenciesFirst(g, order) && Complete(g, order) && Walk(g, w) && 0 < k < |w|
    ensures w[0] in order && w[k] in order && Position(order, w[k]) < Position(order, w[0])
    decreases k
  {
    assert w[0] < |g| && w[k] < |g| && w[k - 1] < |g|;
    var i := Position(order, w[k - 1]);
    assert Imports(g, order[i], w[k]);
    var j :| 0 <= j < i && order[j] == w[k];
    PositionUnique(g, order, j);
    if k > 1 {
      WalkDescends(g, order, w, k - 1);
    }
  }

  /** An order with dependencies first leaves no room for a cycle. */
  lemma {:induction false} OrderedIsAcyclic(g: Graph, order: seq<nat>)
    requires DependenciesFirst(g, order) && Complete(g, order)
    ensures !HasCycle(g)
  {
    forall w
      ensures !Cycle(g, w)
    {
      if |w| >= 2 && Walk(g, w) {
        WalkDescends(g, order, w, |w| - 1);
      }
    }
  }

  // ---- the search ----

  const WHITE := 0
  const GRAY := 1
  const BLACK := 2

  /** Gray modules are those on the path, which is a walk; black ones are finished, each after
      its imports. */
  ghost predicate Searching(g: Graph, color: seq<int>, path: seq<nat>, finished: seq<nat>)
  {
    WellFormed(g) && |color| == |g| && Walk(g, path) && DependenciesFirst(g, finished) &&
    (forall i: nat | i < |g| :: color[i] == WHITE || color[i] == GRAY || color[i] == BLACK) &&
    (forall i: nat | i < |g| :: color[i] == GRAY <==> i in path) &&
    (forall i: nat | i < |g| :: color[i] == BLACK <==> i in finished)
  }

  lemma {:induction false} Grayed(g: Graph, color: seq<int>, path: seq<nat>, finished: seq<nat>, node: nat)
    requires Searching(g, color, path, finished) && node < |g| && color[node] == WHITE
    requires path == [] || Imports(g, path[|path| - 1], node)
    ensures Searching(g, color[node := GRAY], path + [node], finished) && node !in path
  {
    hide DependenciesFirst, WellFormed;
    var longer := path + [node];
    forall i | 0 < i < |longer|
      ensures Imports(g, longer[i - 1], longer[i])
    {
      if i < |path| {
        assert Imports(g, path[i - 1], path[i]);
      }
    }
  }

  lemma {:induction false} Blackened(g: Graph, color: seq<int>, path: seq<nat>, finished: seq<nat>, node: nat)
    requires Searching(g, color, path + [node], finished) && node < |g| && node !in path
    requires forall j | 0 <= j < |g[node]| :: g[node][j] < |g| && color[g[node][j]] == BLACK
    ensures Searching(g, color[node := BLACK], path, finished + [node])
  {
    hide WellFormed;
    var longer, more := path + [node], finished + [node];
    assert longer[|path|] == node;
    forall i | 0 <= i < |path|
      ensures path[i] < |g|
    {
      assert longer[i] == path[i];
    }
    forall i | 0 < i < |path|
      ensures Imports(g, path[i - 1], path[i])
    {
      assert Imports(g, longer[i - 1], longer[i]);
    }
    FinishedMore(g, color, finished, node);
  }

  lemma {:induction false} FinishedMore(g: Graph, color: seq<int>, finished: seq<nat>, node: nat)
    requires |color| == |g| && DependenciesFirst(g, finished) && node < |g| && node !in finished
    requires forall i: nat | i < |g| :: color[i] == BLACK <==> i in finished
    requires forall j | 0 <= j < |g[node]| :: g[node][j] < |g| && color[g[node][j]] == BLACK
    ensures DependenciesFirst(g, finished + [node])
  {
    var more := finished + [node];
    forall i, d | 0 <= i < |more| && Imports(g, more[i], d)
      ensures d in more[..i]
    {
      if i < |finished| {
        assert more[..i] == finished[..i] && Imports(g, finished[i], d);
      } else {
        assert more[..i] == finished;
        var j :| 0 <= j < |g[node]| && g[node][j] == d;
      }
    }
  }

  /** An import back to a module on the path closes a cycle. */
  lemma {:induction false} ClosesCycle(g: Graph, path: seq<nat>, next: nat)
    requires Walk(g, path) && next in path && Imports(g, path[|path| - 1], next)
    ensures HasCycle(g)
  {
    var i :| 0 <= i < |path| && path[i] == next;
    var w := path[i..] + [next];
    forall k | 0 < k < |w|
      ensures Imports(g, w[k - 1], w[k])
    {
      if k < |w| - 1 {
        assert w[k - 1] == path[i + k - 1] && w[k] == path[i + k];
        assert Imports(g, path[i + k - 1], path[i + k]);
      } else {
        assert w[k - 1] == path[|path| - 1];
      }
    }
    assert Cycle(g, w);
  }

  class CycleSearch {
    const g: Graph
    const color: array<int>
    var path: seq<nat>
    var cycleFound: bool
    /** Black modules in the order they were finished. */
    ghost var finished: seq<nat>

    ghost predicate Valid()
      reads this, color
    {
      Searching(g, color[..], path, finished)
    }

    ghost function White(): set<nat>
      reads this, color
    {
      set i: nat | i < color.Length && color[i] == WHITE
    }

    constructor (g: Graph)
      requires WellFormed(g)
      ensures Valid() && this.g == g && path == [] && !cycleFound && fresh(color) && finished == []
    {
      this.g := g;
      color := new int[|g|](i => WHITE);
      path, cycleFound, finished := [], false, [];
    }

    lemma Facts()
      requires Valid()
      ensures color.Length == |g| && WellFormed(g) && Walk(g, path)
      ensures forall i: nat | i < |g| :: color[i] == WHITE || color[i] == GRAY || color[i] == BLACK
      ensures forall i: nat | i < |g| :: color[i] == GRAY <==> i in path
      ensures forall i: nat | i < |g| :: color[i] == BLACK <==> i in finished
      ensures DependenciesFirst(g, finished)
    {
      hide DependenciesFirst, WellFormed, Walk;
    }

    /** Visits a white module imported by the end of the path. */
    method Dfs(node: nat)
      requires Valid() && !cycleFound && node < |g| && color[node] == WHITE && color.Length == |g|
      requires path == [] || Imports(g, path[|path| - 1], node)
      modifies this`path, this`cycleFound, this`finished, color
      ensures cycleFound ==> HasCycle(g)
      ensures !cycleFound ==> Valid() && path == old(path) && color[node] == BLACK && White() < old(White())
      ensures !cycleFound ==> forall i: nat | i < |g| && old(color[i]) == BLACK :: color[i] == BLACK
      decreases White()
    {
      hide Searching, HasCycle, Walk, DependenciesFirst;
      Facts();
      Grayed(g, color[..], path, finished, node);
      ghost var was := color[..];
      color[node] := GRAY;
      path := path + [node];
      assert color[..] == was[node := GRAY];
      assert White() < old(White()) by { assert node in old(White()) && node !in White(); }
      var k := 0;
      while k < |g[node]|
        invariant 0 <= k <= |g[node]| && !cycleFound && Valid() && path == old(path) + [node]
        invariant forall j | 0 <= j < k :: g[node][j] < |g| && color[g[node][j]] == BLACK
        invariant forall i: nat | i < |g| && old(color[i]) == BLACK :: color[i] == BLACK
        invariant White() < old(White())
      {
        Facts();
        var next := g[node][k];
        assert Imports(g, node, next);
        if color[next] == GRAY {
          ClosesCycle(g, path, next);
          cycleFound := true;
          return;
        }
        if color[next] == WHITE {
          Dfs(next);
          if cycleFound {
            return;
          }
        }
        k := k + 1;
      }
      Blackened(g, color[..], old(path), finished, node);
      was := color[..];
      color[node] := BLACK;
      path := path[..|path| - 1];
      finished := finished + [node];
      assert color[..] == was[node := BLACK] && path == old(path);
      assert White() < old(White());
    }

    /** Tries every module; stops at the first cycle. */
    method Search()
      requires Valid() && path == [] && !cycleFound && finished == [] && color.Length == |g|
      modifies this`path, this`cycleFound, this`finished, color
      ensures cycleFound <==> HasCycle(g)
      ensures !cycleFound ==> DependenciesFirst(g, finished) && Complete(g, finished)
    {
      hide Searching, HasCycle, Walk, DependenciesFirst;
      var i := 0;
      while i < |g| && !cycleFound
        invariant 0 <= i <= |g|
        invariant cycleFound ==> HasCycle(g)
        invariant !cycleFound ==> Valid() && path == [] && forall j | 0 <= j < i :: color[j] == BLACK
      {
        Facts();
        if color[i] == WHITE {
          Dfs(i);
        } else {
          assert color[i] == BLACK;
        }
        i := i + 1;
      }
      if !cycleFound {
        Facts();
        OrderedIsAcyclic(g, finished);
      }
    }
  }

  // ---- Kahn's loop ----

  ghost function Count(s: seq<nat>, x: nat): nat
  {
    multiset(s)[x]
  }

  ghost function Members(order: seq<nat>): set<nat>
  {
    set x | x in order
  }

  /** How many of the imports, counted with repetition, are not done. */
  ghost function Pending(deps: seq<nat>, done: set<nat>): nat
  {
    if deps == [] then 0
    else (if deps[|deps| - 1] in done then 0 else 1) + Pending(deps[..|deps| - 1], done)
  }

  lemma {:induction false} PendingAll(deps: seq<nat>)
    ensures Pending(deps, {}) == |deps|
  {
    if deps != [] {
      PendingAll(deps[..|deps| - 1]);
    }
  }

  lemma {:induction false} PendingZero(deps: seq<nat>, done: set<nat>)
    ensures Pending(deps, done) == 0 <==> forall d | d in deps :: d in done
  {
    if deps != [] {
      var n := |deps| - 1;
      PendingZero(deps[..n], done);
      assert deps == deps[..n] + [deps[n]];
    }
  }

  /** Finishing a module settles every mention of it. */
  lemma {:induction false} PendingDone(deps: seq<nat>, done: set<nat>, x: nat)
    requires x !in done
    ensures Pending(deps, done + {x}) + Count(deps, x) == Pending(deps, done)
  {
    if deps != [] {
      var n := |deps| - 1;
      PendingDone(deps[..n], done, x);
      assert deps == deps[..n] + [deps[n]];
    }
  }

  /** Who imports whom, the other way round, with the same multiplicities. */
  ghost predicate Reversed(g: Graph, rev: seq<seq<nat>>)
  {
    |rev| == |g| && WellFormed(rev) && forall d: nat, i: nat | d < |g| && i < |g| :: Count(rev[d], i) == Count(g[i], d)
  }

  /** The mentions of `d` in module `j`, as far as the reversal has come: modules before `i`
      whole, of module `i` the first `k` imports. */
  ghost function Seen(g: Graph, i: nat, k: nat, d: nat, j: nat): nat
  {
    if j >= |g| then 0 else if j < i then Count(g[j], d) else if j == i && k <= |g[i]| then Count(g[i][..k], d) else 0
  }

  ghost predicate ReversedTo(g: Graph, rev: seq<seq<nat>>, i: nat, k: nat)
  {
    |rev| == |g| && WellFormed(rev) && forall d: nat, j: nat | d < |rev| && j < |g| :: Count(rev[d], j) == Seen(g, i, k, d, j)
  }

  lemma {:induction false} ReverseOne(g: Graph, rev: seq<seq<nat>>, i: nat, k: nat)
    requires WellFormed(g) && ReversedTo(g, rev, i, k) && i < |g| && k < |g[i]|
    ensures g[i][k] < |rev| && ReversedTo(g, rev[g[i][k] := rev[g[i][k]] + [i]], i, k + 1)
  {
    var dep := g[i][k];
    var rev' := rev[dep := rev[dep] + [i]];
    forall d: nat, j: nat | d < |rev'| && j < |g|
      ensures Count(rev'[d], j) == Seen(g, i, k + 1, d, j)
    {
      assert Count(rev[d], j) == Seen(g, i, k, d, j);
      assert g[i][..k + 1] == g[i][..k] + [dep];
    }
  }

  lemma {:induction false} ReverseNext(g: Graph, rev: seq<seq<nat>>, i: nat)
    requires i < |g| && ReversedTo(g, rev, i, |g[i]|)
    ensures ReversedTo(g, rev, i + 1, 0)
  {
    assert g[i][..|g[i]|] == g[i];
    forall d: nat, j: nat | d < |rev| && j < |g|
      ensures Count(rev[d], j) == Seen(g, i + 1, 0, d, j)
    {
      assert Count(rev[d], j) == Seen(g, i, |g[i]|, d, j);
      assert j == i + 1 ==> g[j][..0] == [];
    }
  }

  method Reverse(g: Graph) returns (rev: seq<seq<nat>>)
    requires WellFormed(g)
    ensures Reversed(g, rev)
  {
    hide WellFormed, ReversedTo;
    rev := seq(|g|, _ => []);
    ReverseNone(g, rev);
    var i := 0;
    while i < |g|
      invariant 0 <= i <= |g| && ReversedTo(g, rev, i, 0) && |rev| == |g|
    {
      var k := 0;
      while k < |g[i]|
        invariant 0 <= k <= |g[i]| && ReversedTo(g, rev, i, k) && |rev| == |g|
      {
        ReverseOne(g, rev, i, k);
        var dep := g[i][k];
        rev := rev[dep := rev[dep] + [i]];
        k := k + 1;
      }
      ReverseNext(g, rev, i);
      i := i + 1;
    }
    ReverseAll(g, rev);
  }

  lemma {:induction false} ReverseNone(g: Graph, rev: seq<seq<nat>>)
    requires |rev| == |g| && forall d | 0 <= d < |rev| :: rev[d] == []
    ensures ReversedTo(g, rev, 0, 0)
  {
    forall d: nat, j: nat | d < |rev| && j < |g|
      ensures Count(rev[d], j) == Seen(g, 0, 0, d, j)
    {
      assert g[0][..0] == [];
    }
  }

  lemma {:induction false} ReverseAll(g: Graph, rev: seq<seq<nat>>)
    requires ReversedTo(g, rev, |g|, 0)
    ensures Reversed(g, rev)
  {
    forall d: nat, i: nat | d < |g| && i < |g|
      ensures Count(rev[d], i) == Count(g[i], d)
    {
      assert Count(rev[d], i) == Seen(g, |g|, 0, d, i);
    }
  }

  ghost predicate Ready(g: Graph, done: set<nat>, i: nat)
  {
    i < |g| && i !in done && forall d | d in g[i] :: d in done
  }

  /** Each module of the order is the lowest one ready at its turn. */
  ghost predicate LowestReady(g: Graph, order: seq<nat>)
  {
    forall k | 0 <= k < |order| ::
      Ready(g, Members(order[..k]), order[k]) && forall i: nat | i < order[k] :: !Ready(g, Members(order[..k]), i)
  }

  /** Some module is missing from a short order. */
  lemma {:induction false} Missing(order: seq<nat>, n: nat) returns (x: nat)
    requires |order| < n
    ensures x < n && x !in order
    decreases n
  {
    if n - 1 !in order {
      x := n - 1;
    } else {
      var i :| 0 <= i < |order| && order[i] == n - 1;
      var rest := order[..i] + order[i + 1..];
      x := Missing(rest, n - 1);
      assert order == order[..i] + [n - 1] + order[i + 1..];
    }
  }

  /** On an acyclic graph there is always a module ready. */
  lemma {:induction false} SomeReady(g: Graph, topo: seq<nat>, order: seq<nat>) returns (x: nat)
    requires DependenciesFirst(g, topo) && Complete(g, topo) && |order| < |g|
    ensures Ready(g, Members(order), x)
  {
    var m := Missing(order, |g|);
    x := FirstMissing(g, topo, order, Position(topo, m));
  }

  lemma {:induction false} FirstMissing(g: Graph, topo: seq<nat>, order: seq<nat>, k: nat) returns (x: nat)
    requires DependenciesFirst(g, topo) && k < |topo| && topo[k] !in order
    ensures Ready(g, Members(order), x)
    decreases k
  {
    if d :| d in g[topo[k]] && d !in order {
      assert Imports(g, topo[k], d);
      var j :| 0 <= j < k && topo[j] == d;
      x := FirstMissing(g, topo, order, j);
    } else {
      x := topo[k];
    }
  }

  lemma {:induction false} OrderMore(g: Graph, order: seq<nat>, x: nat)
    requires DependenciesFirst(g, order) && LowestReady(g, order) && Ready(g, Members(order), x)
    requires forall i: nat | i < x :: !Ready(g, Members(order), i)
    ensures DependenciesFirst(g, order + [x]) && LowestReady(g, order + [x]) && Members(order + [x]) == Members(order) + {x}
  {
    var more := order + [x];
    assert forall k | 0 <= k < |order| :: more[..k] == order[..k] && more[k] == order[k];
    assert more[..|order|] == order;
    forall i, d | 0 <= i < |more| && Imports(g, more[i], d)
      ensures d in more[..i]
    {
      if i < |order| {
        assert Imports(g, order[i], d);
      } else {
        assert d in Members(order);
      }
    }
  }

  /** The counters say how many imports are left. */
  ghost predicate Counted(g: Graph, inDegree: seq<int>, done: set<nat>)
  {
    |inDegree| == |g| && forall i: nat | i < |g| :: inDegree[i] == Pending(g[i], done)
  }

  /** The lowest unprocessed module with no import left. */
  method FindReady(g: Graph, processed: seq<bool>, inDegree: seq<int>, ghost done: set<nat>, ghost witness_: nat) returns (chosen: nat)
    requires Counted(g, inDegree, done) && |processed| == |g| && (forall i: nat | i < |g| :: processed[i] <==> i in done)
    requires Ready(g, done, witness_)
    ensures Ready(g, done, chosen) && forall i: nat | i < chosen :: !Ready(g, done, i)
  {
    hide Pending;
    forall i: nat | i < |g| ensures inDegree[i] == 0 <==> forall d | d in g[i] :: d in done { PendingZero(g[i], done); }
    chosen := 0;
    while processed[chosen] || inDegree[chosen] != 0
      invariant chosen <= witness_
      invariant forall i: nat | i < chosen :: !Ready(g, done, i)
      decreases witness_ - chosen
    {
      chosen := chosen + 1;
    }
  }

  /** Takes one off the counter of every module that imports `chosen`, once for each mention. */
  method Settle(g: Graph, rev: seq<seq<nat>>, inDegree: seq<int>, chosen: nat, ghost done: set<nat>) returns (r: seq<int>)
    requires WellFormed(g) && Reversed(g, rev) && Counted(g, inDegree, done) && chosen < |g| && chosen !in done
    ensures Counted(g, r, done + {chosen})
  {
    hide Pending;
    r := inDegree;
    var dependents := rev[chosen];
    var k := 0;
    assert dependents[..0] == [];
    while k < |dependents|
      invariant 0 <= k <= |dependents| && |r| == |g|
      invariant forall i: nat | i < |g| :: r[i] == inDegree[i] - Count(dependents[..k], i)
    {
      assert dependents[..k + 1] == dependents[..k] + [dependents[k]];
      r := r[dependents[k] := r[dependents[k]] - 1];
      k := k + 1;
    }
    assert dependents[..k] == dependents;
    forall i: nat | i < |g|
      ensures r[i] == Pending(g[i], done + {chosen})
    {
      PendingDone(g[i], done, chosen);
      assert Count(rev[chosen], i) == Count(g[i], chosen);
    }
  }

  /** Kahn's loop on a graph without cycles: every round finds a module. */
  method Kahn(g: Graph, ghost topo: seq<nat>) returns (order: seq<nat>)
    requires WellFormed(g) && DependenciesFirst(g, topo) && Complete(g, topo)
    ensures DependenciesFirst(g, order) && |order| == |g| && LowestReady(g, order)
  {
    hide WellFormed, DependenciesFirst, Reversed, Pending, LowestReady, Counted, Ready;
    var rev := Reverse(g);
    order := [];
    var inDegree := seq(|g|, i requires 0 <= i < |g| => |g[i]|);
    var processed := seq(|g|, _ => false);
    StartKahn(g, inDegree);
    while |order| < |g|
      invariant |order| <= |g| && |processed| == |g| && forall i: nat | i < |g| :: processed[i] <==> i in Members(order)
      invariant DependenciesFirst(g, order) && LowestReady(g, order) && Counted(g, inDegree, Members(order))
      decreases |g| - |order|
    {
      ghost var x := SomeReady(g, topo, order);
      var chosen := FindReady(g, processed, inDegree, Members(order), x);
      ReadyFacts(g, Members(order), chosen);
      OrderMore(g, order, chosen);
      inDegree := Settle(g, rev, inDegree, chosen, Members(order));
      processed := processed[chosen := true];
      order := order + [chosen];
    }
  }

  lemma {:induction false} ReadyFacts(g: Graph, done: set<nat>, x: nat)
    requires Ready(g, done, x)
    ensures x < |g| && x !in done
  {
  }

  lemma {:induction false} StartKahn(g: Graph, inDegree: seq<int>)
    requires |inDegree| == |g| && forall i: nat | i < |g| :: inDegree[i] == |g[i]|
    ensures Counted(g, inDegree, Members([])) && DependenciesFirst(g, []) && LowestReady(g, [])
  {
    assert Members([]) == {};
    forall i: nat | i < |g| ensures inDegree[i] == Pending(g[i], Members([])) { PendingAll(g[i]); }
  }

  /** The compilation order, or None exactly when the imports have a cycle.  The order names
      every module once, dependencies first, always the lowest module that is ready. */
  method CompileOrder(g: Graph) returns (r: Option<seq<nat>>)
    requires WellFormed(g)
    ensures r.None? <==> HasCycle(g)
    ensures r.Some? ==> DependenciesFirst(g, r.value) && |r.value| == |g| && Complete(g, r.value) && LowestReady(g, r.value)
  {
    hide DependenciesFirst, HasCycle, LowestReady, Complete, Searching;
    var search := new CycleSearch(g);
    assert search.color.Length == |g| by { search.Facts(); }
    search.Search();
    if search.cycleFound {
      return None;
    }
    var order := Kahn(g, search.finished);
    AllThere(g, order);
    r := Some(order);
  }

  lemma {:induction false} TooMany(order: seq<nat>, m: nat)
    requires forall i | 0 <= i < |order| :: order[i] < m
    requires forall i, j | 0 <= i < j < |order| :: order[i] != order[j]
    ensures |order| <= m
    decreases m
  {
    assert order != [] ==> order[0] < m;
    if order != [] {
      if m - 1 in order {
        var i :| 0 <= i < |order| && order[i] == m - 1;
        TooMany(order[..i] + order[i + 1..], m - 1);
      } else {
        TooMany(order, m - 1);
      }
    }
  }

  /** An order as long as the graph has everything. */
  lemma {:induction false} AllThere(g: Graph, order: seq<nat>)
    requires DependenciesFirst(g, order) && |order| == |g|
    ensures Complete(g, order)
  {
    forall i: nat | i < |g|
      ensures i in order
    {
      if i !in order {
        TooMany(order + [i], |g|);
      }
    }
  }
}
