/** Linear live ranges, the interference graph and Chaitin-style colouring with four
    registers.  The three analyses are loops over maps; each is proved against what its
    result means. */
module RegAlloc {
  import opened IR

  datatype Reg = Eax | Ecx | Edx | Esi | Ebx | Edi | R8d

  const POOL: seq<Reg> := [Eax, Ecx, Edx, Esi]

  // ---- live ranges ----

  datatype Range = Range(start: nat, end: nat)

  /** The values an instruction mentions: destination, left, right. */
  function Touched(inst: Inst): seq<ValueId>
  {
    match inst
    case Const(d, _) => [d]
    case Binary(_, d, l, r) => [d, l, r]
    case Param(d, _) => [d]
    case Move(d, l) => [d, l]
    case Mark(_) => []
    case Jump(_) => []
    case JumpIfZero(l, _) => [l]
    case Return(l) => [l]
  }

  /** `r` spans exactly the instructions below `n` that mention `v`, from first to last. */
  ghost predicate Spans(code: seq<Inst>, n: nat, v: ValueId, r: Range)
    requires n <= |code|
  {
    r.start <= r.end < n && v in Touched(code[r.start]) && v in Touched(code[r.end]) &&
    forall i | 0 <= i < n && v in Touched(code[i]) :: r.start <= i <= r.end
  }

  ghost predicate RangesOf(code: seq<Inst>, n: nat, ranges: map<ValueId, Range>)
    requires n <= |code|
  {
    (forall v | v in ranges :: Spans(code, n, v, ranges[v])) &&
    (forall i, v | 0 <= i < n && v in Touched(code[i]) :: v in ranges)
  }

  function Touch(ranges: map<ValueId, Range>, v: ValueId, i: nat): map<ValueId, Range>
  {
    if v !in ranges then ranges[v := Range(i, i)]
    else ranges[v := Range(ranges[v].start, if ranges[v].end > i then ranges[v].end else i)]
  }

  /** Ranges of the first `n` instructions and of the first `k` values of the next. */
  ghost predicate RangesUpTo(code: seq<Inst>, n: nat, k: nat, ranges: map<ValueId, Range>)
    requires n < |code| && k <= |Touched(code[n])|
  {
    (forall v | v in ranges ::
       if v in Touched(code[n])[..k] then
         ranges[v].start <= ranges[v].end == n && v in Touched(code[ranges[v].start]) &&
         forall i | 0 <= i < n && v in Touched(code[i]) :: ranges[v].start <= i
       else Spans(code, n, v, ranges[v])) &&
    (forall i, v | 0 <= i < n && v in Touched(code[i]) :: v in ranges) &&
    (forall v | v in Touched(code[n])[..k] :: v in ranges)
  }

  lemma TouchStep(code: seq<Inst>, n: nat, k: nat, ranges: map<ValueId, Range>)
    requires n < |code| && k < |Touched(code[n])| && RangesUpTo(code, n, k, ranges)
    ensures RangesUpTo(code, n, k + 1, Touch(ranges, Touched(code[n])[k], n))
  {
    var t := Touched(code[n]);
    assert t[..k + 1] == t[..k] + [t[k]];
  }

  lemma TouchFirst(code: seq<Inst>, n: nat, ranges: map<ValueId, Range>)
    requires n < |code| && RangesOf(code, n, ranges)
    ensures RangesUpTo(code, n, 0, ranges)
  {
  }

  lemma TouchLast(code: seq<Inst>, n: nat, ranges: map<ValueId, Range>)
    requires n < |code| && RangesUpTo(code, n, |Touched(code[n])|, ranges)
    ensures RangesOf(code, n + 1, ranges)
  {
    var t := Touched(code[n]);
    assert t[..|t|] == t;
    forall v | v in ranges
      ensures Spans(code, n + 1, v, ranges[v])
    {
    }
  }

  method Analyze(code: seq<Inst>) returns (ranges: map<ValueId, Range>)
    ensures RangesOf(code, |code|, ranges)
  {
    ranges := map[];
    var i := 0;
    assert RangesOf(code, 0, ranges);
    hide RangesOf, RangesUpTo, Touched, Touch;
    while i < |code|
      invariant 0 <= i <= |code|
      invariant RangesOf(code, i, ranges)
    {
      var t := Touched(code[i]);
      var k := 0;
      TouchFirst(code, i, ranges);
      while k < |t|
        invariant 0 <= k <= |t|
        invariant RangesUpTo(code, i, k, ranges)
      {
        TouchStep(code, i, k, ranges);
        ranges := Touch(ranges, t[k], i);
        k := k + 1;
      }
      TouchLast(code, i, ranges);
      i := i + 1;
    }
  }

  // ---- interference ----

  type Graph = map<ValueId, set<ValueId>>

  predicate Overlap(a: Range, b: Range)
  {
    a.start < b.end && b.start < a.end
  }

  ghost predicate Symmetric(g: Graph)
  {
    forall a, b | a in g && b in g[a] :: b != a && b in g && a in g[b]
  }

  ghost predicate Interferes(ranges: map<ValueId, Range>, a: ValueId, b: ValueId)
  {
    a in ranges && b in ranges && a != b && Overlap(ranges[a], ranges[b])
  }

  /** Edges of the graph are exactly the overlapping pairs. */
  ghost predicate GraphOf(ranges: map<ValueId, Range>, g: Graph)
  {
    g.Keys == ranges.Keys && forall a, b | a in g :: b in g[a] <==> Interferes(ranges, a, b)
  }

  lemma GraphIsSymmetric(ranges: map<ValueId, Range>, g: Graph)
    requires GraphOf(ranges, g)
    ensures Symmetric(g)
  {
    forall a, b | a in g && b in g[a]
      ensures b != a && b in g && a in g[b]
    {
      assert Interferes(ranges, a, b) && Interferes(ranges, b, a);
    }
  }

  function WithNode(g: Graph, a: ValueId): Graph
  {
    if a in g then g else g[a := {}]
  }

  /** Adds the undirected edge between two values, creating either node if absent. */
  function WithEdge(g: Graph, a: ValueId, b: ValueId): Graph
  {
    var g1 := WithNode(WithNode(g, a), b);
    var g2 := g1[a := g1[a] + {b}];
    g2[b := g2[b] + {a}]
  }

  function Neighbours(g: Graph, x: ValueId): set<ValueId>
  {
    if x in g then g[x] else {}
  }

  /** A pair is looked at from its smaller number: `done` are the numbers whose pairs have
      all been looked at, and of `a` those with `with` have been. */
  ghost predicate Looked(x: ValueId, y: ValueId, done: set<ValueId>, a: ValueId, others: set<ValueId>)
  {
    var lo, hi := (if x < y then x else y), (if x < y then y else x);
    lo in done || (lo == a && hi in others)
  }

  ghost predicate EdgesOf(ranges: map<ValueId, Range>, g: Graph, done: set<ValueId>, a: ValueId, others: set<ValueId>)
  {
    done <= g.Keys <= ranges.Keys &&
    forall x, y :: y in Neighbours(g, x) <==> Interferes(ranges, x, y) && Looked(x, y, done, a, others)
  }

  method BuildGraph(ranges: map<ValueId, Range>) returns (g: Graph)
    ensures GraphOf(ranges, g) && Symmetric(g)
  {
    g := map[];
    var todo := ranges.Keys;
    assert EdgesOf(ranges, g, {}, 0, {});
    assert ranges.Keys - todo == {};
    hide EdgesOf, WithEdge, WithNode;
    while todo != {}
      invariant todo <= ranges.Keys
      invariant EdgesOf(ranges, g, ranges.Keys - todo, 0, {})
      decreases |todo|
    {
      var a :| a in todo;
      ghost var done := ranges.Keys - todo;
      NodeStep(ranges, g, done, a);
      g := WithNode(g, a);
      var rest := ranges.Keys;
      assert ranges.Keys - rest == {};
      while rest != {}
        invariant rest <= ranges.Keys && a in g
        invariant EdgesOf(ranges, g, done, a, ranges.Keys - rest)
        decreases |rest|
      {
        var b :| b in rest;
        PairStep(ranges, g, done, a, ranges.Keys - rest, b);
        if a < b && Overlap(ranges[a], ranges[b]) {
          g := WithEdge(g, a, b);
        }
        assert ranges.Keys - (rest - {b}) == ranges.Keys - rest + {b};
        rest := rest - {b};
      }
      assert ranges.Keys - rest == ranges.Keys;
      NodeDone(ranges, g, done, a);
      todo := todo - {a};
      assert ranges.Keys - todo == done + {a};
    }
    assert ranges.Keys - todo == ranges.Keys;
    GraphComplete(ranges, g);
  }

  lemma NodeStep(ranges: map<ValueId, Range>, g: Graph, done: set<ValueId>, a: ValueId)
    requires EdgesOf(ranges, g, done, 0, {}) && a in ranges
    ensures a in WithNode(g, a) && EdgesOf(ranges, WithNode(g, a), done, a, {})
  {
    forall x
      ensures Neighbours(WithNode(g, a), x) == Neighbours(g, x)
    {
    }
  }

  lemma PairStep(ranges: map<ValueId, Range>, g: Graph, done: set<ValueId>, a: ValueId, others: set<ValueId>, b: ValueId)
    requires EdgesOf(ranges, g, done, a, others) && a in g && a in ranges && b in ranges
    ensures var g' := if a < b && Overlap(ranges[a], ranges[b]) then WithEdge(g, a, b) else g;
            a in g' && EdgesOf(ranges, g', done, a, others + {b})
  {
    if a < b && Overlap(ranges[a], ranges[b]) {
      var g' := WithEdge(g, a, b);
      EdgeAdded(g, a, b);
      forall x, y
        ensures y in Neighbours(g', x) <==> Interferes(ranges, x, y) && Looked(x, y, done, a, others + {b})
      {
        assert y in Neighbours(g, x) <==> Interferes(ranges, x, y) && Looked(x, y, done, a, others);
      }
    } else {
      forall x, y
        ensures y in Neighbours(g, x) <==> Interferes(ranges, x, y) && Looked(x, y, done, a, others + {b})
      {
        assert y in Neighbours(g, x) <==> Interferes(ranges, x, y) && Looked(x, y, done, a, others);
      }
    }
  }

  lemma EdgeAdded(g: Graph, a: ValueId, b: ValueId)
    requires a != b
    ensures var g' := WithEdge(g, a, b);
            g'.Keys == g.Keys + {a, b} &&
            forall x, y :: y in Neighbours(g', x) <==> y in Neighbours(g, x) || (x == a && y == b) || (x == b && y == a)
  {
  }

  lemma NodeDone(ranges: map<ValueId, Range>, g: Graph, done: set<ValueId>, a: ValueId)
    requires EdgesOf(ranges, g, done, a, ranges.Keys) && a in g
    ensures EdgesOf(ranges, g, done + {a}, 0, {})
  {
    forall x, y
      ensures y in Neighbours(g, x) <==> Interferes(ranges, x, y) && Looked(x, y, done + {a}, 0, {})
    {
      assert y in Neighbours(g, x) <==> Interferes(ranges, x, y) && Looked(x, y, done, a, ranges.Keys);
    }
  }

  lemma GraphComplete(ranges: map<ValueId, Range>, g: Graph)
    requires EdgesOf(ranges, g, ranges.Keys, 0, {})
    ensures GraphOf(ranges, g) && Symmetric(g)
  {
    forall a, b | a in g
      ensures b in g[a] <==> Interferes(ranges, a, b)
    {
      assert b in Neighbours(g, a) <==> Interferes(ranges, a, b) && Looked(a, b, ranges.Keys, 0, {});
    }
    GraphIsSymmetric(ranges, g);
  }

  // ---- colouring ----

  datatype Allocation = Allocation(registers: map<ValueId, Reg>, slots: map<ValueId, nat>, slotCount: nat)

  ghost predicate SlotsOk(al: Allocation)
  {
    al.registers.Keys !! al.slots.Keys &&
    (forall v | v in al.slots :: al.slots[v] < al.slotCount) &&
    (forall v, w | v in al.slots && w in al.slots && al.slots[v] == al.slots[w] :: v == w)
  }

  ghost predicate ProperlyColoured(g: Graph, registers: map<ValueId, Reg>)
  {
    (forall v | v in registers :: registers[v] in POOL) &&
    (forall v, w | v in registers && w in registers && v in g && w in g[v] :: registers[v] != registers[w])
  }

  /** The place of a register in the pool. */
  function Rank(r: Reg): nat
  {
    match r
    case Eax => 0
    case Ecx => 1
    case Edx => 2
    case Esi => 3
    case _ => 4
  }

  /** First free: every register of the pool before a value's own is held by a neighbour. */
  ghost predicate Greedy(g: Graph, registers: map<ValueId, Reg>)
  {
    forall v, r | v in registers && v in g && r in POOL && Rank(r) < Rank(registers[v]) :: r in UsedBy(g[v], registers)
  }

  ghost function Elements<T>(s: seq<T>): set<T>
  {
    set x | x in s
  }

  /** The subgraph on `keys`. */
  ghost function Restrict(g: Graph, keys: set<ValueId>): Graph
  {
    map v | v in keys && v in g :: g[v] * keys
  }

  function NextSlot(al: Allocation, v: ValueId): Allocation
  {
    al.(slots := al.slots[v := al.slotCount], slotCount := al.slotCount + 1)
  }

  lemma NextSlotOk(al: Allocation, v: ValueId)
    requires SlotsOk(al) && v !in al.registers
    ensures SlotsOk(NextSlot(al, v))
  {
  }

  /** Takes a node out of a working graph, visiting only its neighbours. */
  method RemoveNode(working: Graph, v: ValueId) returns (result: Graph)
    requires Symmetric(working)
    ensures result == Restrict(working, working.Keys - {v})
  {
    if v !in working {
      assert working.Keys - {v} == working.Keys;
      assert forall x | x in working :: working[x] * working.Keys == working[x];
      assert Restrict(working, working.Keys) == working;
      return working;
    }
    result := working;
    var todo := working[v];
    while todo != {}
      invariant todo <= working[v]
      invariant result.Keys == working.Keys
      invariant forall x | x in working :: result[x] == if x in working[v] - todo then working[x] - {v} else working[x]
      decreases |todo|
    {
      var n :| n in todo;
      if n in result {
        result := result[n := result[n] - {v}];
      }
      todo := todo - {n};
    }
    result := result - {v};
    forall x | x in result
      ensures result[x] == working[x] * (working.Keys - {v})
    {
      assert forall y | y in working[x] :: y in working;
    }
  }

  lemma RestrictTwice(g: Graph, keys: set<ValueId>, v: ValueId)
    requires Symmetric(g) && keys <= g.Keys
    ensures Symmetric(Restrict(g, keys)) && Restrict(g, keys).Keys == keys
    ensures Restrict(Restrict(g, keys), keys - {v}) == Restrict(g, keys - {v})
  {
    forall x | x in keys
      ensures (g[x] * keys) * (keys - {v}) == g[x] * (keys - {v})
    {
    }
  }

  method FindSimplifiable(working: Graph) returns (found: Option<ValueId>)
    ensures found.Some? ==> found.value in working && |working[found.value]| < |POOL|
    ensures found.None? ==> forall v | v in working :: |working[v]| >= |POOL|
  {
    found := None;
    var todo := working.Keys;
    while todo != {}
      invariant todo <= working.Keys
      invariant forall v | v in working && v !in todo :: |working[v]| >= |POOL|
      decreases |todo|
    {
      var v :| v in todo;
      if |working[v]| < |POOL| {
        return Some(v);
      }
      todo := todo - {v};
    }
  }

  method FindHighestDegree(working: Graph) returns (chosen: ValueId)
    requires working != map[]
    ensures chosen in working && forall v | v in working :: |working[v]| <= |working[chosen]|
  {
    var todo := working.Keys;
    assert todo != {};
    var highest := -1;
    chosen := 0;
    while todo != {}
      invariant todo <= working.Keys
      invariant highest == -1 ==> todo == working.Keys
      invariant highest != -1 ==> chosen in working && highest == |working[chosen]|
      invariant forall v | v in working && v !in todo :: |working[v]| <= highest
      decreases |todo|
    {
      var v :| v in todo;
      if |working[v]| > highest {
        highest := |working[v]|;
        chosen := v;
      }
      todo := todo - {v};
    }
  }

  /** Every non-empty part of the graph outside `spilled` has a value with fewer than four
      neighbours in it. */
  ghost predicate Degenerate(g: Graph, spilled: set<ValueId>)
  {
    forall keys: set<ValueId> | keys <= g.Keys - spilled && keys != {} ::
      exists v :: v in keys && v in g && |g[v] * keys| < |POOL|
  }

  ghost predicate EasyOrder(g: Graph, stack: seq<ValueId>, keys: set<ValueId>)
  {
    forall i | 0 <= i < |stack| && stack[i] in g :: |g[stack[i]] * (keys + Elements(stack[i + 1..]))| < |POOL|
  }

  ghost predicate Stacked(g: Graph, stack: seq<ValueId>, keys: set<ValueId>, spilled: set<ValueId>)
  {
    keys <= g.Keys && keys !! Elements(stack) && keys + Elements(stack) == g.Keys - spilled &&
    (forall i, j | 0 <= i < j < |stack| :: stack[i] != stack[j]) &&
    (Degenerate(g, spilled) ==> EasyOrder(g, stack, keys))
  }

  /** Moving `v` from the remaining values to the stack leaves what lies above position `i`. */
  lemma AboveIsSame(stack: seq<ValueId>, keys: set<ValueId>, v: ValueId, i: nat)
    requires v in keys && i < |stack|
    ensures keys - {v} + Elements((stack + [v])[i + 1..]) == keys + Elements(stack[i + 1..])
  {
    assert (stack + [v])[i + 1..] == stack[i + 1..] + [v];
  }

  lemma PushEasy(g: Graph, stack: seq<ValueId>, keys: set<ValueId>, v: ValueId)
    requires v in keys && EasyOrder(g, stack, keys)
    requires v in g && v !in g[v] && |g[v] * keys| < |POOL|
    ensures EasyOrder(g, stack + [v], keys - {v})
  {
    var stack', keys' := stack + [v], keys - {v};
    forall i | 0 <= i < |stack'| && stack'[i] in g
      ensures |g[stack'[i]] * (keys' + Elements(stack'[i + 1..]))| < |POOL|
    {
      if i < |stack| {
        AboveIsSame(stack, keys, v, i);
      } else {
        assert stack'[i + 1..] == [];
        assert g[v] * (keys' + Elements<ValueId>([])) == g[v] * keys;
      }
    }
  }

  lemma PushNode(g: Graph, stack: seq<ValueId>, keys: set<ValueId>, spilled: set<ValueId>, v: ValueId)
    requires Symmetric(g) && Stacked(g, stack, keys, spilled) && v in keys
    requires |g[v] * keys| < |POOL| || forall w | w in keys :: |g[w] * keys| >= |POOL|
    ensures Stacked(g, stack + [v], keys - {v}, spilled)
  {
    hide EasyOrder, Degenerate, Symmetric, Elements;
    PushFacts(g, stack, keys, v);
    if Degenerate(g, spilled) {
      SomeEasy(g, spilled, keys);
      PushEasy(g, stack, keys, v);
    }
  }

  lemma PushFacts(g: Graph, stack: seq<ValueId>, keys: set<ValueId>, v: ValueId)
    requires Symmetric(g) && v in keys && keys <= g.Keys && keys !! Elements(stack)
    ensures v !in g[v] && Elements(stack + [v]) == Elements(stack) + {v} && v !in stack
  {
    assert v !in Elements(stack);
  }

  lemma SomeEasy(g: Graph, spilled: set<ValueId>, keys: set<ValueId>)
    requires Degenerate(g, spilled) && keys <= g.Keys - spilled && keys != {}
    ensures exists w :: w in keys && w in g && |g[w] * keys| < |POOL|
  {
  }

  lemma PushChosen(g: Graph, stack: seq<ValueId>, keys: set<ValueId>, spilled: set<ValueId>, working: Graph, v: ValueId)
    requires Symmetric(g) && Stacked(g, stack, keys, spilled) && keys <= g.Keys && working == Restrict(g, keys)
    requires v in working
    requires |working[v]| < |POOL| || forall w | w in working :: |working[w]| >= |POOL|
    ensures v in keys && Stacked(g, stack + [v], keys - {v}, spilled)
    ensures Restrict(working, working.Keys - {v}) == Restrict(g, keys - {v})
    ensures Symmetric(Restrict(g, keys - {v})) && Restrict(g, keys - {v}).Keys == keys - {v}
  {
    hide Stacked;
    forall w | w in keys
      ensures working[w] == g[w] * keys
    {
    }
    PushNode(g, stack, keys, spilled, v);
    RestrictTwice(g, keys, v);
    RestrictTwice(g, keys - {v}, 0);
  }

  lemma NothingStacked(g: Graph, spilled: set<ValueId>)
    ensures Stacked(g, [], g.Keys - spilled, spilled)
  {
  }

  /** Simplification: repeatedly takes out a value of degree below four, or failing that
      one of highest degree. */
  method Simplify(g: Graph, start: Graph, ghost spilled: set<ValueId>) returns (stack: seq<ValueId>)
    requires Symmetric(g) && start == Restrict(g, g.Keys - spilled)
    ensures Stacked(g, stack, {}, spilled)
  {
    hide Stacked, Restrict, Symmetric;
    var working := start;
    stack := [];
    ghost var keys := g.Keys - spilled;
    RestrictTwice(g, keys, 0);
    NothingStacked(g, spilled);
    while working != map[]
      invariant keys <= g.Keys && Stacked(g, stack, keys, spilled)
      invariant working == Restrict(g, keys) && working.Keys == keys && Symmetric(working)
      decreases |keys|
    {
      var found := FindSimplifiable(working);
      var chosen;
      if found.Some? {
        chosen := found.value;
      } else {
        chosen := FindHighestDegree(working);
      }
      PushChosen(g, stack, keys, spilled, working, chosen);
      working := RemoveNode(working, chosen);
      keys := keys - {chosen};
      stack := stack + [chosen];
    }
    assert keys == {};
  }

  // ---- selection ----

  /** The registers held by the neighbours of a value. */
  ghost function UsedBy(neighbours: set<ValueId>, registers: map<ValueId, Reg>): set<Reg>
  {
    set n | n in neighbours && n in registers :: registers[n]
  }

  method CollectUsed(neighbours: set<ValueId>, registers: map<ValueId, Reg>) returns (used: set<Reg>)
    ensures used == UsedBy(neighbours, registers)
  {
    used := {};
    var todo := neighbours;
    while todo != {}
      invariant todo <= neighbours
      invariant used == UsedBy(neighbours - todo, registers)
      decreases |todo|
    {
      var n :| n in todo;
      if n in registers {
        used := used + {registers[n]};
      }
      assert neighbours - (todo - {n}) == neighbours - todo + {n};
      todo := todo - {n};
    }
    assert neighbours - todo == neighbours;
  }

  ghost predicate Full(used: set<Reg>)
  {
    forall r | r in POOL :: r in used
  }

  method FirstFree(used: set<Reg>) returns (free: Option<Reg>)
    ensures free.Some? ==> free.value in POOL && free.value !in used &&
                           forall r | r in POOL && Rank(r) < Rank(free.value) :: r in used
    ensures free.None? ==> Full(used)
  {
    var i := 0;
    while i < |POOL|
      invariant 0 <= i <= |POOL|
      invariant forall j | 0 <= j < i :: POOL[j] in used
    {
      if POOL[i] !in used {
        return Some(POOL[i]);
      }
      i := i + 1;
    }
    free := None;
  }

  lemma {:induction false} UsedIsSmall(neighbours: set<ValueId>, registers: map<ValueId, Reg>)
    ensures |UsedBy(neighbours, registers)| <= |neighbours * registers.Keys|
    decreases |neighbours|
  {
    if neighbours == {} {
      assert UsedBy({}, registers) == {};
    } else {
      var n :| n in neighbours;
      var rest := neighbours - {n};
      UsedIsSmall(rest, registers);
      if n in registers {
        assert UsedBy(neighbours, registers) == UsedBy(rest, registers) + {registers[n]};
        assert neighbours * registers.Keys == rest * registers.Keys + {n};
      } else {
        assert UsedBy(neighbours, registers) == UsedBy(rest, registers);
        assert neighbours * registers.Keys == rest * registers.Keys;
      }
    }
  }

  /** With fewer than four coloured neighbours some register is free. */
  lemma SomeRegisterFree(neighbours: set<ValueId>, registers: map<ValueId, Reg>)
    requires |neighbours * registers.Keys| < |POOL|
    ensures !Full(UsedBy(neighbours, registers))
  {
    UsedIsSmall(neighbours, registers);
    FullIsLarge(UsedBy(neighbours, registers));
  }

  lemma FullIsLarge(used: set<Reg>)
    ensures Full(used) ==> |used| >= |POOL|
  {
    if Full(used) {
      assert Eax in POOL && Ecx in POOL && Edx in POOL && Esi in POOL;
      assert used == {Eax, Ecx, Edx, Esi} + (used - {Eax, Ecx, Edx, Esi});
    }
  }

  /** A value with fewer than four neighbours among those above it on the stack has a
      register. */
  ghost predicate EasyColoured(g: Graph, stack: seq<ValueId>, i: nat, registers: map<ValueId, Reg>)
  {
    forall j | i <= j < |stack| && stack[j] in g && |g[stack[j]] * Elements(stack[j + 1..])| < |POOL| ::
      stack[j] in registers
  }

  /** Every value of `forced` and `placed` has exactly one home, and `forced` are in slots. */
  ghost predicate Homes(al: Allocation, forced: set<ValueId>, placed: set<ValueId>)
  {
    al.registers.Keys + al.slots.Keys == forced + placed && al.registers.Keys <= placed && forced <= al.slots.Keys
  }

  /** What selection has settled for the values of the stack from position `i` on. */
  ghost predicate Selected(g: Graph, stack: seq<ValueId>, i: nat, forced: set<ValueId>, al: Allocation)
    requires i <= |stack|
  {
    SlotsOk(al) && ProperlyColoured(g, al.registers) && Greedy(g, al.registers) && EasyColoured(g, stack, i, al.registers) &&
    Homes(al, forced, Elements(stack[i..]))
  }

  lemma HomeInRegister(al: Allocation, forced: set<ValueId>, placed: set<ValueId>, v: ValueId, r: Reg)
    requires SlotsOk(al) && Homes(al, forced, placed) && v !in forced && v !in placed
    ensures var al' := al.(registers := al.registers[v := r]);
            SlotsOk(al') && Homes(al', forced, {v} + placed)
    ensures v !in al.registers
  {
    var al' := al.(registers := al.registers[v := r]);
    assert v !in al.registers.Keys + al.slots.Keys;
    assert al'.registers.Keys == al.registers.Keys + {v};
  }

  lemma HomeInSlot(al: Allocation, forced: set<ValueId>, placed: set<ValueId>, v: ValueId)
    requires SlotsOk(al) && Homes(al, forced, placed) && v !in forced && v !in placed
    ensures SlotsOk(NextSlot(al, v)) && Homes(NextSlot(al, v), forced, {v} + placed)
    ensures v !in al.slots && al.registers.Keys <= placed
  {
    assert v !in al.registers.Keys + al.slots.Keys;
    assert NextSlot(al, v).slots.Keys == al.slots.Keys + {v};
  }

  lemma Colour(g: Graph, registers: map<ValueId, Reg>, v: ValueId, r: Reg)
    requires Symmetric(g) && ProperlyColoured(g, registers) && v in g && v !in registers
    requires r in POOL && r !in UsedBy(g[v], registers)
    ensures ProperlyColoured(g, registers[v := r])
  {
    var registers' := registers[v := r];
    forall a, b | a in registers' && b in registers' && a in g && b in g[a]
      ensures registers'[a] != registers'[b]
    {
      assert a in g[b] && a != b;
    }
  }

  lemma ColourFirst(g: Graph, registers: map<ValueId, Reg>, v: ValueId, r: Reg)
    requires Greedy(g, registers) && v in g && v !in registers
    requires forall x | x in POOL && Rank(x) < Rank(r) :: x in UsedBy(g[v], registers)
    ensures Greedy(g, registers[v := r])
  {
    var registers' := registers[v := r];
    forall w, x | w in registers' && w in g && x in POOL && Rank(x) < Rank(registers'[w])
      ensures x in UsedBy(g[w], registers')
    {
      assert x in UsedBy(g[w], registers);
      var n :| n in g[w] && n in registers && registers[n] == x;
      assert registers'[n] == x;
    }
  }

  lemma StackTop(stack: seq<ValueId>, i: nat)
    requires 0 < i <= |stack|
    ensures Elements(stack[i - 1..]) == {stack[i - 1]} + Elements(stack[i..])
  {
    assert stack[i - 1..] == [stack[i - 1]] + stack[i..];
  }

  lemma EasyStep(g: Graph, stack: seq<ValueId>, i: nat, registers: map<ValueId, Reg>, registers': map<ValueId, Reg>)
    requires 0 < i <= |stack| && EasyColoured(g, stack, i, registers) && registers.Keys <= registers'.Keys
    requires stack[i - 1] in g &&
             (stack[i - 1] in registers' || |g[stack[i - 1]] * Elements(stack[i..])| >= |POOL|)
    ensures EasyColoured(g, stack, i - 1, registers')
  {
  }

  lemma SelectRegister(g: Graph, stack: seq<ValueId>, i: nat, forced: set<ValueId>, al: Allocation, r: Reg)
    requires Symmetric(g) && 0 < i <= |stack| && Selected(g, stack, i, forced, al)
    requires stack[i - 1] in g && stack[i - 1] !in forced && stack[i - 1] !in Elements(stack[i..])
    requires r in POOL && r !in UsedBy(g[stack[i - 1]], al.registers)
    requires forall x | x in POOL && Rank(x) < Rank(r) :: x in UsedBy(g[stack[i - 1]], al.registers)
    ensures Selected(g, stack, i - 1, forced, al.(registers := al.registers[stack[i - 1] := r]))
  {
    hide ProperlyColoured, Greedy, Elements, Symmetric, UsedBy, EasyColoured, SlotsOk, Homes;
    var v := stack[i - 1];
    HomeInRegister(al, forced, Elements(stack[i..]), v, r);
    ColourFirst(g, al.registers, v, r);
    StackTop(stack, i);
    Colour(g, al.registers, v, r);
    EasyStep(g, stack, i, al.registers, al.registers[v := r]);
  }

  lemma SelectSlot(g: Graph, stack: seq<ValueId>, i: nat, forced: set<ValueId>, al: Allocation)
    requires 0 < i <= |stack| && Selected(g, stack, i, forced, al)
    requires stack[i - 1] in g && stack[i - 1] !in forced && stack[i - 1] !in Elements(stack[i..])
    requires Full(UsedBy(g[stack[i - 1]], al.registers))
    ensures Selected(g, stack, i - 1, forced, NextSlot(al, stack[i - 1]))
  {
    hide ProperlyColoured, Greedy, Elements, UsedBy, EasyColoured, SlotsOk, Full, Homes;
    var v := stack[i - 1];
    HomeInSlot(al, forced, Elements(stack[i..]), v);
    CrowdedTop(g[v], Elements(stack[i..]), al.registers);
    EasyStep(g, stack, i, al.registers, al.registers);
    StackTop(stack, i);
  }

  lemma CrowdedTop(neighbours: set<ValueId>, later: set<ValueId>, registers: map<ValueId, Reg>)
    requires registers.Keys <= later && Full(UsedBy(neighbours, registers))
    ensures |neighbours * later| >= |POOL|
  {
    var all, coloured := neighbours * later, neighbours * registers.Keys;
    assert all == coloured + (all - coloured);
    if |coloured| < |POOL| {
      SomeRegisterFree(neighbours, registers);
    }
  }

  ghost predicate KeepsSlots(al: Allocation, al': Allocation)
  {
    forall v | v in al.slots :: v in al'.slots && al'.slots[v] == al.slots[v]
  }

  /** Finds a home for one value: the first register no neighbour holds, or a new slot. */
  method SelectOne(g: Graph, stack: seq<ValueId>, i: nat, ghost forced: set<ValueId>, al: Allocation)
    returns (al': Allocation)
    requires Symmetric(g) && 0 < i <= |stack| && Selected(g, stack, i, forced, al)
    requires stack[i - 1] in g && stack[i - 1] !in forced && stack[i - 1] !in Elements(stack[i..])
    ensures Selected(g, stack, i - 1, forced, al') && KeepsSlots(al, al')
  {
    var v := stack[i - 1];
    HomeInSlot(al, forced, Elements(stack[i..]), v);
    hide Symmetric, UsedBy, Elements, Full, Selected;
    var used := CollectUsed(g[v], al.registers);
    var free := FirstFree(used);
    if free.Some? {
      SelectRegister(g, stack, i, forced, al, free.value);
      al' := al.(registers := al.registers[v := free.value]);
    } else {
      SelectSlot(g, stack, i, forced, al);
      al' := NextSlot(al, v);
    }
  }

  /** Selection: colours are given in reverse stack order. */
  method Select(g: Graph, stack: seq<ValueId>, before: Allocation) returns (al: Allocation)
    requires Symmetric(g) && Stacked(g, stack, {}, before.slots.Keys) && SlotsOk(before) && before.registers == map[]
    ensures Selected(g, stack, 0, before.slots.Keys, al) && KeepsSlots(before, al)
  {
    hide Stacked, Symmetric, Elements, Selected, SlotsOk;
    NothingSelected(g, stack, before);
    al := before;
    var i := |stack|;
    while i > 0
      invariant 0 <= i <= |stack|
      invariant Selected(g, stack, i, before.slots.Keys, al) && KeepsSlots(before, al)
    {
      StackFacts(g, stack, before.slots.Keys, i - 1);
      al := SelectOne(g, stack, i, before.slots.Keys, al);
      i := i - 1;
    }
  }

  lemma NothingSelected(g: Graph, stack: seq<ValueId>, before: Allocation)
    requires SlotsOk(before) && before.registers == map[]
    ensures Selected(g, stack, |stack|, before.slots.Keys, before)
  {
    assert stack[|stack|..] == [];
  }

  lemma StackFacts(g: Graph, stack: seq<ValueId>, spilled: set<ValueId>, i: nat)
    requires Stacked(g, stack, {}, spilled) && i < |stack|
    ensures stack[i] in g && stack[i] !in spilled && stack[i] !in Elements(stack[i + 1..])
  {
    assert stack[i] in Elements(stack);
  }

  // ---- the allocator ----

  /** Element `i` of a group lies `i` slots after element 0. */
  ghost predicate Contiguous(slots: map<ValueId, nat>, group: seq<ValueId>)
  {
    (forall i | 0 <= i < |group| :: group[i] in slots) &&
    (forall i | 0 <= i < |group| :: slots[group[i]] == slots[group[0]] + i)
  }

  ghost predicate AllDistinct(group: seq<ValueId>)
  {
    forall i, j | 0 <= i < j < |group| :: group[i] != group[j]
  }

  /** The allocation after each of `vs` has been given the next slot. */
  ghost function PlaceAll(al: Allocation, vs: seq<ValueId>): Allocation
  {
    if vs == [] then al else NextSlot(PlaceAll(al, vs[..|vs| - 1]), vs[|vs| - 1])
  }

  lemma {:induction false} PlaceAllFacts(al: Allocation, vs: seq<ValueId>)
    ensures var al' := PlaceAll(al, vs);
            al'.slotCount == al.slotCount + |vs| && al'.slots.Keys == al.slots.Keys + Elements(vs) &&
            (forall v | v in al.slots && v !in vs :: al'.slots[v] == al.slots[v])
  {
    if vs != [] {
      var n := |vs| - 1;
      PlaceAllFacts(al, vs[..n]);
      assert vs == vs[..n] + [vs[n]];
      assert Elements(vs) == Elements(vs[..n]) + {vs[n]};
    } else {
      assert Elements(vs) == {};
    }
  }

  lemma {:induction false} PlaceAllInOrder(al: Allocation, vs: seq<ValueId>)
    requires AllDistinct(vs)
    ensures forall i | 0 <= i < |vs| :: vs[i] in PlaceAll(al, vs).slots && PlaceAll(al, vs).slots[vs[i]] == al.slotCount + i
  {
    if vs != [] {
      var n := |vs| - 1;
      PlaceAllFacts(al, vs[..n]);
      PlaceAllInOrder(al, vs[..n]);
      forall i | 0 <= i < n
        ensures vs[i] in PlaceAll(al, vs).slots && PlaceAll(al, vs).slots[vs[i]] == al.slotCount + i
      {
        assert vs[i] == vs[..n][i];
      }
    }
  }

  ghost function Flatten(groups: seq<seq<ValueId>>): seq<ValueId>
  {
    if groups == [] then [] else Flatten(groups[..|groups| - 1]) + groups[|groups| - 1]
  }

  lemma {:induction false} PlaceAllAppend(al: Allocation, a: seq<ValueId>, b: seq<ValueId>)
    ensures PlaceAll(al, a + b) == PlaceAll(PlaceAll(al, a), b)
    decreases |b|
  {
    if b == [] {
      assert a + b == a;
    } else {
      var n := |b| - 1;
      PlaceAllAppend(al, a, b[..n]);
      assert (a + b)[..|a + b| - 1] == a + b[..n];
    }
  }

  /** The part of the allocator before colouring: so far only slots, and the working graph
      is what is left. */
  ghost predicate Prepared(g: Graph, working: Graph, al: Allocation)
  {
    SlotsOk(al) && al.registers == map[] && working == Restrict(g, g.Keys - al.slots.Keys)
  }

  method ForceSlot(g: Graph, working: Graph, al: Allocation, v: ValueId) returns (working': Graph, al': Allocation)
    requires Symmetric(g) && Prepared(g, working, al)
    ensures Prepared(g, working', al') && al' == NextSlot(al, v)
  {
    ghost var keys := g.Keys - al.slots.Keys;
    RestrictTwice(g, keys, v);
    al' := NextSlot(al, v);
    assert g.Keys - al'.slots.Keys == keys - {v};
    NextSlotOk(al, v);
    working' := RemoveNode(working, v);
  }

  /** One array: its elements get consecutive slots in index order. */
  method PlaceGroup(g: Graph, working: Graph, al: Allocation, group: seq<ValueId>) returns (working': Graph, al': Allocation)
    requires Symmetric(g) && Prepared(g, working, al)
    ensures Prepared(g, working', al') && al' == PlaceAll(al, group)
  {
    hide Prepared, Symmetric;
    working', al' := working, al;
    var i := 0;
    while i < |group|
      invariant 0 <= i <= |group|
      invariant Prepared(g, working', al') && al' == PlaceAll(al, group[..i])
    {
      assert group[..i + 1][..i] == group[..i];
      working', al' := ForceSlot(g, working', al', group[i]);
      i := i + 1;
    }
    assert group[..i] == group;
  }

  method PlaceGroups(g: Graph, groups: seq<seq<ValueId>>) returns (working: Graph, al: Allocation)
    requires Symmetric(g)
    ensures Prepared(g, working, al) && al == PlaceAll(Allocation(map[], map[], 0), Flatten(groups))
  {
    working, al := g, Allocation(map[], map[], 0);
    ghost var none := al;
    NothingPrepared(g);
    var i := 0;
    hide Prepared, Symmetric;
    while i < |groups|
      invariant 0 <= i <= |groups|
      invariant Prepared(g, working, al) && al == PlaceAll(none, Flatten(groups[..i]))
    {
      assert groups[..i + 1][..i] == groups[..i];
      PlaceAllAppend(none, Flatten(groups[..i]), groups[i]);
      working, al := PlaceGroup(g, working, al, groups[i]);
      i := i + 1;
    }
    assert groups[..i] == groups;
  }

  lemma NothingPrepared(g: Graph)
    requires Symmetric(g)
    ensures Prepared(g, g, Allocation(map[], map[], 0))
  {
    var none: map<ValueId, nat> := map[];
    assert g.Keys - none.Keys == g.Keys;
    forall v | v in g
      ensures g[v] * g.Keys == g[v]
    {
    }
    assert Restrict(g, g.Keys) == g;
  }

  /** Address-taken values that have no slot yet get one. */
  method PlaceForced(g: Graph, working: Graph, al: Allocation, forced: seq<ValueId>)
    returns (working': Graph, al': Allocation)
    requires Symmetric(g) && Prepared(g, working, al)
    ensures Prepared(g, working', al') && KeepsSlots(al, al')
    ensures al'.slots.Keys == al.slots.Keys + Elements(forced)
  {
    hide Prepared, Symmetric;
    working', al' := working, al;
    var i := 0;
    while i < |forced|
      invariant 0 <= i <= |forced|
      invariant Prepared(g, working', al') && KeepsSlots(al, al')
      invariant al'.slots.Keys == al.slots.Keys + Elements(forced[..i])
    {
      assert forced[..i + 1] == forced[..i] + [forced[i]];
      assert Elements(forced[..i + 1]) == Elements(forced[..i]) + {forced[i]};
      if forced[i] !in al'.slots {
        working', al' := ForceSlot(g, working', al', forced[i]);
      }
      i := i + 1;
    }
    assert forced[..i] == forced;
  }

  /** What the allocator guarantees of its result. */
  ghost predicate Allots(g: Graph, forced: seq<ValueId>, groups: seq<seq<ValueId>>, al: Allocation)
  {
    var first := Elements(forced) + Elements(Flatten(groups));
    SlotsOk(al) && ProperlyColoured(g, al.registers) && Greedy(g, al.registers) &&
    al.registers.Keys + al.slots.Keys == g.Keys + first && first <= al.slots.Keys &&
    (Degenerate(g, first) ==> al.slots.Keys == first) &&
    (AllDistinct(Flatten(groups)) ==> forall k | 0 <= k < |groups| :: Contiguous(al.slots, groups[k]))
  }

  /** The allocator.  Interfering values never share a register; every value has exactly one
      home and slots are distinct; each array lies in consecutive slots; and a graph that
      can be simplified away needs no slot beyond the forced ones. */
  method Allocate(g: Graph, forced: seq<ValueId>, groups: seq<seq<ValueId>>) returns (al: Allocation)
    requires Symmetric(g)
    ensures Allots(g, forced, groups, al)
  {
    hide Symmetric, SlotsOk, Stacked, Restrict, Degenerate, ProperlyColoured, Greedy, Selected, Contiguous, Elements, Flatten,
         PlaceAll, KeepsSlots, AllDistinct;
    var working, placed := PlaceGroups(g, groups);
    PlaceAllFacts(Allocation(map[], map[], 0), Flatten(groups));
    var before;
    working, before := PlaceForced(g, working, placed, forced);
    var stack := Simplify(g, working, before.slots.Keys);
    al := Select(g, stack, before);
    assert before.slots.Keys == Elements(forced) + Elements(Flatten(groups));
    Outcome(g, stack, before.slots.Keys, al);
    if AllDistinct(Flatten(groups)) {
      KeepsTrans(placed, before, al);
      GroupsContiguous(groups, placed, al);
    }
  }

  lemma KeepsTrans(a: Allocation, b: Allocation, c: Allocation)
    requires KeepsSlots(a, b) && KeepsSlots(b, c)
    ensures KeepsSlots(a, c)
  {
  }

  lemma Outcome(g: Graph, stack: seq<ValueId>, forced: set<ValueId>, al: Allocation)
    requires Stacked(g, stack, {}, forced) && Selected(g, stack, 0, forced, al)
    ensures SlotsOk(al) && ProperlyColoured(g, al.registers) && Greedy(g, al.registers)
    ensures al.registers.Keys + al.slots.Keys == g.Keys + forced && forced <= al.slots.Keys
    ensures Degenerate(g, forced) ==> al.slots.Keys == forced
  {
    hide SlotsOk, ProperlyColoured, Greedy, Degenerate, EasyOrder, EasyColoured, Elements;
    assert stack[0..] == stack;
    if Degenerate(g, forced) {
      AllEasy(g, stack, al.registers, Elements(stack));
      assert al.slots.Keys <= forced by {
        NoSharedHome(al);
      }
    }
  }

  lemma NoSharedHome(al: Allocation)
    requires SlotsOk(al)
    ensures al.registers.Keys !! al.slots.Keys
  {
  }

  lemma AllEasy(g: Graph, stack: seq<ValueId>, registers: map<ValueId, Reg>, placed: set<ValueId>)
    requires EasyOrder(g, stack, {}) && EasyColoured(g, stack, 0, registers)
    requires placed == Elements(stack) && placed <= g.Keys
    ensures placed <= registers.Keys
  {
    forall j | 0 <= j < |stack|
      ensures stack[j] in registers
    {
      assert stack[j] in placed && stack[j] in g;
      assert {} + Elements(stack[j + 1..]) == Elements(stack[j + 1..]);
    }
  }

  lemma {:induction false} GroupsContiguous(groups: seq<seq<ValueId>>, placed: Allocation, al: Allocation)
    requires placed == PlaceAll(Allocation(map[], map[], 0), Flatten(groups)) && KeepsSlots(placed, al)
    requires AllDistinct(Flatten(groups))
    ensures forall k | 0 <= k < |groups| :: Contiguous(al.slots, groups[k])
  {
    var vs := Flatten(groups);
    PlaceAllInOrder(Allocation(map[], map[], 0), vs);
    PlaceAllFacts(Allocation(map[], map[], 0), vs);
    forall k | 0 <= k < |groups|
      ensures Contiguous(al.slots, groups[k])
    {
      var at := GroupInFlat(groups, k);
      forall i | 0 <= i < |groups[k]|
        ensures groups[k][i] in al.slots && al.slots[groups[k][i]] == at + i
      {
        assert vs[at + i] == groups[k][i];
      }
    }
  }

  /** Where a group starts in the flattened list. */
  lemma {:induction false} GroupInFlat(groups: seq<seq<ValueId>>, k: nat) returns (at: nat)
    requires k < |groups|
    ensures at + |groups[k]| <= |Flatten(groups)|
    ensures forall i | 0 <= i < |groups[k]| :: Flatten(groups)[at + i] == groups[k][i]
  {
    var n := |groups| - 1;
    if k == n {
      at := |Flatten(groups[..n])|;
    } else {
      at := GroupInFlat(groups[..n], k);
      assert groups[..n][k] == groups[k];
    }
  }
}
