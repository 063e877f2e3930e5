/** Why loops need closed ranges.  Live ranges are not extended over back jumps, so a
    variable whose last mention lies inside a loop may lose its register to a value of the
    rest of the loop's body, and be read again in the next round. */
module LoopRanges {
  import opened IR
  import opened Lowering
  import opened LoweringProof
  import opened OnceDeclared
  import opened RegAlloc
  import opened Codegen
  import opened CodegenProof
  import opened Stretching
  import opened Scoping
  import opened Compiler

  // ---- the source ----

  function Body(): seq<Stmt>
  {
    [Assign("r", BinaryExpr(Add, Variable("k"), Variable("k"))),
     Assign("n", BinaryExpr(Sub, Variable("n"), Integer(1)))]
  }

  /** f(n) { let k = 7; let r = 0; while n { r = k + k; n = n - 1; } return r; } */
  function Doubling(): Function
  {
    Function(["n"], [Let("k", Integer(7)), Let("r", Integer(0)), While(Variable("n"), Body()), ReturnStmt(Variable("r"))])
  }

  ghost function Start(): Label
  {
    Label(Loop, 0)
  }

  ghost function Finish(): Label
  {
    Label(LoopEnd, 1)
  }

  ghost function Code(): seq<Inst>
  {
    [Param(0, 0), Const(1, 7), Const(2, 0), Mark(Start()), JumpIfZero(0, Finish()), Binary(Add, 3, 1, 1), Move(2, 3),
     Const(4, 1), Binary(Sub, 5, 0, 4), Move(0, 5), Jump(Start()), Mark(Finish()), Return(2)]
  }

  lemma CodeFacts()
    ensures |Code()| == 13
    ensures Code()[0] == Param(0, 0) && Code()[1] == Const(1, 7) && Code()[2] == Const(2, 0) && Code()[3] == Mark(Start())
    ensures Code()[4] == JumpIfZero(0, Finish()) && Code()[5] == Binary(Add, 3, 1, 1) && Code()[6] == Move(2, 3)
    ensures Code()[7] == Const(4, 1) && Code()[8] == Binary(Sub, 5, 0, 4) && Code()[9] == Move(0, 5)
    ensures Code()[10] == Jump(Start()) && Code()[11] == Mark(Finish()) && Code()[12] == Return(2)
  {
  }

  ghost function Names(): map<string, ValueId>
  {
    map["n" := 0, "k" := 1, "r" := 2]
  }

  lemma LoweredBody(c: seq<Inst>)
    ensures LowerBlock(Body(), State(c, 3, 2, Names()))
         == Some(State(c + [Binary(Add, 3, 1, 1)] + [Move(2, 3)] + [Const(4, 1)] + [Binary(Sub, 5, 0, 4)] + [Move(0, 5)], 6, 2, Names()))
  {
    var body := Body();
    var s0 := State(c, 3, 2, Names());
    var s1 := State(c + [Binary(Add, 3, 1, 1)] + [Move(2, 3)], 4, 2, Names());
    assert LowerExpr(Variable("k"), s0) == Some((s0, 1));
    assert LowerExpr(body[0].value, s0) == Some((State(c + [Binary(Add, 3, 1, 1)], 4, 2, Names()), 3));
    assert LowerStmt(body[0], s0) == Some(s1);
    var s2 := State(s1.code + [Const(4, 1)] + [Binary(Sub, 5, 0, 4)] + [Move(0, 5)], 6, 2, Names());
    assert LowerExpr(body[1].value, s1) == Some((State(s1.code + [Const(4, 1)] + [Binary(Sub, 5, 0, 4)], 6, 2, Names()), 5));
    assert LowerStmt(body[1], s1) == Some(s2);
    assert body[1..] == [body[1]] && [body[1]][1..] == [];
  }

  lemma LoweredLoop(c: seq<Inst>)
    ensures LowerStmt(While(Variable("n"), Body()), State(c, 3, 0, Names()))
         == Some(State(c + [Mark(Start())] + [JumpIfZero(0, Finish())] + [Binary(Add, 3, 1, 1)] + [Move(2, 3)] + [Const(4, 1)] +
                       [Binary(Sub, 5, 0, 4)] + [Move(0, 5)] + [Jump(Start())] + [Mark(Finish())], 6, 2, Names()))
  {
    hide LowerBlock, Body;
    LoweredBody(c + [Mark(Start())] + [JumpIfZero(0, Finish())]);
  }

  lemma LoweredLets()
    ensures var body := Doubling().body;
            var s0 := LowerParams(["n"]);
            s0 == State([Param(0, 0)], 1, 0, map["n" := 0]) &&
            LowerStmt(body[0], s0) == Some(State([Param(0, 0)] + [Const(1, 7)], 2, 0, map["n" := 0, "k" := 1])) &&
            LowerStmt(body[1], State([Param(0, 0)] + [Const(1, 7)], 2, 0, map["n" := 0, "k" := 1]))
              == Some(State([Param(0, 0)] + [Const(1, 7)] + [Const(2, 0)], 3, 0, Names()))
  {
    hide Body;
    assert ["n"][..0] == [];
  }

  /** The function lowers to this code. */
  lemma LoweredCode()
    ensures Lower(Doubling()) == Some(Code())
  {
    hide LowerStmt, LowerParams, Names, Code;
    var body := Doubling().body;
    LoweredLets();
    var c := [Param(0, 0)] + [Const(1, 7)] + [Const(2, 0)];
    LoweredLoop(c);
    var s2 := State(c, 3, 0, Names());
    var s3 := LowerStmt(body[2], s2).value;
    LoweredReturn(s3);
    assert body[1..][1..][1..] == [body[3]] && [body[3]][1..] == [];
    assert body[1..][0] == body[1] && body[1..][1..][0] == body[2];
    SameCode(c);
  }

  lemma LoweredReturn(st: State)
    ensures st.variables == Names() ==> LowerStmt(ReturnStmt(Variable("r")), st) == Some(Emit(st, Return(2)))
  {
  }

  lemma SameCode(c: seq<Inst>)
    requires c == [Param(0, 0)] + [Const(1, 7)] + [Const(2, 0)]
    ensures c + [Mark(Start())] + [JumpIfZero(0, Finish())] + [Binary(Add, 3, 1, 1)] + [Move(2, 3)] + [Const(4, 1)] +
            [Binary(Sub, 5, 0, 4)] + [Move(0, 5)] + [Jump(Start())] + [Mark(Finish())] + [Return(2)] == Code()
  {
  }

  lemma DoublingIsWellDeclared()
    ensures WellDeclared(Doubling())
  {
    var body := Doubling().body;
    assert OnceBlock(Body(), {"n", "k", "r"}) by { assert Body()[1..][1..] == []; }
    assert body[1..][1..][1..][1..] == [];
  }

  lemma DoublingIsTraceable()
    ensures Traceable(Doubling())
  {
    hide Doubling, WellDeclared, Lower, TracedFrom, Code;
    DoublingIsWellDeclared();
    LoweredCode();
    WellDeclaredIsTraceable(Doubling());
  }

  // ---- its result ----

  lemma OnlyMarks(i: nat)
    requires i < 13
    ensures |Code()| == 13 && Code()[3] == Mark(Start()) && Code()[11] == Mark(Finish())
    ensures (Code()[i] == Mark(Start()) ==> i == 3) && (Code()[i] == Mark(Finish()) ==> i == 11)
  {
    hide Code;
    CodeFacts();
  }

  lemma Targets()
    ensures Find(Code(), Start()) == Some(3) && Find(Code(), Finish()) == Some(11)
  {
    hide Code, Find;
    OnlyMarks(0);
    assert Code()[3] in Code() && Code()[11] in Code();
    OnlyMarks(Find(Code(), Start()).value);
    OnlyMarks(Find(Code(), Finish()).value);
  }

  /** One step, then the rest. */
  lemma StepOn(pc: nat, vals: Vals, pc': nat, vals': Vals, n: nat)
    requires Step(Code(), [2], pc, vals) == At(pc', vals')
    ensures Run(Code(), [2], pc, vals, n + 1) == Run(Code(), [2], pc', vals', n)
  {
    hide Step, Code;
  }

  /** Once round the loop with n not zero and k still 7. */
  lemma CodeRound(r: Vals, x: I32, n: nat)
    requires 0 in r && r[0] == x && 0 < x < 10 && 1 in r && r[1] == 7
    ensures Run(Code(), [2], 3, r, n + 8) == Run(Code(), [2], 3, r[3 := 14][2 := 14][4 := 1][5 := x - 1][0 := x - 1], n)
  {
    hide Code, Run, Find;
    CodeFacts();
    Targets();
    var r1 := r[3 := 14];
    var r2 := r1[2 := 14];
    var r3 := r2[4 := 1];
    var r4 := r3[5 := x - 1];
    var r5 := r4[0 := x - 1];
    assert Apply(Add, 7, 7) == Some(14) && Apply(Sub, x, 1) == Some(x - 1);
    StepOn(3, r, 4, r, n + 7);
    StepOn(4, r, 5, r, n + 6);
    StepOn(5, r, 6, r1, n + 5);
    StepOn(6, r1, 7, r2, n + 4);
    StepOn(7, r2, 8, r3, n + 3);
    StepOn(8, r3, 9, r4, n + 2);
    StepOn(9, r4, 10, r5, n + 1);
    StepOn(10, r5, 3, r5, n);
  }

  lemma CodeReturns14()
    ensures Run(Code(), [2], 0, map[], 23) == Returned(14)
  {
    hide Code, Run, Find;
    CodeFacts();
    Targets();
    var a: Vals := map[0 := 2];
    var b: Vals := a[1 := 7];
    var c: Vals := b[2 := 0];
    StepOn(0, map[], 1, a, 22);
    StepOn(1, a, 2, b, 21);
    StepOn(2, b, 3, c, 20);
    CodeRound(c, 2, 12);
    var d := c[3 := 14][2 := 14][4 := 1][5 := 1][0 := 1];
    CodeRound(d, 1, 4);
    var e := d[3 := 14][2 := 14][4 := 1][5 := 0][0 := 0];
    StepOn(3, e, 4, e, 3);
    StepOn(4, e, 11, e, 2);
    StepOn(11, e, 12, e, 1);
    LastStep(e);
  }

  lemma LastStep(r: Vals)
    requires 2 in r
    ensures Run(Code(), [2], 12, r, 1) == Returned(r[2])
  {
    hide Code;
    CodeFacts();
  }

  /** Both the source and its code return 14 for n = 2. */
  lemma SourceReturns14()
    ensures SourceReturns(Doubling(), [2], 14)
  {
    hide Doubling, Code, SourceReturns, Lower, TracedFrom, Run;
    LoweredCode();
    DoublingIsTraceable();
    CodeReturns14();
    OneParameter();
    assert CodeEnds(Code(), [2], Returned(14));
    LoweringPreservesMeaning(Doubling(), [2]);
  }

  lemma OneParameter()
    ensures Doubling().params == ["n"]
  {
  }

  // ---- what the allocator does ----

  ghost function Ranges(): map<ValueId, Range>
  {
    map[0 := Range(0, 9), 1 := Range(1, 5), 2 := Range(2, 12), 3 := Range(5, 6), 4 := Range(7, 8), 5 := Range(8, 9)]
  }

  ghost function Mentions(i: nat): seq<ValueId>
  {
    match i
    case 0 => [0]
    case 1 => [1]
    case 2 => [2]
    case 4 => [0]
    case 5 => [3, 1, 1]
    case 6 => [2, 3]
    case 7 => [4]
    case 8 => [5, 0, 4]
    case 9 => [0, 5]
    case 12 => [2]
    case _ => []
  }

  lemma TouchedFacts(i: nat)
    requires i < 13
    ensures |Code()| == 13 && Touched(Code()[i]) == Mentions(i)
  {
    hide Code;
    CodeFacts();
  }

  ghost predicate Mentioned()
  {
    |Code()| == 13 && forall i: nat | i < 13 :: Touched(Code()[i]) == Mentions(i)
  }

  lemma AllMentioned()
    ensures Mentioned()
  {
    hide Code, Touched, Mentions;
    forall i: nat | i < 13
      ensures |Code()| == 13 && Touched(Code()[i]) == Mentions(i)
    {
      TouchedFacts(i);
    }
    TouchedFacts(0);
  }

  /** The analysis finds these ranges and no others. */
  lemma OnlyTheseRanges(ranges: map<ValueId, Range>)
    requires RangesOf(Code(), |Code()|, ranges)
    ensures ranges == Ranges()
  {
    hide Code, Touched, Mentioned, RangesOf;
    AllMentioned();
    CodeFacts();
    OneRange(ranges, 0, 0, 9);
    OneRange(ranges, 1, 1, 5);
    OneRange(ranges, 2, 2, 12);
    OneRange(ranges, 3, 5, 6);
    OneRange(ranges, 4, 7, 8);
    OneRange(ranges, 5, 8, 9);
    forall v | v in ranges
      ensures v in Ranges()
    {
      Known(ranges, v);
    }
  }

  lemma Known(ranges: map<ValueId, Range>, v: ValueId)
    requires |Code()| == 13 && Mentioned() && RangesOf(Code(), 13, ranges) && v in ranges
    ensures v <= 5
  {
    hide Code, Touched;
    assert Spans(Code(), 13, v, ranges[v]);
    assert v in Mentions(ranges[v].start);
  }

  lemma OneRange(ranges: map<ValueId, Range>, v: ValueId, first: nat, last: nat)
    requires |Code()| == 13 && Mentioned() && RangesOf(Code(), 13, ranges)
    requires first <= last < 13 && v in Mentions(first) && v in Mentions(last)
    requires forall i: nat | i < 13 && v in Mentions(i) :: first <= i <= last
    ensures v in ranges && ranges[v] == Range(first, last)
  {
    hide Code, Touched, Mentions;
    assert v in Touched(Code()[first]) && v in Touched(Code()[last]);
    assert Spans(Code(), 13, v, ranges[v]);
  }

  // ---- every allocation it can make ----

  /** The three registers of an allocation: n's, r's, and the one k shares with the rest. */
  ghost predicate Shared(al: Allocation, a: Reg, b: Reg, c: Reg)
  {
    al.registers == map[0 := a, 1 := c, 2 := b, 3 := c, 4 := c, 5 := c] && al.slots == map[] &&
    a in POOL && b in POOL && c in POOL && a != b && a != c && b != c
  }

  ghost function Edges(): Graph
  {
    map[0 := {1, 2, 3, 4, 5}, 1 := {0, 2}, 2 := {0, 1, 3, 4, 5}, 3 := {0, 2}, 4 := {0, 2}, 5 := {0, 2}]
  }

  lemma OnlyTheseEdges(g: Graph)
    requires GraphOf(Ranges(), g)
    ensures g == Edges()
  {
    EdgesAreRight();
    hide Ranges, Edges, Interferes;
    assert GraphOf(Ranges(), Edges());
    forall v | v in g
      ensures g[v] == Edges()[v]
    {
      assert forall w :: w in g[v] <==> w in Edges()[v];
    }
  }

  lemma EdgesAreRight()
    ensures GraphOf(Ranges(), Edges())
  {
  }

  /** Everything but n and r has only these two as neighbours, so it can always be simplified. */
  lemma EasyGraph()
    ensures Degenerate(Edges(), {})
  {
    var g := Edges();
    forall keys: set<ValueId> | keys <= g.Keys - {} && keys != {}
      ensures exists v :: v in keys && v in g && |g[v] * keys| < |POOL|
    {
      if v :| v in keys && v != 0 && v != 2 {
        AtMost(g[v] * keys, {0, 2});
        assert |g[v] * keys| < |POOL|;
      } else {
        var v :| v in keys;
        AtMost(g[v] * keys, {0, 2});
        assert |g[v] * keys| < |POOL|;
      }
    }
  }

  lemma AtMost(s: set<ValueId>, t: set<ValueId>)
    requires s <= t
    ensures |s| <= |t|
  {
    assert t == s + (t - s);
  }

  lemma NoSpills(al: Allocation)
    requires Allots(Edges(), [], [], al)
    ensures al.slots == map[] && al.registers.Keys == {0, 1, 2, 3, 4, 5}
  {
    hide Degenerate, ProperlyColoured, Greedy, Contiguous, SlotsOk;
    EasyGraph();
    NothingForced();
    assert al.slots.Keys == {};
  }

  lemma NothingForced()
    ensures Elements<ValueId>([]) + Elements(Flatten([])) == {}
  {
  }

  /** Two values whose neighbours are n and r take the same first free register. */
  lemma SameRegister(al: Allocation, v: ValueId, w: ValueId)
    requires Allots(Edges(), [], [], al) && v in {1, 3, 4, 5} && w in {1, 3, 4, 5}
    ensures v in al.registers && w in al.registers && al.registers[v] == al.registers[w]
  {
    hide Degenerate, Contiguous, SlotsOk;
    NoSpills(al);
    FirstFreeFor(al, v, w);
    FirstFreeFor(al, w, v);
    RankTells(al.registers[v], al.registers[w]);
  }

  lemma FirstFreeFor(al: Allocation, v: ValueId, w: ValueId)
    requires Allots(Edges(), [], [], al) && v in {1, 3, 4, 5} && w in {1, 3, 4, 5}
    requires al.registers.Keys == {0, 1, 2, 3, 4, 5}
    ensures Rank(al.registers[v]) <= Rank(al.registers[w]) && al.registers[v] in POOL && al.registers[w] in POOL
  {
    hide Degenerate, Contiguous, SlotsOk, Greedy, ProperlyColoured, Rank;
    NeitherOf(al.registers, v);
    NeitherOf(al.registers, w);
    LeastFree(Edges(), al.registers, v, al.registers[w]);
  }

  /** The registers of n and r are the ones such a value cannot have. */
  lemma NeitherOf(registers: map<ValueId, Reg>, v: ValueId)
    requires ProperlyColoured(Edges(), registers) && v in {1, 3, 4, 5} && registers.Keys == {0, 1, 2, 3, 4, 5}
    ensures v in Edges() && Edges()[v] == {0, 2} && registers[v] in POOL
    ensures registers[v] !in UsedBy({0, 2}, registers)
  {
  }

  lemma LeastFree(g: Graph, registers: map<ValueId, Reg>, v: ValueId, r: Reg)
    requires Greedy(g, registers) && v in registers && v in g && r in POOL && r !in UsedBy(g[v], registers)
    ensures Rank(registers[v]) <= Rank(r)
  {
  }

  lemma RankTells(r: Reg, s: Reg)
    requires r in POOL && s in POOL && Rank(r) == Rank(s)
    ensures r == s
  {
  }

  /** So k, whose last mention is in the loop, shares its register with n - 1. */
  lemma EveryAllocationShares(al: Allocation) returns (a: Reg, b: Reg, c: Reg)
    requires Allots(Edges(), [], [], al)
    ensures Shared(al, a, b, c)
  {
    hide Degenerate, Contiguous, SlotsOk, Greedy;
    NoSpills(al);
    SameRegister(al, 1, 3);
    SameRegister(al, 1, 4);
    SameRegister(al, 1, 5);
    a, b, c := al.registers[0], al.registers[2], al.registers[1];
    Coloured(al);
    assert al.registers == map[0 := a, 1 := c, 2 := b, 3 := c, 4 := c, 5 := c];
  }

  lemma Coloured(al: Allocation)
    requires Allots(Edges(), [], [], al) && al.registers.Keys == {0, 1, 2, 3, 4, 5}
    ensures var r := al.registers;
            r[0] in POOL && r[1] in POOL && r[2] in POOL && r[0] != r[1] && r[0] != r[2] && r[1] != r[2]
  {
    hide Degenerate, Contiguous, SlotsOk, Greedy;
    var g := Edges();
    assert 1 in g[0] && 2 in g[0] && 2 in g[1];
  }

  // ---- the machine ----

  ghost predicate SharedCode(al: Allocation, a: Reg, b: Reg, c: Reg)
  {
    Shared(al, a, b, c) && |Code()| == 13 && forall i | 0 <= i < 13 :: Supported(al, Code()[i])
  }

  lemma EverythingSupported(al: Allocation, a: Reg, b: Reg, c: Reg)
    requires Shared(al, a, b, c)
    ensures SharedCode(al, a, b, c)
  {
    hide Code;
    CodeFacts();
  }

  /** The block of each instruction. */
  ghost function BlockAt(a: Reg, b: Reg, c: Reg, i: nat): Block
  {
    match i
    case 1 => Block(None, [MovImm(7, c)], Fall)
    case 2 => Block(None, [MovImm(0, b)], Fall)
    case 3 => Block(Some(Start()), [], Fall)
    case 4 => Block(None, [Test(a)], GotoIfZero(Finish()))
    case 5 => Block(None, [OpReg(Add, c, c)], Fall)
    case 6 => Block(None, [MovReg(c, b)], Fall)
    case 7 => Block(None, [MovImm(1, c)], Fall)
    case 8 => Block(None, [Push(c), MovReg(a, c), OpTop(Sub, c), Drop], Fall)
    case 9 => Block(None, [MovReg(c, a)], Fall)
    case 10 => Block(None, [], Goto(Start()))
    case 11 => Block(Some(Finish()), [], Fall)
    case 12 => Block(None, if b != Eax then [MovReg(b, Eax)] else [], Ret)
    case _ => Block(None, [], Fall)
  }

  lemma Emitted(al: Allocation, a: Reg, b: Reg, c: Reg, i: nat)
    requires SharedCode(al, a, b, c) && i < 13
    ensures EmitInst(al, Code()[i]) == BlockAt(a, b, c, i)
  {
    hide Code, EmitInst, BlockAt;
    CodeFacts();
    if i in {0, 3, 4, 10, 11, 12} {
      EmittedControl(al, a, b, c, i);
    } else if i in {5, 8} {
      EmittedBinary(al, a, b, c);
    } else {
      EmittedMoves(al, a, b, c, i);
    }
  }

  lemma EmittedControl(al: Allocation, a: Reg, b: Reg, c: Reg, i: nat)
    requires SharedCode(al, a, b, c) && i in {0, 3, 4, 10, 11, 12}
    ensures EmitInst(al, Code()[i]) == BlockAt(a, b, c, i)
  {
    hide Code, EmitBinary, StoreIfSpilled, WriteTarget;
    CodeFacts();
  }

  lemma EmittedMoves(al: Allocation, a: Reg, b: Reg, c: Reg, i: nat)
    requires SharedCode(al, a, b, c) && i in {1, 2, 6, 7, 9}
    ensures EmitInst(al, Code()[i]) == BlockAt(a, b, c, i)
  {
    hide Code, EmitBinary;
    CodeFacts();
  }

  lemma EmittedBinary(al: Allocation, a: Reg, b: Reg, c: Reg)
    requires SharedCode(al, a, b, c)
    ensures EmitInst(al, Code()[5]) == BlockAt(a, b, c, 5) && EmitInst(al, Code()[8]) == BlockAt(a, b, c, 8)
  {
    hide Code, EmitBinary;
    CodeFacts();
    EmittedAdd(al, a, b, c);
    EmittedSub(al, a, b, c);
  }

  lemma EmittedAdd(al: Allocation, a: Reg, b: Reg, c: Reg)
    requires Shared(al, a, b, c)
    ensures EmitBinary(al, Add, 3, 1, 1) == [OpReg(Add, c, c)]
  {
  }

  lemma EmittedSub(al: Allocation, a: Reg, b: Reg, c: Reg)
    requires Shared(al, a, b, c)
    ensures EmitBinary(al, Sub, 5, 0, 4) == [Push(c), MovReg(a, c), OpTop(Sub, c), Drop]
  {
  }

  ghost function Blocks(al: Allocation, a: Reg, b: Reg, c: Reg): seq<Block>
    requires SharedCode(al, a, b, c)
  {
    EmitAll(al, Code())
  }

  lemma BlockFacts(al: Allocation, a: Reg, b: Reg, c: Reg)
    requires SharedCode(al, a, b, c)
    ensures var blocks := Blocks(al, a, b, c);
            |blocks| == 13 && (forall i: nat | i < 13 :: blocks[i] == BlockAt(a, b, c, i)) &&
            FindBlock(blocks, Start()) == Some(3) && FindBlock(blocks, Finish()) == Some(11)
  {
    hide Code, EmitInst, BlockAt, FindBlock, Find, Supported, Shared;
    forall i: nat | i < 13
      ensures EmitInst(al, Code()[i]) == BlockAt(a, b, c, i)
    {
      Emitted(al, a, b, c, i);
    }
    Targets();
    EmittedTargets(al, Code(), Start());
    EmittedTargets(al, Code(), Finish());
  }

  ghost predicate BlocksOf(blocks: seq<Block>, a: Reg, b: Reg, c: Reg)
  {
    |blocks| == 13 && (forall i: nat | i < 13 :: blocks[i] == BlockAt(a, b, c, i)) &&
    FindBlock(blocks, Start()) == Some(3) && FindBlock(blocks, Finish()) == Some(11) && a != b && a != c && b != c
  }

  lemma MStepOn(blocks: seq<Block>, pc: nat, m: Machine, pc': nat, m': Machine, n: nat)
    requires MStep(blocks, [], pc, m) == Running(pc', m')
    ensures MRun(blocks, [], pc, m, n + 1) == MRun(blocks, [], pc', m', n)
  {
    hide MStep;
  }

  /** A block that falls through. */
  lemma FallOn(blocks: seq<Block>, pc: nat, m: Machine, body: seq<MInst>, n: nat)
    requires pc < |blocks| && blocks[pc].body == body && blocks[pc].exit == Fall
    ensures MRun(blocks, [], pc, m, n + 1) == MRun(blocks, [], pc + 1, DoAll(m, body, []), n)
  {
    hide DoAll, MRun;
    MStepOn(blocks, pc, m, pc + 1, DoAll(m, body, []), n);
  }

  /** What one-instruction blocks do to the registers. */
  lemma OneEffect(m: Machine, i: MInst)
    ensures DoAll(m, [i], []) == Do(m, i, []) && DoAll(m, [], []) == m
  {
    DoOne(m, i, []);
  }

  /** Once round the loop: r becomes twice what k's register holds, and that register and n
      become n - 1. */
  lemma MachineRound(blocks: seq<Block>, a: Reg, b: Reg, c: Reg, m: Machine, x: I32, k: I32, n: nat) returns (m': Machine)
    requires BlocksOf(blocks, a, b, c) && 0 < x < 10 && 0 <= k < 10 && GetReg(m, a) == x && GetReg(m, c) == k
    ensures MRun(blocks, [], 3, m, n + 8) == MRun(blocks, [], 3, m', n)
    ensures GetReg(m', a) == x - 1 && GetReg(m', b) == 2 * k && GetReg(m', c) == x - 1
  {
    hide MRun, BlocksOf;
    var m4 := Adds(blocks, a, b, c, m, x, k, n + 3);
    m' := CountsDown(blocks, a, b, c, m4, x, n);
  }

  lemma Adds(blocks: seq<Block>, a: Reg, b: Reg, c: Reg, m: Machine, x: I32, k: I32, n: nat) returns (m4: Machine)
    requires BlocksOf(blocks, a, b, c) && 0 < x < 10 && 0 <= k < 10 && GetReg(m, a) == x && GetReg(m, c) == k
    ensures MRun(blocks, [], 3, m, n + 5) == MRun(blocks, [], 8, m4, n)
    ensures GetReg(m4, a) == x && GetReg(m4, b) == 2 * k && GetReg(m4, c) == 1
  {
    hide MRun, FindBlock, DoAll, Do;
    var m1 := Do(m, Test(a), []);
    OneEffect(m, Test(a));
    Tested(m, a);
    FallOn(blocks, 3, m, [], n + 4);
    MStepOn(blocks, 4, m, 5, m1, n + 3);
    var m2 := Do(m1, OpReg(Add, c, c), []);
    OneEffect(m1, OpReg(Add, c, c));
    FallOn(blocks, 5, m1, [OpReg(Add, c, c)], n + 2);
    var m3 := Do(m2, MovReg(c, b), []);
    OneEffect(m2, MovReg(c, b));
    FallOn(blocks, 6, m2, [MovReg(c, b)], n + 1);
    m4 := Do(m3, MovImm(1, c), []);
    OneEffect(m3, MovImm(1, c));
    FallOn(blocks, 7, m3, [MovImm(1, c)], n);
    Doubled(m1, b, c, k);
  }

  lemma CountsDown(blocks: seq<Block>, a: Reg, b: Reg, c: Reg, m4: Machine, x: I32, n: nat) returns (m': Machine)
    requires BlocksOf(blocks, a, b, c) && 0 < x < 10 && GetReg(m4, a) == x && GetReg(m4, c) == 1
    ensures MRun(blocks, [], 8, m4, n + 3) == MRun(blocks, [], 3, m', n)
    ensures GetReg(m', a) == x - 1 && GetReg(m', b) == GetReg(m4, b) && GetReg(m', c) == x - 1
  {
    hide MRun, FindBlock, DoAll, Do;
    var m5 := DoAll(m4, [Push(c), MovReg(a, c), OpTop(Sub, c), Drop], []);
    StagedEffect(m4, Sub, a, c, []);
    FallOn(blocks, 8, m4, [Push(c), MovReg(a, c), OpTop(Sub, c), Drop], n + 2);
    m' := Do(m5, MovReg(c, a), []);
    OneEffect(m5, MovReg(c, a));
    FallOn(blocks, 9, m5, [MovReg(c, a)], n + 1);
    Copied(m5, c, a);
    OneEffect(m', Drop);
    MStepOn(blocks, 10, m', 3, m', n);
    assert Apply(Sub, x, 1) == Some(x - 1);
  }

  lemma Tested(m: Machine, a: Reg)
    ensures var m1 := Do(m, Test(a), []);
            m1.flags == (GetReg(m, a), 0) && forall r :: GetReg(m1, r) == GetReg(m, r)
  {
  }

  lemma Copied(m: Machine, c: Reg, a: Reg)
    ensures var m1 := Do(m, MovReg(c, a), []);
            GetReg(m1, a) == GetReg(m, c) && forall r | r != a :: GetReg(m1, r) == GetReg(m, r)
  {
  }

  lemma Doubled(m: Machine, b: Reg, c: Reg, k: I32)
    requires b != c && 0 <= k < 10 && GetReg(m, c) == k
    ensures var m4 := Do(Do(Do(m, OpReg(Add, c, c), []), MovReg(c, b), []), MovImm(1, c), []);
            GetReg(m4, b) == 2 * k && GetReg(m4, c) == 1 && forall r | r != b && r != c :: GetReg(m4, r) == GetReg(m, r)
  {
  }

  /** With n down to zero the loop is left and r returned. */
  lemma MachineLeaves(blocks: seq<Block>, a: Reg, b: Reg, c: Reg, m: Machine)
    requires BlocksOf(blocks, a, b, c) && GetReg(m, a) == 0
    ensures MRun(blocks, [], 3, m, 4) == Result(GetReg(m, b))
  {
    hide MRun, FindBlock, DoAll, Do;
    var m1 := Do(m, Test(a), []);
    OneEffect(m, Test(a));
    Tested(m, a);
    FallOn(blocks, 3, m, [], 3);
    MStepOn(blocks, 4, m, 11, m1, 2);
    OneEffect(m1, Drop);
    FallOn(blocks, 11, m1, [], 1);
    OneEffect(m1, MovReg(b, Eax));
    Copied(m1, b, Eax);
    OneStepM(blocks, [], 12, m1);
  }

  /** The machine returns 2 where 14 is meant. */
  lemma MachineReturns2(blocks: seq<Block>, a: Reg, b: Reg, c: Reg, m: Machine)
    requires BlocksOf(blocks, a, b, c) && GetReg(m, a) == 2
    ensures MRun(blocks, [], 0, m, 23) == Result(2)
  {
    hide MRun, FindBlock, DoAll, Do, BlocksOf;
    var m2 := MachineStarts(blocks, a, b, c, m, 20);
    var m3 := MachineRound(blocks, a, b, c, m2, 2, 7, 12);
    var m4 := MachineRound(blocks, a, b, c, m3, 1, 1, 4);
    MachineLeaves(blocks, a, b, c, m4);
  }

  lemma MachineStarts(blocks: seq<Block>, a: Reg, b: Reg, c: Reg, m: Machine, n: nat) returns (m2: Machine)
    requires BlocksOf(blocks, a, b, c) && GetReg(m, a) == 2
    ensures MRun(blocks, [], 0, m, n + 3) == MRun(blocks, [], 3, m2, n) && GetReg(m2, a) == 2 && GetReg(m2, c) == 7
  {
    hide MRun, FindBlock, DoAll;
    var m1 := Do(m, MovImm(7, c), []);
    m2 := Do(m1, MovImm(0, b), []);
    OneEffect(m, MovImm(7, c));
    OneEffect(m1, MovImm(0, b));
    FallOn(blocks, 0, m, [], n + 2);
    FallOn(blocks, 1, m, [MovImm(7, c)], n + 1);
    FallOn(blocks, 2, m1, [MovImm(0, b)], n);
  }

  // ---- the compiler on this function ----

  lemma EntryPrologue(al: Allocation, a: Reg, b: Reg, c: Reg, m: Machine)
    requires SharedCode(al, a, b, c) && Entry(m, [2]) && ParamsFirst(Code(), 1)
    ensures GetReg(DoAll(m, Prologue(al, Code(), 1), []), a) == 2
  {
    hide Code, Supported, DoAll;
    PrologueIs(al, a, b, c);
    PushThenPop(m, a);
    assert ABI[0] == Edi && GetReg(m, ABI[0]) == 2;
  }

  lemma PrologueIs(al: Allocation, a: Reg, b: Reg, c: Reg)
    requires SharedCode(al, a, b, c) && ParamsFirst(Code(), 1)
    ensures Prologue(al, Code(), 1) == [Push(Edi)] + [Pop(a)]
  {
    hide Code, Supported;
    CodeFacts();
    assert Dests(Code(), 1) == [0] && [0][1..] == [];
    assert PushArgs(1) == [Push(Edi)] + PushArgs(0) == [Push(Edi)];
    assert PopArgs(al, [0]) == [Pop(a)] + PopArgs(al, []) == [Pop(a)];
  }

  lemma PushThenPop(m: Machine, a: Reg)
    ensures GetReg(DoAll(m, [Push(Edi)] + [Pop(a)], []), a) == GetReg(m, Edi)
  {
    hide DoAll;
    DoAllAppend(m, [Push(Edi)], [Pop(a)], []);
    DoOne(m, Push(Edi), []);
    DoOne(Do(m, Push(Edi), []), Pop(a), []);
  }

  /** Whatever ranges, graph and allocation the passes come to. */
  lemma EveryCompilationReturns2(ranges: map<ValueId, Range>, g: Graph, al: Allocation, program: Program)
    requires CompiledBy(Doubling(), ranges, g, al, program)
    ensures ProgramReturns(program, [2], 2)
  {
    hide Doubling, Lower, Code, Allots, Supported, Entry, MRun, DoAll, Prologue, EmitAll, RangesOf, GraphOf, Ranges, Edges,
         FindBlock, BlocksOf, SharedCode, BlockAt, ParamsFirst;
    LoweredCode();
    OneParameter();
    OnlyTheseRanges(ranges);
    OnlyTheseEdges(g);
    var a, b, c := EveryAllocationShares(al);
    EverythingSupported(al, a, b, c);
    TheseBlocks(al, a, b, c);
    forall m: Machine | Entry(m, [2])
      ensures Reaches(program, [2], m, 2)
    {
      EntryPrologue(al, a, b, c, m);
      assert StackArgs([2]) == [];
      MachineReturns2(program.blocks, a, b, c, DoAll(m, program.prologue, []));
    }
  }

  lemma TheseBlocks(al: Allocation, a: Reg, b: Reg, c: Reg)
    requires SharedCode(al, a, b, c)
    ensures BlocksOf(EmitAll(al, Code()), a, b, c)
  {
    hide Code, BlockAt, FindBlock, EmitAll, Supported;
    BlockFacts(al, a, b, c);
  }

  /** Everything else the correctness theorem asks of a function holds of this one: only k's
      home is written, by n - 1, between k's last mention and the end of the loop. */
  lemma OnlyKeepingMissing(al: Allocation)
    requires Allots(Edges(), [], [], al)
    ensures Traceable(Doubling()) && Lower(Doubling()) == Some(Code()) && DivisionFree(Code())
    ensures !Kept(Code(), Ranges(), al)
  {
    hide Doubling, TracedFrom, Lower, Code, Allots, Stretched, Ranges, Edges;
    DoublingIsTraceable();
    LoweredCode();
    NoDivision();
    LoopOpen();
    var a, b, c := EveryAllocationShares(al);
    CodeFacts();
    assert Writes(Code()[7], 4) && Home(al, 4) == Home(al, 1);
  }

  lemma NoDivision()
    ensures DivisionFree(Code())
  {
  }

  /** Stretched over the loop, k's range reaches the back jump. */
  lemma LoopOpen()
    ensures 1 in Stretched(Code(), Ranges()) && Stretched(Code(), Ranges())[1].start == 1
    ensures Stretched(Code(), Ranges())[1].end >= 10
  {
    hide Code, Find;
    CodeFacts();
    Targets();
    assert JumpsTo(Code(), 10, 3);
    var s := Stretch(Code(), Ranges()[1]);
    assert !Pulls(Code(), s, 10);
  }

  /** The compiler, run on this function, makes a program that returns 2 for n = 2, where the
      function returns 14. */
  method MiscompiledLoop() returns (program: Program)
    ensures Compiled(Doubling(), program)
    ensures SourceReturns(Doubling(), [2], 14) && ProgramReturns(program, [2], 2)
    ensures !LoopsKept(Code())
  {
    hide Doubling, Code, Lower, SourceReturns, CompiledBy, ProgramReturns, DivisionFree, InScope, CompiledRight,
         ScopedFunction, UndividedBlock;
    LoweredCode();
    NoDivision();
    LowersExactly(Doubling());
    DividesExactly(Doubling());
    var r := Compile(Doubling());
    program := r.value;
    SourceReturns14();
    ghost var ranges, g, al :| CompiledBy(Doubling(), ranges, g, al, program);
    EveryCompilationReturns2(ranges, g, al, program);
    NotKept(ranges, g, al, program);
  }

  lemma NotKept(ranges: map<ValueId, Range>, g: Graph, al: Allocation, program: Program)
    requires CompiledBy(Doubling(), ranges, g, al, program)
    ensures !LoopsKept(Code())
  {
    hide Doubling, Lower, Code, RangesOf, GraphOf, Allots, Ranges, Edges, Supported, ParamsFirst, Kept;
    LoweredCode();
    OnlyTheseRanges(ranges);
    OnlyTheseEdges(g);
    OnlyKeepingMissing(al);
  }
}
