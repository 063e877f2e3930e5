/** The compiler's middle end put together: lowering, live ranges, interference, colouring
    and emission, and what they guarantee about the machine program. */
module Compiler {
  import opened IR
  import opened Lowering
  import opened LoweringProof
  import opened RegAlloc
  import opened Codegen
  import opened CodegenProof
  import opened Stretching
  import opened Scoping

  // ---- values are defined before use ----

  ghost predicate Defined(code: seq<Inst>, v: ValueId)
  {
    exists j :: 0 <= j < |code| && Writes(code[j], v)
  }

  ghost predicate UsesDefined(code: seq<Inst>)
  {
    forall i, v | 0 <= i < |code| && Reads(code[i], v) :: Defined(code[..i], v)
  }

  ghost predicate VarsDefined(st: State)
  {
    forall x | x in st.variables :: Defined(st.code, st.variables[x])
  }

  lemma DefinedStays(code: seq<Inst>, more: seq<Inst>, v: ValueId)
    requires Defined(code, v) && code <= more
    ensures Defined(more, v)
  {
    var j :| 0 <= j < |code| && Writes(code[j], v);
    assert more[j] == code[j];
  }

  lemma AppendDefined(code: seq<Inst>, inst: Inst)
    requires UsesDefined(code) && forall v | Reads(inst, v) :: Defined(code, v)
    ensures UsesDefined(code + [inst])
    ensures forall v | Writes(inst, v) :: Defined(code + [inst], v)
  {
    var more := code + [inst];
    forall i, v | 0 <= i < |more| && Reads(more[i], v)
      ensures Defined(more[..i], v)
    {
      if i < |code| {
        assert more[..i] == code[..i];
      } else {
        assert more[..i] == code;
      }
    }
    forall v | Writes(inst, v)
      ensures Defined(more, v)
    {
      assert Writes(more[|code|], v);
    }
  }

  lemma VarsStayDefined(st: State, t: State)
    requires VarsDefined(st) && st.code <= t.code && t.variables == st.variables
    ensures VarsDefined(t)
  {
    forall x | x in t.variables
      ensures Defined(t.code, t.variables[x])
    {
      DefinedStays(st.code, t.code, st.variables[x]);
    }
  }

  lemma {:induction false} ExprDefined(e: Expr, st: State)
    requires UsesDefined(st.code) && VarsDefined(st) && LowerExpr(e, st).Some?
    ensures var (t, r) := LowerExpr(e, st).value;
            UsesDefined(t.code) && Defined(t.code, r) && st.code <= t.code && t.variables == st.variables && VarsDefined(t)
  {
    hide UsesDefined, Defined, VarsDefined;
    match e
    case Integer(v) =>
      AppendDefined(st.code, Const(st.nextValue, v));
      VarsStayDefined(st, LowerExpr(e, st).value.0);
    case Variable(x) =>
      VariableDefined(st, x);
    case Negate(a) =>
      ExprDefined(a, st);
      var (s1, operand) := LowerExpr(a, st).value;
      var zero := s1.nextValue;
      AppendDefined(s1.code, Const(zero, 0));
      var c1 := s1.code + [Const(zero, 0)];
      DefinedStays(s1.code, c1, operand);
      AppendDefined(c1, Binary(Sub, zero + 1, zero, operand));
      VarsStayDefined(s1, LowerExpr(e, st).value.0);
    case BinaryExpr(op, a, b) =>
      ExprDefined(a, st);
      var (s1, left) := LowerExpr(a, st).value;
      ExprDefined(b, s1);
      var (s2, right) := LowerExpr(b, s1).value;
      DefinedStays(s1.code, s2.code, left);
      AppendDefined(s2.code, Binary(op, s2.nextValue, left, right));
      VarsStayDefined(s2, LowerExpr(e, st).value.0);
  }

  lemma VariableDefined(st: State, x: string)
    requires VarsDefined(st) && x in st.variables
    ensures Defined(st.code, st.variables[x])
  {
  }

  ghost predicate AllDefined(st: State)
  {
    UsesDefined(st.code) && VarsDefined(st)
  }

  lemma EmitDefined(st: State, inst: Inst)
    requires AllDefined(st) && forall v | Reads(inst, v) :: Defined(st.code, v)
    ensures AllDefined(Emit(st, inst))
  {
    AppendDefined(st.code, inst);
    VarsStayDefined(st, Emit(st, inst));
  }

  lemma LabelsDefined(st: State, t: State)
    requires AllDefined(st) && t == st.(nextLabel := t.nextLabel)
    ensures AllDefined(t)
  {
  }

  lemma LetDefined(st: State, x: string, v: ValueId)
    requires AllDefined(st) && Defined(st.code, v)
    ensures AllDefined(st.(variables := st.variables[x := v]))
  {
  }

  lemma ExprAllDefined(e: Expr, st: State)
    requires AllDefined(st) && LowerExpr(e, st).Some?
    ensures var (t, r) := LowerExpr(e, st).value; AllDefined(t) && Defined(t.code, r)
  {
    ExprDefined(e, st);
  }

  lemma {:induction false} StmtDefined(s: Stmt, st: State)
    requires AllDefined(st) && LowerStmt(s, st).Some?
    ensures AllDefined(LowerStmt(s, st).value)
    decreases s, 1
  {
    hide AllDefined, Defined, LowerExpr, LowerBlock;
    match s
    case Let(x, e) =>
      ExprAllDefined(e, st);
      var (s1, v) := LowerExpr(e, st).value;
      LetDefined(s1, x, v);
    case Assign(x, e) =>
      ExprAllDefined(e, st);
      var (s1, v) := LowerExpr(e, st).value;
      EmitDefined(s1, Move(st.variables[x], v));
    case ReturnStmt(e) =>
      ExprAllDefined(e, st);
      var (s1, v) := LowerExpr(e, st).value;
      EmitDefined(s1, Return(v));
    case While(c, body) =>
      var start, end := Label(Loop, st.nextLabel), Label(LoopEnd, st.nextLabel + 1);
      var s0 := st.(nextLabel := st.nextLabel + 2);
      LabelsDefined(st, s0);
      EmitDefined(s0, Mark(start));
      var s1 := Emit(s0, Mark(start));
      ExprAllDefined(c, s1);
      var (s2, v) := LowerExpr(c, s1).value;
      EmitDefined(s2, JumpIfZero(v, end));
      BlockDefined(body, Emit(s2, JumpIfZero(v, end)));
      var s3 := LowerBlock(body, Emit(s2, JumpIfZero(v, end))).value;
      EmitDefined(s3, Jump(start));
      EmitDefined(Emit(s3, Jump(start)), Mark(end));
    case If(c, a, b) =>
      ExprAllDefined(c, st);
      var (s1, v) := LowerExpr(c, st).value;
      var els, end := Label(Else, s1.nextLabel), Label(End, s1.nextLabel + 1);
      var s0 := s1.(nextLabel := s1.nextLabel + 2);
      LabelsDefined(s1, s0);
      var jump := JumpIfZero(v, if b == [] then end else els);
      EmitDefined(s0, jump);
      BlockDefined(a, Emit(s0, jump));
      var s3 := LowerBlock(a, Emit(s0, jump)).value;
      if b == [] {
        EmitDefined(s3, Mark(end));
      } else {
        EmitDefined(s3, Jump(end));
        EmitDefined(Emit(s3, Jump(end)), Mark(els));
        var s5 := Emit(Emit(s3, Jump(end)), Mark(els));
        BlockDefined(b, s5);
        EmitDefined(LowerBlock(b, s5).value, Mark(end));
      }
  }

  lemma {:induction false} BlockDefined(body: seq<Stmt>, st: State)
    requires AllDefined(st) && LowerBlock(body, st).Some?
    ensures AllDefined(LowerBlock(body, st).value)
    decreases body, 0
  {
    hide AllDefined, LowerStmt;
    if body != [] {
      StmtDefined(body[0], st);
      BlockDefined(body[1..], LowerStmt(body[0], st).value);
    }
  }

  lemma {:induction false} ParamsDefined(params: seq<string>)
    ensures AllDefined(LowerParams(params))
  {
    if params != [] {
      var k := |params| - 1;
      ParamsDefined(params[..k]);
      var st := LowerParams(params[..k]);
      hide AllDefined, LowerParams;
      var inst := Param(st.nextValue, k);
      EmitDefined(st, inst);
      assert Defined(Emit(st, inst).code, st.nextValue) by {
        assert Writes(Emit(st, inst).code[|st.code|], st.nextValue);
      }
      LetDefined(Emit(st, inst), params[k], st.nextValue);
      CountersDefined(Emit(st, inst).(variables := st.variables[params[k] := st.nextValue]), st.nextValue + 1);
    }
  }

  lemma CountersDefined(st: State, next: nat)
    requires AllDefined(st)
    ensures AllDefined(st.(nextValue := next))
  {
  }

  lemma FirstMentionDefines(code: seq<Inst>, ranges: map<ValueId, Range>)
    requires UsesDefined(code) && RangesOf(code, |code|, ranges)
    ensures DefinedFirst(code, ranges)
  {
    hide UsesDefined, RangesOf, Writes, Reads;
    forall v | v in ranges
      ensures ranges[v].start < |code| && Writes(code[ranges[v].start], v) && !Reads(code[ranges[v].start], v)
    {
      FirstMention(code, ranges, v);
    }
  }

  lemma MentionedHow(inst: Inst, v: ValueId)
    ensures v in Touched(inst) <==> Writes(inst, v) || Reads(inst, v)
  {
  }

  lemma FirstMention(code: seq<Inst>, ranges: map<ValueId, Range>, v: ValueId)
    requires UsesDefined(code) && RangesOf(code, |code|, ranges) && v in ranges
    ensures ranges[v].start < |code| && Writes(code[ranges[v].start], v) && !Reads(code[ranges[v].start], v)
  {
    assert Spans(code, |code|, v, ranges[v]);
    var i := ranges[v].start;
    hide RangesOf, Touched, Writes, Reads;
    MentionedHow(code[i], v);
    ReadEarlier(code, i, v);
  }

  lemma ReadEarlier(code: seq<Inst>, i: nat, v: ValueId)
    requires UsesDefined(code) && i < |code|
    ensures Reads(code[i], v) ==> exists j :: 0 <= j < i && v in Touched(code[j])
  {
    hide Touched, Writes, Reads;
    if Reads(code[i], v) {
      var j :| 0 <= j < i && Writes(code[..i][j], v);
      MentionedHow(code[j], v);
    }
  }

  // ---- parameters come first ----

  ghost predicate NoParamsFrom(code: seq<Inst>, k: nat)
  {
    forall i | k <= i < |code| :: !code[i].Param?
  }

  lemma {:induction false} ExprNoParams(e: Expr, st: State, k: nat)
    requires LowerExpr(e, st).Some? && k <= |st.code| && NoParamsFrom(st.code, k)
    ensures var t := LowerExpr(e, st).value.0; st.code <= t.code && NoParamsFrom(t.code, k)
  {
    match e
    case Integer(_) =>
    case Variable(_) =>
    case Negate(a) =>
      ExprNoParams(a, st, k);
    case BinaryExpr(_, a, b) =>
      ExprNoParams(a, st, k);
      ExprNoParams(b, LowerExpr(a, st).value.0, k);
  }

  lemma EmitNoParams(st: State, inst: Inst, k: nat)
    requires NoParamsFrom(st.code, k) && !inst.Param? && k <= |st.code|
    ensures st.code <= Emit(st, inst).code && NoParamsFrom(Emit(st, inst).code, k)
  {
  }

  lemma {:induction false} StmtNoParams(s: Stmt, st: State, k: nat)
    requires LowerStmt(s, st).Some? && k <= |st.code| && NoParamsFrom(st.code, k)
    ensures var t := LowerStmt(s, st).value; st.code <= t.code && NoParamsFrom(t.code, k)
    decreases s, 1
  {
    hide NoParamsFrom, LowerExpr, LowerBlock;
    match s
    case Let(x, e) =>
      ExprNoParams(e, st, k);
    case Assign(x, e) =>
      ExprNoParams(e, st, k);
      var (s1, v) := LowerExpr(e, st).value;
      EmitNoParams(s1, Move(st.variables[x], v), k);
    case ReturnStmt(e) =>
      ExprNoParams(e, st, k);
      var (s1, v) := LowerExpr(e, st).value;
      EmitNoParams(s1, Return(v), k);
    case While(c, body) =>
      var start, end := Label(Loop, st.nextLabel), Label(LoopEnd, st.nextLabel + 1);
      var s0 := st.(nextLabel := st.nextLabel + 2);
      EmitNoParams(s0, Mark(start), k);
      var s1 := Emit(s0, Mark(start));
      ExprNoParams(c, s1, k);
      var (s2, v) := LowerExpr(c, s1).value;
      EmitNoParams(s2, JumpIfZero(v, end), k);
      BlockNoParams(body, Emit(s2, JumpIfZero(v, end)), k);
      var s3 := LowerBlock(body, Emit(s2, JumpIfZero(v, end))).value;
      EmitNoParams(s3, Jump(start), k);
      EmitNoParams(Emit(s3, Jump(start)), Mark(end), k);
    case If(c, a, b) =>
      ExprNoParams(c, st, k);
      var (s1, v) := LowerExpr(c, st).value;
      var els, end := Label(Else, s1.nextLabel), Label(End, s1.nextLabel + 1);
      var s0 := s1.(nextLabel := s1.nextLabel + 2);
      var jump := JumpIfZero(v, if b == [] then end else els);
      EmitNoParams(s0, jump, k);
      BlockNoParams(a, Emit(s0, jump), k);
      var s3 := LowerBlock(a, Emit(s0, jump)).value;
      if b == [] {
        EmitNoParams(s3, Mark(end), k);
      } else {
        EmitNoParams(s3, Jump(end), k);
        EmitNoParams(Emit(s3, Jump(end)), Mark(els), k);
        var s5 := Emit(Emit(s3, Jump(end)), Mark(els));
        BlockNoParams(b, s5, k);
        EmitNoParams(LowerBlock(b, s5).value, Mark(end), k);
      }
  }

  lemma {:induction false} BlockNoParams(body: seq<Stmt>, st: State, k: nat)
    requires LowerBlock(body, st).Some? && k <= |st.code| && NoParamsFrom(st.code, k)
    ensures var t := LowerBlock(body, st).value; st.code <= t.code && NoParamsFrom(t.code, k)
    decreases body, 0
  {
    hide NoParamsFrom, LowerStmt;
    if body != [] {
      StmtNoParams(body[0], st, k);
      BlockNoParams(body[1..], LowerStmt(body[0], st).value, k);
    }
  }

  lemma LoweredParamsFirst(f: Function)
    requires Lower(f).Some?
    ensures ParamsFirst(Lower(f).value, |f.params|)
  {
    ParamCode(f.params);
    var st := LowerParams(f.params);
    BlockNoParams(f.body, st, |f.params|);
    var code := Lower(f).value;
    hide LowerBlock, LowerParams;
    forall i | 0 <= i < |f.params|
      ensures code[i] == Param(i, i)
    {
      assert st.code[i] == code[i];
    }
  }

  // ---- without loops every jump goes forward ----

  predicate LoopFree(body: seq<Stmt>)
  {
    forall i | 0 <= i < |body| ::
      match body[i]
      case While(_, _) => false
      case If(_, a, b) => LoopFree(a) && LoopFree(b)
      case Let(_, _) => true
      case Assign(_, _) => true
      case ReturnStmt(_) => true
  }

  /** A jump precedes the mark it leads to. */
  ghost predicate JumpsAhead(code: seq<Inst>)
  {
    forall i, j | 0 <= i < |code| && 0 <= j < |code| && IsJump(code[i]) && code[j] == Mark(code[i].name) :: i < j
  }

  lemma AppendAhead(st: State, inst: Inst)
    requires JumpsAhead(st.code)
    requires IsJump(inst) ==> Unplaced(st, inst.name.number)
    ensures JumpsAhead(Emit(st, inst).code)
  {
  }

  lemma {:induction false} ExprAhead(e: Expr, st: State)
    requires JumpsAhead(st.code) && LowerExpr(e, st).Some?
    ensures JumpsAhead(LowerExpr(e, st).value.0.code)
  {
    match e
    case Integer(v) =>
      AppendAhead(st, Const(st.nextValue, v));
    case Variable(_) =>
    case Negate(a) =>
      ExprAhead(a, st);
      var (s1, r) := LowerExpr(a, st).value;
      var zero := Const(s1.nextValue, 0);
      AppendAhead(s1, zero);
      AppendAhead(Emit(s1, zero), Binary(Sub, s1.nextValue + 1, s1.nextValue, r));
    case BinaryExpr(op, a, b) =>
      ExprAhead(a, st);
      var (s1, l) := LowerExpr(a, st).value;
      ExprAhead(b, s1);
      var (s2, r) := LowerExpr(b, s1).value;
      AppendAhead(s2, Binary(op, s2.nextValue, l, r));
  }

  lemma {:induction false} StmtAhead(s: Stmt, st: State)
    requires Good(st) && JumpsAhead(st.code) && LowerStmt(s, st).Some? && LoopFree([s])
    ensures JumpsAhead(LowerStmt(s, st).value.code)
    decreases s, 1
  {
    hide JumpsAhead, LowerExpr, Good;
    assert LoopFree([s]) ==> match [s][0] case While(_, _) => false case If(_, a, b) => LoopFree(a) && LoopFree(b)
                                          case Let(_, _) => true case Assign(_, _) => true case ReturnStmt(_) => true;
    match s
    case Let(x, e) =>
      ExprAhead(e, st);
    case Assign(x, e) =>
      ExprAhead(e, st);
      var (s1, v) := LowerExpr(e, st).value;
      AppendAhead(s1, Move(st.variables[x], v));
    case ReturnStmt(e) =>
      ExprAhead(e, st);
      var (s1, v) := LowerExpr(e, st).value;
      AppendAhead(s1, Return(v));
    case If(c, a, b) =>
      IfAhead(c, a, b, st);
  }

  lemma {:induction false} IfAhead(c: Expr, a: seq<Stmt>, b: seq<Stmt>, st: State)
    requires Good(st) && JumpsAhead(st.code) && LowerStmt(If(c, a, b), st).Some?
    requires LoopFree(a) && LoopFree(b)
    ensures JumpsAhead(LowerStmt(If(c, a, b), st).value.code)
    decreases If(c, a, b), 0
  {
    hide JumpsAhead, LowerExpr, LowerBlock, Good, Extends, Unplaced, LoopFree;
    ExprExtends(c, st);
    ExprAhead(c, st);
    var (s1, v) := LowerExpr(c, st).value;
    var els, end := Label(Else, s1.nextLabel), Label(End, s1.nextLabel + 1);
    var s0 := s1.(nextLabel := s1.nextLabel + 2);
    TakeTwoLabels(s1, s0);
    var jump := JumpIfZero(v, if b == [] then end else els);
    AppendAhead(s0, jump);
    PlainExtends(s0, jump);
    var s2 := Emit(s0, jump);
    BlockShape(a, s2);
    BlockAhead(a, s2);
    var s3 := LowerBlock(a, s2).value;
    ExtendsFacts(s0, s2, els.number);
    ExtendsFacts(s0, s2, end.number);
    ExtendsFacts(s2, s3, els.number);
    ExtendsFacts(s2, s3, end.number);
    if b == [] {
      AppendAhead(s3, Mark(end));
    } else {
      AppendAhead(s3, Jump(end));
      var s4 := Emit(s3, Jump(end));
      AppendAhead(s4, Mark(els));
      var s5 := Emit(s4, Mark(els));
      ElseGood(s0, s2, s3, els, end, jump);
      BlockAhead(b, s5);
      AppendAhead(LowerBlock(b, s5).value, Mark(end));
    }
  }

  lemma {:induction false} BlockAhead(body: seq<Stmt>, st: State)
    requires Good(st) && JumpsAhead(st.code) && LowerBlock(body, st).Some?
    requires LoopFree(body)
    ensures JumpsAhead(LowerBlock(body, st).value.code)
    decreases body, 0
  {
    hide JumpsAhead, Good, LowerStmt;
    if body != [] {
      StmtShape(body[0], st);
      StmtAhead(body[0], st);
      var s1 := LowerStmt(body[0], st).value;
      ExtendsGood(st, s1);
      BlockAhead(body[1..], s1);
    }
  }

  lemma LoopFreeIsForward(f: Function)
    requires Lower(f).Some? && LoopFree(f.body)
    ensures ForwardOnly(Lower(f).value)
  {
    ParamsShape(f.params);
    var st := LowerParams(f.params);
    forall i | 0 <= i < |st.code|
      ensures !IsJump(st.code[i])
    {
      assert st.code[i] == Param(i, i);
    }
    BlockAhead(f.body, st);
  }

  // ---- source to machine ----

  /** Whatever allocation the allocator makes, it holds every value over the loops it is
      used in. */
  ghost predicate LoopsKept(code: seq<Inst>)
  {
    forall ranges, g, al | RangesOf(code, |code|, ranges) && GraphOf(ranges, g) && Allots(g, [], [], al) ::
      Kept(code, ranges, al)
  }

  /** The functions the whole-compiler theorem is about. */
  ghost predicate InScope(f: Function)
  {
    Traceable(f) && DivisionFree(Lower(f).value) && LoopsKept(Lower(f).value)
  }

  /** A condition on the code alone: past its last mention and up to the end of the loop, a
      value meets only values it interferes with. */
  ghost predicate QuietLoops(code: seq<Inst>)
  {
    forall ranges | RangesOf(code, |code|, ranges) ::
      QuietGaps(code, ranges) && (ForwardOnly(code) || NotEntered(code, Stretched(code, ranges)))
  }

  lemma EveryValueHoused(code: seq<Inst>, ranges: map<ValueId, Range>, g: Graph, al: Allocation)
    requires RangesOf(code, |code|, ranges) && GraphOf(ranges, g) && DivisionFree(code)
    requires g.Keys <= al.registers.Keys + al.slots.Keys
    ensures forall i | 0 <= i < |code| :: Supported(al, code[i])
  {
    forall i | 0 <= i < |code|
      ensures Supported(al, code[i])
    {
      forall v | v in Touched(code[i])
        ensures Housed(al, v)
      {
        assert v in ranges;
        assert v in al.registers.Keys + al.slots.Keys;
      }
    }
  }

  lemma AllotsColours(code: seq<Inst>, ranges: map<ValueId, Range>, g: Graph, al: Allocation)
    requires RangesOf(code, |code|, ranges) && GraphOf(ranges, g) && Allots(g, [], [], al) && DivisionFree(code)
    ensures Colours(code, ranges, g, al)
  {
    hide RangesOf, GraphOf, SlotsOk, ProperlyColoured, DivisionFree, Greedy, Degenerate, Contiguous, Supported;
    EveryValueHoused(code, ranges, g, al);
  }

  lemma QuietLoopsAreKept(code: seq<Inst>)
    requires DivisionFree(code) && QuietLoops(code)
    ensures LoopsKept(code)
  {
    hide RangesOf, GraphOf, Allots, Kept, QuietGaps, NotEntered, ForwardOnly, DivisionFree, Stretched, Colours;
    forall ranges, g, al | RangesOf(code, |code|, ranges) && GraphOf(ranges, g) && Allots(g, [], [], al)
      ensures Kept(code, ranges, al)
    {
      AllotsColours(code, ranges, g, al);
      QuietIsKept(code, ranges, g, al);
    }
  }

  /** In particular functions without loops are in scope. */
  lemma LoopFreeIsInScope(f: Function)
    requires Traceable(f) && DivisionFree(Lower(f).value) && LoopFree(f.body)
    ensures InScope(f)
  {
    hide TracedFrom, Lower, DivisionFree, LoopFree, LoopsKept, RangesOf, QuietGaps, NotEntered, ForwardOnly, Stretched;
    var code := Lower(f).value;
    LoopFreeIsForward(f);
    forall ranges | RangesOf(code, |code|, ranges)
      ensures QuietGaps(code, ranges)
    {
      ClosedIsQuiet(code, ranges);
    }
    QuietLoopsAreKept(code);
  }

  lemma LoweredIsCompilable(f: Function, ranges: map<ValueId, Range>, g: Graph, al: Allocation)
    requires InScope(f) && RangesOf(Lower(f).value, |Lower(f).value|, ranges) && GraphOf(ranges, g)
    requires Allots(g, [], [], al)
    ensures Compilable(Lower(f).value, Stretched(Lower(f).value, ranges), al, |f.params|)
  {
    hide RangesOf, GraphOf, ParamsFirst, DefinedFirst, UsesDefined, DivisionFree, Allots, Kept, Colours,
         Compilable, Stretched;
    var code := Lower(f).value;
    AllotsColours(code, ranges, g, al);
    LoweredParamsFirst(f);
    ParamsDefined(f.params);
    BlockDefined(f.body, LowerParams(f.params));
    FirstMentionDefines(code, ranges);
    KeptIsCompilable(code, ranges, g, al, |f.params|);
  }

  /** The whole middle end is correct: a source function that neither faults nor ends without
      a return returns exactly what its machine program returns. */
  lemma CompilerIsCorrect(f: Function, live: map<ValueId, Range>, al: Allocation, args: seq<I32>, v: I32)
    requires Traceable(f) && Compilable(Lower(f).value, live, al, |f.params|) && |args| == |f.params|
    ensures SourceReturns(f, args, v) ==> ProgramReturns(ProgramOf(al, Lower(f).value, |args|), args, v)
    ensures (!SourceFaults(f, args) && !SourceFallsOff(f, args) &&
             ProgramReturns(ProgramOf(al, Lower(f).value, |args|), args, v)) ==> SourceReturns(f, args, v)
  {
    var code := Lower(f).value;
    LoweringPreservesMeaning(f, args);
    var program := ProgramOf(al, code, |args|);
    hide SourceReturns, SourceFaults, SourceFallsOff, Lower, ProgramReturns, Run, ProgramOf, Compilable, Traceable;
    if SourceReturns(f, args, v) {
      var n: nat :| Run(code, args, 0, map[], n) == Returned(v);
      AllocationPreservesMeaning(code, live, al, args, n, v);
    }
    if !SourceFaults(f, args) && !SourceFallsOff(f, args) && ProgramReturns(program, args, v) {
      var n := MachineResultIsMeant(code, live, al, args, v);
      assert CodeEnds(code, args, Run(code, args, 0, map[], n));
    }
  }

  ghost predicate CompiledRight(f: Function, program: Program)
  {
    forall args, v | |args| == |f.params| ::
      (SourceReturns(f, args, v) ==> ProgramReturns(program, args, v)) &&
      ((!SourceFaults(f, args) && !SourceFallsOff(f, args) && ProgramReturns(program, args, v)) ==>
         SourceReturns(f, args, v))
  }

  /** The program came out of the analyses, the allocator and the emission for this function. */
  ghost predicate CompiledBy(f: Function, ranges: map<ValueId, Range>, g: Graph, al: Allocation, program: Program)
  {
    Lower(f).Some? &&
    var code := Lower(f).value;
    RangesOf(code, |code|, ranges) && GraphOf(ranges, g) && Allots(g, [], [], al) &&
    (forall i | 0 <= i < |code| :: Supported(al, code[i])) && ParamsFirst(code, |f.params|) &&
    program == ProgramOf(al, code, |f.params|)
  }

  ghost predicate Compiled(f: Function, program: Program)
  {
    exists ranges, g, al :: CompiledBy(f, ranges, g, al, program)
  }

  /** Compiles a function.  None if it mentions a name not known there, or divides. */
  method Compile(f: Function) returns (r: Option<Program>)
    ensures r.Some? <==> ScopedFunction(f) && UndividedBlock(f.body)
    ensures r.Some? ==> Lower(f).Some?
    ensures r.Some? && InScope(f) ==> CompiledRight(f, r.value)
    ensures r.Some? ==> Compiled(f, r.value)
  {
    hide ScopedFunction, UndividedBlock, Lower;
    var lowered := LowerFunction(f);
    LowersExactly(f);
    if lowered.None? {
      return None;
    }
    var code := lowered.value;
    DividesExactly(f);
    var supported := CheckDivision(code);
    if !supported {
      return None;
    }
    var ranges := Analyze(code);
    var g := BuildGraph(ranges);
    var al := Allocate(g, [], []);
    EveryValueHoused(code, ranges, g, al);
    LoweredParamsFirst(f);
    var program := Generate(code, al, |f.params|);
    r := Some(program);
    assert CompiledBy(f, ranges, g, al, program);
    if InScope(f) {
      LoweredIsCompilable(f, ranges, g, al);
      AllRight(f, Stretched(code, ranges), al, program);
    }
  }

  method CheckDivision(code: seq<Inst>) returns (ok: bool)
    ensures ok <==> DivisionFree(code)
  {
    var i := 0;
    while i < |code|
      invariant 0 <= i <= |code|
      invariant forall j | 0 <= j < i :: !(code[j].Binary? && code[j].op.Div?)
    {
      if code[i].Binary? && code[i].op.Div? {
        return false;
      }
      i := i + 1;
    }
    ok := true;
  }

  lemma AllRight(f: Function, live: map<ValueId, Range>, al: Allocation, program: Program)
    requires Traceable(f) && Compilable(Lower(f).value, live, al, |f.params|)
    requires program == ProgramOf(al, Lower(f).value, |f.params|)
    ensures CompiledRight(f, program)
  {
    forall args, v | |args| == |f.params|
      ensures (SourceReturns(f, args, v) ==> ProgramReturns(program, args, v)) &&
              ((!SourceFaults(f, args) && !SourceFallsOff(f, args) && ProgramReturns(program, args, v)) ==>
                 SourceReturns(f, args, v))
    {
      CompilerIsCorrect(f, live, al, args, v);
    }
  }
}
