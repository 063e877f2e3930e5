/** Lowering preserves meaning.  The intermediate code of a body returns exactly what the
    body returns, faults exactly when it faults and runs forever exactly when it does. */
module LoweringProof {
  import opened IR
  import opened Lowering

  // ---- where names are ----

  /** Names known to be in a cell, that is, with the value the cell holds, and names known
      to have a value at all. */
  datatype Known = Known(cells: map<string, ValueId>, bound: set<string>)

  /** Every name of the expression is where lowering looks for it. */
  predicate Readable(e: Expr, vars: map<string, ValueId>, cells: map<string, ValueId>)
  {
    match e
    case Integer(_) => true
    case Variable(x) => x in vars && x in cells && cells[x] == vars[x]
    case Negate(a) => Readable(a, vars, cells)
    case BinaryExpr(_, a, b) => Readable(a, vars, cells) && Readable(b, vars, cells)
  }

  /** Cells `lo` to `hi` are overwritten. */
  function Without(cells: map<string, ValueId>, lo: nat, hi: nat): map<string, ValueId>
  {
    map x | x in cells && !(lo <= cells[x] < hi) :: cells[x]
  }

  predicate Within(a: map<string, ValueId>, b: map<string, ValueId>)
  {
    forall x | x in a :: x in b && a[x] == b[x]
  }

  function Common(a: map<string, ValueId>, b: map<string, ValueId>): map<string, ValueId>
  {
    map x | x in a && x in b && a[x] == b[x] :: a[x]
  }

  /** The temporaries between two states of the lowering are overwritten. */
  function After(k: Known, s: State, t: State): Known
  {
    k.(cells := Without(k.cells, s.nextValue, t.nextValue))
  }

  predicate AlwaysReturns(body: seq<Stmt>)
  {
    body != [] &&
    match body[|body| - 1]
    case ReturnStmt(_) => true
    case If(_, a, b) => b != [] && AlwaysReturns(a) && AlwaysReturns(b)
    case Let(_, _) => false
    case Assign(_, _) => false
    case While(_, _) => false
  }

  /** What is known behind a conditional: a branch that returns does not get there. */
  function Merge(a: seq<Stmt>, ka: Known, b: seq<Stmt>, kb: Known): Known
  {
    if AlwaysReturns(a) then kb
    else if AlwaysReturns(b) then ka
    else Known(Common(ka.cells, kb.cells), ka.bound * kb.bound)
  }

  /** Follows the names through a statement.  None if a name is read that is not known to be
      where lowering looks for it, or a `let` renames one not known to have a value. */
  function Follow(s: Stmt, st: State, k: Known): (r: Option<Known>)
    requires LowerStmt(s, st).Some?
    ensures r.Some? ==> k.bound <= r.value.bound
    decreases s, 2
  {
    match s
    case Let(x, e) =>
      if !Readable(e, st.variables, k.cells) || (e.Variable? && e.name !in k.bound) then None
      else
        var (s1, v) := LowerExpr(e, st).value;
        Some(Known(After(k, st, s1).cells[x := v], k.bound + {x}))
    case Assign(x, e) =>
      if !Readable(e, st.variables, k.cells) then None
      else
        var s1, cell := LowerExpr(e, st).value.0, st.variables[x];
        Some(Known(Without(After(k, st, s1).cells, cell, cell + 1)[x := cell], k.bound + {x}))
    case ReturnStmt(e) =>
      if !Readable(e, st.variables, k.cells) then None else Some(k)
    case If(c, a, b) =>
      if !Readable(c, st.variables, k.cells) then None
      else
        var (s1, v) := LowerExpr(c, st).value;
        var els, end := Label(Else, s1.nextLabel), Label(End, s1.nextLabel + 1);
        var s2 := Emit(s1.(nextLabel := s1.nextLabel + 2), JumpIfZero(v, if b == [] then end else els));
        var s3, k1 := LowerBlock(a, s2).value, After(k, st, s1);
        var ka := FollowBlock(a, s2, k1);
        var kb := if b == [] then Some(k1) else FollowBlock(b, Emit(Emit(s3, Jump(end)), Mark(els)), k1);
        if ka.None? || kb.None? then None else Some(Merge(a, ka.value, b, kb.value))
    case While(c, body) =>
      match Settle(c, body, st, k)
      case None => None
      case Some(h) =>
        var s1 := Emit(st.(nextLabel := st.nextLabel + 2), Mark(Label(Loop, st.nextLabel)));
        Some(After(h, s1, LowerExpr(c, s1).value.0))
  }

  function FollowBlock(body: seq<Stmt>, st: State, k: Known): (r: Option<Known>)
    requires LowerBlock(body, st).Some?
    ensures r.Some? ==> k.bound <= r.value.bound
    decreases body, 0
  {
    if body == [] then Some(k)
    else
      match Follow(body[0], st, k)
      case None => None
      case Some(k1) => FollowBlock(body[1..], LowerStmt(body[0], st).value, k1)
  }

  /** Once round a loop. */
  function Round(c: Expr, body: seq<Stmt>, st: State, k: Known): (r: Option<Known>)
    requires LowerStmt(While(c, body), st).Some?
    ensures r.Some? ==> k.bound <= r.value.bound
    decreases body, 1
  {
    if !Readable(c, st.variables, k.cells) then None
    else
      var s1 := Emit(st.(nextLabel := st.nextLabel + 2), Mark(Label(Loop, st.nextLabel)));
      var (s2, v) := LowerExpr(c, s1).value;
      FollowBlock(body, Emit(s2, JumpIfZero(v, Label(LoopEnd, st.nextLabel + 1))), After(k, s1, s2))
  }

  /** What is known at the head of a loop in every round. */
  function Settle(c: Expr, body: seq<Stmt>, st: State, k: Known): (r: Option<Known>)
    requires LowerStmt(While(c, body), st).Some?
    ensures r.Some? ==> r.value.bound == k.bound && Within(r.value.cells, k.cells) && Steady(c, body, st, r.value)
    decreases body, 3, k.cells.Keys
  {
    match Round(c, body, st, k)
    case None => None
    case Some(k') =>
      if Within(k.cells, k'.cells) then Some(k)
      else
        assert Common(k.cells, k'.cells).Keys < k.cells.Keys;
        Settle(c, body, st, k.(cells := Common(k.cells, k'.cells)))
  }

  predicate Steady(c: Expr, body: seq<Stmt>, st: State, k: Known)
    requires LowerStmt(While(c, body), st).Some?
    decreases body, 2
  {
    Round(c, body, st, k).Some? && Within(k.cells, Round(c, body, st, k).value.cells)
  }

  // ---- shape of the lowered code ----

  ghost predicate CellsBelow(vars: map<string, ValueId>, bound: nat)
  {
    forall x | x in vars :: vars[x] < bound
  }

  ghost predicate LabelsBelow(code: seq<Inst>, bound: nat)
  {
    forall i | 0 <= i < |code| && code[i].Mark? :: code[i].name.number < bound
  }

  ghost predicate Good(st: State)
  {
    CellsBelow(st.variables, st.nextValue) && LabelsBelow(st.code, st.nextLabel) && LabelsUnique(st.code)
  }

  /** `t` continues `s`: code and counters only grow. */
  ghost predicate Continues(s: State, t: State)
  {
    s.code <= t.code && s.nextValue <= t.nextValue && s.nextLabel <= t.nextLabel
  }

  lemma {:induction false} ExprShape(e: Expr, st: State)
    requires LowerExpr(e, st).Some? && CellsBelow(st.variables, st.nextValue)
    ensures var (t, r) := LowerExpr(e, st).value;
            Continues(st, t) && t.variables == st.variables && t.nextLabel == st.nextLabel && r < t.nextValue &&
            (!e.Variable? ==> t.nextValue == r + 1 && st.nextValue <= r) &&
            (forall i | |st.code| <= i < |t.code| :: !t.code[i].Mark?)
  {
    match e
    case Integer(_) =>
    case Variable(_) =>
    case Negate(a) =>
      ExprShape(a, st);
    case BinaryExpr(_, a, b) =>
      ExprShape(a, st);
      ExprShape(b, LowerExpr(a, st).value.0);
  }

  /** The labels marked between `s` and `t` are numbered from `s`'s counter to `t`'s. */
  ghost predicate MarksBetween(s: State, t: State)
  {
    |s.code| <= |t.code| &&
    forall i | |s.code| <= i < |t.code| && t.code[i].Mark? :: s.nextLabel <= t.code[i].name.number < t.nextLabel
  }

  ghost predicate Extends(s: State, t: State)
  {
    Good(t) && Continues(s, t) && MarksBetween(s, t)
  }

  /** No label with this number stands in the code yet. */
  ghost predicate Unplaced(st: State, number: nat)
  {
    forall i | 0 <= i < |st.code| && st.code[i].Mark? :: st.code[i].name.number != number
  }

  lemma ExtendsTrans(s: State, t: State, u: State)
    requires Extends(s, t) && Extends(t, u)
    ensures Extends(s, u)
  {
    assert t.code == u.code[..|t.code|];
  }

  lemma ExtendsFacts(s: State, t: State, number: nat)
    requires Extends(s, t) && number < s.nextLabel
    ensures Good(t) && s.nextLabel <= t.nextLabel
    ensures Unplaced(s, number) ==> Unplaced(t, number)
  {
    forall i | 0 <= i < |t.code| && t.code[i].Mark? && Unplaced(s, number)
      ensures t.code[i].name.number != number
    {
      if i < |s.code| {
        assert s.code[i] == t.code[i];
      }
    }
  }

  lemma TakeTwoLabels(st: State, t: State)
    requires Good(st) && t == st.(nextLabel := st.nextLabel + 2)
    ensures Extends(st, t) && Good(t) && Unplaced(t, st.nextLabel) && Unplaced(t, st.nextLabel + 1)
  {
  }

  lemma PlainExtends(st: State, inst: Inst)
    requires Good(st) && !inst.Mark?
    ensures Extends(st, Emit(st, inst)) && Good(Emit(st, inst))
  {
  }

  /** Places a label taken from the counter since `base`. */
  lemma MarkExtends(base: State, st: State, name: Label, other: nat)
    requires Extends(base, st) && base.nextLabel <= name.number < st.nextLabel && Unplaced(st, name.number)
    ensures Extends(base, Emit(st, Mark(name))) && Good(Emit(st, Mark(name)))
    ensures Unplaced(st, other) && other != name.number ==> Unplaced(Emit(st, Mark(name)), other)
  {
  }

  lemma ExprExtends(e: Expr, st: State)
    requires LowerExpr(e, st).Some? && Good(st)
    ensures var t := LowerExpr(e, st).value.0;
            Extends(st, t) && Good(t) && t.variables == st.variables && t.nextLabel == st.nextLabel
  {
    ExprShape(e, st);
    var t := LowerExpr(e, st).value.0;
    forall i | 0 <= i < |t.code| && t.code[i].Mark?
      ensures i < |st.code| && st.code[i] == t.code[i]
    {
    }
  }

  lemma LetShape(x: string, e: Expr, st: State)
    requires Good(st) && LowerStmt(Let(x, e), st).Some?
    ensures Extends(st, LowerStmt(Let(x, e), st).value)
  {
    ExprShape(e, st);
    ExprExtends(e, st);
  }

  lemma {:induction false} StmtShape(s: Stmt, st: State)
    requires Good(st) && LowerStmt(s, st).Some?
    ensures Extends(st, LowerStmt(s, st).value)
    decreases s, 1
  {
    hide Good, Extends;
    match s
    case Let(x, e) =>
      LetShape(x, e, st);
    case Assign(x, e) =>
      ExprExtends(e, st);
      var (s1, v) := LowerExpr(e, st).value;
      PlainExtends(s1, Move(st.variables[x], v));
      ExtendsTrans(st, s1, Emit(s1, Move(st.variables[x], v)));
    case ReturnStmt(e) =>
      ExprExtends(e, st);
      var (s1, v) := LowerExpr(e, st).value;
      PlainExtends(s1, Return(v));
      ExtendsTrans(st, s1, Emit(s1, Return(v)));
    case While(c, body) =>
      WhileShape(c, body, st);
    case If(c, a, b) =>
      IfShape(c, a, b, st);
  }

  lemma {:induction false} BlockShape(body: seq<Stmt>, st: State)
    requires Good(st) && LowerBlock(body, st).Some?
    ensures Extends(st, LowerBlock(body, st).value)
    decreases body, 0
  {
    if body != [] {
      StmtShape(body[0], st);
      var s1 := LowerStmt(body[0], st).value;
      BlockShape(body[1..], s1);
      hide LowerStmt;
      ExtendsTrans(st, s1, LowerBlock(body, st).value);
    }
  }

  lemma {:induction false} WhileShape(c: Expr, body: seq<Stmt>, st: State)
    requires Good(st) && LowerStmt(While(c, body), st).Some?
    ensures Extends(st, LowerStmt(While(c, body), st).value)
    decreases body, 1
  {
    hide Good, Extends, Unplaced, LowerExpr, LowerBlock;
    var start, end := Label(Loop, st.nextLabel), Label(LoopEnd, st.nextLabel + 1);
    var s0 := st.(nextLabel := st.nextLabel + 2);
    TakeTwoLabels(st, s0);
    var s1 := Emit(s0, Mark(start));
    MarkExtends(st, s0, start, end.number);
    ExprExtends(c, s1);
    var (s2, v) := LowerExpr(c, s1).value;
    var s3 := Emit(s2, JumpIfZero(v, end));
    PlainExtends(s2, JumpIfZero(v, end));
    BlockShape(body, s3);
    var s4 := LowerBlock(body, s3).value;
    ExtendsTrans(s1, s2, s3);
    ExtendsTrans(s1, s3, s4);
    ExtendsFacts(s1, s4, end.number);
    var s5 := Emit(s4, Jump(start));
    PlainExtends(s4, Jump(start));
    ExtendsFacts(s4, s5, end.number);
    ExtendsTrans(s1, s4, s5);
    ExtendsTrans(st, s1, s5);
    MarkExtends(st, s5, end, 0);
  }

  lemma {:induction false} IfShape(c: Expr, a: seq<Stmt>, b: seq<Stmt>, st: State)
    requires Good(st) && LowerStmt(If(c, a, b), st).Some?
    ensures Extends(st, LowerStmt(If(c, a, b), st).value)
    decreases If(c, a, b), 0
  {
    hide Good, Extends, Unplaced, LowerExpr, LowerBlock;
    ExprExtends(c, st);
    var (s1, v) := LowerExpr(c, st).value;
    var els, end := Label(Else, s1.nextLabel), Label(End, s1.nextLabel + 1);
    var s0 := s1.(nextLabel := s1.nextLabel + 2);
    TakeTwoLabels(s1, s0);
    var jump := JumpIfZero(v, if b == [] then end else els);
    var s2 := Emit(s0, jump);
    PlainExtends(s0, jump);
    BlockShape(a, s2);
    var s3 := LowerBlock(a, s2).value;
    ExtendsTrans(s0, s2, s3);
    ExtendsFacts(s0, s3, els.number);
    ExtendsFacts(s0, s3, end.number);
    ExtendsTrans(st, s1, s0);
    ExtendsTrans(st, s0, s3);
    if b == [] {
      MarkExtends(st, s3, end, 0);
    } else {
      ElseShape(b, st, s3, els, end);
    }
  }

  lemma {:induction false} ElseShape(b: seq<Stmt>, st: State, s3: State, els: Label, end: Label)
    requires Extends(st, s3) && Good(s3) && Unplaced(s3, els.number) && Unplaced(s3, end.number)
    requires st.nextLabel <= els.number < end.number < s3.nextLabel
    requires LowerBlock(b, Emit(Emit(s3, Jump(end)), Mark(els))).Some?
    ensures var s6 := LowerBlock(b, Emit(Emit(s3, Jump(end)), Mark(els))).value;
            Extends(st, Emit(s6, Mark(end)))
    decreases b, 1
  {
    hide Good, Extends, Unplaced, LowerBlock;
    var s4 := Emit(s3, Jump(end));
    PlainExtends(s3, Jump(end));
    ExtendsFacts(s3, s4, els.number);
    ExtendsFacts(s3, s4, end.number);
    ExtendsTrans(st, s3, s4);
    MarkExtends(st, s4, els, end.number);
    var s5 := Emit(s4, Mark(els));
    BlockShape(b, s5);
    var s6 := LowerBlock(b, s5).value;
    ExtendsFacts(s5, s6, end.number);
    ExtendsTrans(st, s5, s6);
    MarkExtends(st, s6, end, 0);
  }

  // ---- simulation of expressions ----

  /** The cells hold what the environment says. */
  ghost predicate Match(cells: map<string, ValueId>, env: Env, vals: Vals)
  {
    forall x | x in cells :: (x in env <==> cells[x] in vals) && (x in env ==> env[x] == vals[cells[x]])
  }

  ghost predicate SameOutside(vals: Vals, vals': Vals, lo: nat, hi: nat)
  {
    forall k: nat | k < lo || hi <= k :: (k in vals <==> k in vals') && (k in vals ==> vals[k] == vals'[k])
  }

  /** What running the code of an expression comes to: its value is in cell `r`, or it has
      no value and either the run is stuck or the cell is empty. */
  ghost predicate Evaluated(v: Option<I32>, s: Status, pc: nat, r: ValueId, vals: Vals, lo: nat, hi: nat)
  {
    match v
    case Some(w) => s.At? && s.pc == pc && r in s.vals && s.vals[r] == w && SameOutside(vals, s.vals, lo, hi)
    case None => s.Stuck? || (s.At? && s.pc == pc && r !in s.vals && SameOutside(vals, s.vals, lo, hi))
  }

  lemma OneStep(code: seq<Inst>, args: seq<I32>, pc: nat, vals: Vals)
    ensures Run(code, args, pc, vals, 1) == Step(code, args, pc, vals)
  {
    hide Step;
    var s := Step(code, args, pc, vals);
    if s.At? {
      assert Run(code, args, s.pc, s.vals, 0) == s;
    }
  }

  /** Runs on from where a run stands. */
  lemma Then(code: seq<Inst>, args: seq<I32>, pc: nat, vals: Vals, m: nat, n: nat)
    ensures var s := Run(code, args, pc, vals, m);
            Run(code, args, pc, vals, m + n) == if s.At? then Run(code, args, s.pc, s.vals, n) else s
  {
    hide Run;
    if Run(code, args, pc, vals, m).At? {
      RunAppends(code, args, pc, vals, m, n);
    } else {
      HaltIsStable(code, args, pc, vals, m, m + n);
    }
  }

  lemma {:induction false} SimExpr(e: Expr, st: State, prog: seq<Inst>, args: seq<I32>,
                                   cells: map<string, ValueId>, env: Env, vals: Vals)
    returns (n: nat)
    requires LowerExpr(e, st).Some? && CellsBelow(st.variables, st.nextValue)
    requires Readable(e, st.variables, cells) && Match(cells, env, vals)
    requires LowerExpr(e, st).value.0.code <= prog
    ensures var (t, r) := LowerExpr(e, st).value;
            Evaluated(Eval(e, env), Run(prog, args, |st.code|, vals, n), |t.code|, r, vals, st.nextValue, t.nextValue)
    ensures !e.Variable? && Eval(e, env).None? ==> Run(prog, args, |st.code|, vals, n).Stuck?
    decreases e, 1
  {
    hide Run;
    match e
    case Integer(v) =>
      n := 1;
      OneStep(prog, args, |st.code|, vals);
      assert prog[|st.code|] == Const(st.nextValue, v);
    case Variable(x) =>
      n := 0;
      NoSteps(prog, args, |st.code|, vals);
    case Negate(a) =>
      ExprShape(a, st);
      var (s1, operand) := LowerExpr(a, st).value;
      var n1 := SimExpr(a, st, prog, args, cells, env, vals);
      n := NegateTail(s1, operand, st, prog, args, vals, n1, Eval(a, env));
    case BinaryExpr(op, a, b) =>
      n := BinaryRuns(op, a, b, st, prog, args, cells, env, vals);
  }

  lemma {:induction false} BinaryRuns(op: Op, a: Expr, b: Expr, st: State, prog: seq<Inst>, args: seq<I32>,
                                      cells: map<string, ValueId>, env: Env, vals: Vals)
    returns (n: nat)
    requires LowerExpr(BinaryExpr(op, a, b), st).Some? && CellsBelow(st.variables, st.nextValue)
    requires Readable(BinaryExpr(op, a, b), st.variables, cells) && Match(cells, env, vals)
    requires LowerExpr(BinaryExpr(op, a, b), st).value.0.code <= prog
    ensures var (t, r) := LowerExpr(BinaryExpr(op, a, b), st).value;
            Evaluated(Eval(BinaryExpr(op, a, b), env), Run(prog, args, |st.code|, vals, n), |t.code|, r, vals,
                      st.nextValue, t.nextValue)
    ensures Eval(BinaryExpr(op, a, b), env).None? ==> Run(prog, args, |st.code|, vals, n).Stuck?
    decreases BinaryExpr(op, a, b), 0
  {
    hide Run, Match, Apply;
    ExprShape(a, st);
    var (s1, left) := LowerExpr(a, st).value;
    ExprShape(b, s1);
    var (s2, right) := LowerExpr(b, s1).value;
    var n1 := SimExpr(a, st, prog, args, cells, env, vals);
    var mid := Run(prog, args, |st.code|, vals, n1);
    if mid.At? {
      StillMatches(cells, st.nextValue, s1.nextValue, env, vals, mid.vals);
      StillReadable(b, st, s1, cells);
      var n2 := SimExpr(b, s1, prog, args, Without(cells, st.nextValue, s1.nextValue), env, mid.vals);
      n := BinaryTail(op, st, s1, s2, left, right, prog, args, vals, n1, n2, Eval(a, env), Eval(b, env));
    } else {
      n := n1;
    }
  }

  lemma StillMatches(cells: map<string, ValueId>, lo: nat, hi: nat, env: Env, vals: Vals, vals': Vals)
    requires Match(cells, env, vals) && SameOutside(vals, vals', lo, hi)
    ensures Match(Without(cells, lo, hi), env, vals')
  {
  }

  lemma {:induction false} StillReadable(e: Expr, st: State, s1: State, cells: map<string, ValueId>)
    requires Readable(e, st.variables, cells) && CellsBelow(st.variables, st.nextValue) && s1.variables == st.variables
    ensures Readable(e, s1.variables, Without(cells, st.nextValue, s1.nextValue))
  {
    match e
    case Integer(_) =>
    case Variable(_) =>
    case Negate(a) =>
      StillReadable(a, st, s1, cells);
    case BinaryExpr(_, a, b) =>
      StillReadable(a, st, s1, cells);
      StillReadable(b, st, s1, cells);
  }

  lemma NegateTail(s1: State, operand: ValueId, st: State, prog: seq<Inst>, args: seq<I32>, vals: Vals, n1: nat,
                   v: Option<I32>)
    returns (n: nat)
    requires st.nextValue <= s1.nextValue && operand < s1.nextValue
    requires s1.code + [Const(s1.nextValue, 0)] + [Binary(Sub, s1.nextValue + 1, s1.nextValue, operand)] <= prog
    requires Evaluated(v, Run(prog, args, |st.code|, vals, n1), |s1.code|, operand, vals, st.nextValue, s1.nextValue)
    ensures Evaluated(if v.None? then None else Apply(Sub, 0, v.value), Run(prog, args, |st.code|, vals, n),
                      |s1.code| + 2, s1.nextValue + 1, vals, st.nextValue, s1.nextValue + 2)
    ensures v.None? ==> Run(prog, args, |st.code|, vals, n).Stuck?
  {
    hide Run;
    var pc, zero := |s1.code|, s1.nextValue;
    assert prog[pc] == Const(zero, 0) && prog[pc + 1] == Binary(Sub, zero + 1, zero, operand);
    var mid := Run(prog, args, |st.code|, vals, n1);
    n := n1 + 2;
    Then(prog, args, |st.code|, vals, n1, 2);
    if mid.At? {
      OneStep(prog, args, pc, mid.vals);
      var vals1 := mid.vals[zero := 0];
      Then(prog, args, pc, mid.vals, 1, 1);
      OneStep(prog, args, pc + 1, vals1);
    }
  }

  lemma BinaryTail(op: Op, st: State, s1: State, s2: State, left: ValueId, right: ValueId, prog: seq<Inst>,
                   args: seq<I32>, vals: Vals, n1: nat, n2: nat, v: Option<I32>, w: Option<I32>)
    returns (n: nat)
    requires st.nextValue <= s1.nextValue <= s2.nextValue && left < s1.nextValue && right < s2.nextValue
    requires s2.code + [Binary(op, s2.nextValue, left, right)] <= prog
    requires Run(prog, args, |st.code|, vals, n1).At?
    requires Evaluated(v, Run(prog, args, |st.code|, vals, n1), |s1.code|, left, vals, st.nextValue, s1.nextValue)
    requires var mid := Run(prog, args, |st.code|, vals, n1).vals;
             Evaluated(w, Run(prog, args, |s1.code|, mid, n2), |s2.code|, right, mid, s1.nextValue, s2.nextValue)
    ensures Evaluated(if v.Some? && w.Some? then Apply(op, v.value, w.value) else None,
                      Run(prog, args, |st.code|, vals, n),
                      |s2.code| + 1, s2.nextValue, vals, st.nextValue, s2.nextValue + 1)
    ensures v.None? || w.None? || Apply(op, v.value, w.value).None? ==> Run(prog, args, |st.code|, vals, n).Stuck?
  {
    hide Run, Apply;
    assert prog[|s2.code|] == Binary(op, s2.nextValue, left, right);
    n := n1 + (n2 + 1);
    var mid := Run(prog, args, |st.code|, vals, n1);
    Then(prog, args, |st.code|, vals, n1, n2 + 1);
    Then(prog, args, |s1.code|, mid.vals, n2, 1);
    var end := Run(prog, args, |s1.code|, mid.vals, n2);
    if end.At? {
      OneStep(prog, args, |s2.code|, end.vals);
      assert left in end.vals <==> left in mid.vals;
      assert SameOutside(vals, end.vals, st.nextValue, s2.nextValue);
    }
  }

  // ---- simulation of statements ----

  ghost predicate Holds(k: Known, env: Env, vals: Vals)
  {
    Match(k.cells, env, vals) && k.bound <= env.Keys
  }

  /** Running the code of a statement ends as the statement does: at the end of the code
      with what is known true, with the same value, stuck, or still running. */
  ghost predicate Simulates(o: Outcome, s: Status, n: nat, pc: nat, k: Known, fuel: nat)
  {
    match o
    case Done(env) => s.At? && s.pc == pc && Holds(k, env, s.vals)
    case Value(v) => s == Returned(v)
    case Fault => s.Stuck?
    case NoFuel => s.At? && n >= fuel
  }

  ghost predicate Setting(t: State, prog: seq<Inst>)
  {
    t.code <= prog && LabelsUnique(prog)
  }

  lemma SettingBefore(st: State, t: State, prog: seq<Inst>)
    requires Continues(st, t) && Setting(t, prog)
    ensures Setting(st, prog)
  {
  }

  /** Knowing less. */
  lemma Weaker(o: Outcome, s: Status, n: nat, pc: nat, k: Known, k': Known, fuel: nat)
    requires Simulates(o, s, n, pc, k, fuel) && Within(k'.cells, k.cells) && k'.bound <= k.bound
    ensures Simulates(o, s, n, pc, k', fuel)
  {
  }

  lemma EmitContinues(st: State, inst: Inst, prog: seq<Inst>)
    requires Setting(Emit(st, inst), prog)
    ensures Setting(st, prog) && |st.code| < |prog| && prog[|st.code|] == inst
    ensures inst.Mark? ==> Find(prog, inst.name) == Some(|st.code|)
  {
    var t := Emit(st, inst);
    assert Continues(st, t);
    assert prog[|st.code|] == t.code[|st.code|];
    SettingBefore(st, t, prog);
    if inst.Mark? {
      FindUnique(prog, |st.code|);
    }
  }

  lemma ExtendsSetting(st: State, t: State, prog: seq<Inst>)
    requires Extends(st, t) && Setting(t, prog)
    ensures Setting(st, prog)
  {
    SettingBefore(st, t, prog);
  }

  /** An expression inside a statement: afterwards its cell holds its value, and what was
      known of other cells is still true. */
  lemma ExprRuns(e: Expr, st: State, prog: seq<Inst>, args: seq<I32>, k: Known, env: Env, vals: Vals)
    returns (n: nat)
    requires Good(st) && LowerExpr(e, st).Some? && Setting(LowerExpr(e, st).value.0, prog)
    requires Readable(e, st.variables, k.cells) && Holds(k, env, vals)
    ensures var (t, r) := LowerExpr(e, st).value;
            var s := Run(prog, args, |st.code|, vals, n);
            (s.Stuck? && Eval(e, env).None?) ||
            (s.At? && s.pc == |t.code| && Holds(After(k, st, t), env, s.vals) &&
             (r in s.vals <==> Eval(e, env).Some?) && (r in s.vals ==> Eval(e, env) == Some(s.vals[r])))
    ensures !e.Variable? && Eval(e, env).None? ==> Run(prog, args, |st.code|, vals, n).Stuck?
  {
    hide Run, Eval, LowerExpr, Readable;
    var (t, r) := LowerExpr(e, st).value;
    n := SimExpr(e, st, prog, args, k.cells, env, vals);
    var s := Run(prog, args, |st.code|, vals, n);
    if s.At? {
      StillMatches(k.cells, st.nextValue, t.nextValue, env, vals, s.vals);
    }
  }

  lemma LetRuns(x: string, e: Expr, st: State, prog: seq<Inst>, args: seq<I32>, k: Known, env: Env, vals: Vals,
                fuel: nat)
    returns (n: nat)
    requires Good(st) && LowerStmt(Let(x, e), st).Some? && Follow(Let(x, e), st, k).Some?
    requires Setting(LowerStmt(Let(x, e), st).value, prog) && Holds(k, env, vals)
    ensures Simulates(Exec(Let(x, e), env, fuel), Run(prog, args, |st.code|, vals, n), n,
                      |LowerStmt(Let(x, e), st).value.code|, Follow(Let(x, e), st, k).value, fuel)
  {
    hide Run, LowerExpr, Eval, Readable, Without;
    var (s1, r) := LowerExpr(e, st).value;
    assert Setting(s1, prog);
    n := ExprRuns(e, st, prog, args, k, env, vals);
    assert e.Variable? ==> Eval(e, env).Some? by {
      BoundHasValue(e, k, env);
    }
    var s := Run(prog, args, |st.code|, vals, n);
    if s.At? {
      LetHolds(e, st, x, k, env, s.vals);
    }
  }

  lemma BoundHasValue(e: Expr, k: Known, env: Env)
    requires e.Variable? ==> e.name in k.bound && k.bound <= env.Keys
    ensures e.Variable? ==> Eval(e, env).Some?
  {
  }

  /** A new name gets the cell of its initialiser: a cell of its own, or the cell of the
      variable it renames. */
  lemma LetHolds(e: Expr, st: State, x: string, k: Known, env: Env, vals: Vals)
    requires Good(st) && LowerExpr(e, st).Some?
    requires var (t, r) := LowerExpr(e, st).value; Holds(After(k, st, t), env, vals)
    ensures var (t, r) := LowerExpr(e, st).value;
            r in vals ==> Holds(Known(After(k, st, t).cells[x := r], k.bound + {x}), env[x := vals[r]], vals)
  {
    hide LowerExpr, Without;
  }

  lemma AssignRuns(x: string, e: Expr, st: State, prog: seq<Inst>, args: seq<I32>, k: Known, env: Env, vals: Vals,
                   fuel: nat)
    returns (n: nat)
    requires Good(st) && LowerStmt(Assign(x, e), st).Some? && Follow(Assign(x, e), st, k).Some?
    requires Setting(LowerStmt(Assign(x, e), st).value, prog) && Holds(k, env, vals)
    ensures Simulates(Exec(Assign(x, e), env, fuel), Run(prog, args, |st.code|, vals, n), n,
                      |LowerStmt(Assign(x, e), st).value.code|, Follow(Assign(x, e), st, k).value, fuel)
  {
    hide Run, LowerExpr, Eval, Extends, Readable, Without, Good;
    var (s1, r) := LowerExpr(e, st).value;
    var t, cell := Emit(s1, Move(st.variables[x], r)), st.variables[x];
    assert LowerStmt(Assign(x, e), st) == Some(t) && prog[|s1.code|] == Move(cell, r);
    assert Setting(s1, prog);
    var n1 := ExprRuns(e, st, prog, args, k, env, vals);
    var s := Run(prog, args, |st.code|, vals, n1);
    n := n1 + 1;
    Then(prog, args, |st.code|, vals, n1, 1);
    if s.At? {
      OneStep(prog, args, s.pc, s.vals);
      if r in s.vals {
        AssignHolds(x, cell, After(k, st, s1), env, s.vals, s.vals[r]);
      }
    }
  }

  /** Assigning to a name takes its cell away from every other name. */
  lemma AssignHolds(x: string, cell: ValueId, k: Known, env: Env, vals: Vals, v: I32)
    requires Holds(k, env, vals)
    ensures Holds(Known(Without(k.cells, cell, cell + 1)[x := cell], k.bound + {x}), env[x := v], vals[cell := v])
  {
  }

  lemma ReturnRuns(e: Expr, st: State, prog: seq<Inst>, args: seq<I32>, k: Known, env: Env, vals: Vals, fuel: nat)
    returns (n: nat)
    requires Good(st) && LowerStmt(ReturnStmt(e), st).Some? && Follow(ReturnStmt(e), st, k).Some?
    requires Setting(LowerStmt(ReturnStmt(e), st).value, prog) && Holds(k, env, vals)
    ensures Simulates(Exec(ReturnStmt(e), env, fuel), Run(prog, args, |st.code|, vals, n), n,
                      |LowerStmt(ReturnStmt(e), st).value.code|, Follow(ReturnStmt(e), st, k).value, fuel)
  {
    hide Run, LowerExpr, Eval, Readable, Without, Good, Holds;
    var (s1, r) := LowerExpr(e, st).value;
    assert LowerStmt(ReturnStmt(e), st) == Some(Emit(s1, Return(r))) && prog[|s1.code|] == Return(r);
    assert Setting(s1, prog);
    var n1 := ExprRuns(e, st, prog, args, k, env, vals);
    var s := Run(prog, args, |st.code|, vals, n1);
    n := n1 + 1;
    Then(prog, args, |st.code|, vals, n1, 1);
    if s.At? {
      OneStep(prog, args, s.pc, s.vals);
    }
  }

  /** A condition and the conditional jump after it. */
  lemma BranchRuns(c: Expr, st: State, name: Label, target: nat, prog: seq<Inst>, args: seq<I32>, k: Known, env: Env,
                   vals: Vals)
    returns (n: nat)
    requires Good(st) && LowerExpr(c, st).Some?
    requires var (t, r) := LowerExpr(c, st).value;
             Setting(t, prog) && t.code + [JumpIfZero(r, name)] <= prog
    requires Find(prog, name) == Some(target) && Readable(c, st.variables, k.cells) && Holds(k, env, vals)
    ensures n >= 1
    ensures var t := LowerExpr(c, st).value.0;
            var s := Run(prog, args, |st.code|, vals, n);
            match Eval(c, env)
            case None => s.Stuck?
            case Some(v) => s.At? && Holds(After(k, st, t), env, s.vals) &&
                            s.pc == if v == 0 then target else |t.code| + 1
  {
    hide Run, LowerExpr, Eval, Find, Readable, Without, Good, Holds;
    var (t, r) := LowerExpr(c, st).value;
    assert prog[|t.code|] == JumpIfZero(r, name);
    var n1 := ExprRuns(c, st, prog, args, k, env, vals);
    var s := Run(prog, args, |st.code|, vals, n1);
    n := n1 + 1;
    Then(prog, args, |st.code|, vals, n1, 1);
    if s.At? {
      OneStep(prog, args, s.pc, s.vals);
    }
  }

  lemma {:induction false} SimStmt(s: Stmt, st: State, prog: seq<Inst>, args: seq<I32>, k: Known, env: Env, vals: Vals,
                                   fuel: nat)
    returns (n: nat)
    requires Good(st) && LowerStmt(s, st).Some? && Follow(s, st, k).Some?
    requires Setting(LowerStmt(s, st).value, prog) && Holds(k, env, vals)
    ensures Simulates(Exec(s, env, fuel), Run(prog, args, |st.code|, vals, n), n,
                      |LowerStmt(s, st).value.code|, Follow(s, st, k).value, fuel)
    decreases fuel, s, 2
  {
    hide Run, Good, Setting, Holds, Simulates, Readable, Merge;
    match s
    case Let(x, e) =>
      n := LetRuns(x, e, st, prog, args, k, env, vals, fuel);
    case Assign(x, e) =>
      n := AssignRuns(x, e, st, prog, args, k, env, vals, fuel);
    case ReturnStmt(e) =>
      n := ReturnRuns(e, st, prog, args, k, env, vals, fuel);
    case If(c, a, b) =>
      n := IfRuns(c, a, b, st, prog, args, k, env, vals, fuel);
    case While(c, body) =>
      var h := Settle(c, body, st, k).value;
      HoldsWithin(k, h, env, vals);
      n := WhileRuns(c, body, st, prog, args, h, env, vals, fuel);
  }

  lemma HoldsWithin(k: Known, k': Known, env: Env, vals: Vals)
    requires Holds(k, env, vals) && Within(k'.cells, k.cells) && k'.bound <= k.bound
    ensures Holds(k', env, vals)
  {
  }

  lemma {:induction false} SimBlock(body: seq<Stmt>, st: State, prog: seq<Inst>, args: seq<I32>, k: Known, env: Env,
                                    vals: Vals, fuel: nat)
    returns (n: nat)
    requires Good(st) && LowerBlock(body, st).Some? && FollowBlock(body, st, k).Some?
    requires Setting(LowerBlock(body, st).value, prog) && Holds(k, env, vals)
    ensures Simulates(ExecBlock(body, env, fuel), Run(prog, args, |st.code|, vals, n), n,
                      |LowerBlock(body, st).value.code|, FollowBlock(body, st, k).value, fuel)
    decreases fuel, body, 0
  {
    hide Run, Good, Setting, Holds, LowerStmt, Exec, Follow;
    if body == [] {
      n := 0;
      NoSteps(prog, args, |st.code|, vals);
    } else {
      StmtShape(body[0], st);
      var s1, k1 := LowerStmt(body[0], st).value, Follow(body[0], st, k).value;
      ExtendsGood(st, s1);
      BlockShape(body[1..], s1);
      var t := LowerBlock(body, st).value;
      ExtendsSetting(s1, t, prog);
      var n1 := SimStmt(body[0], st, prog, args, k, env, vals, fuel);
      var s := Run(prog, args, |st.code|, vals, n1);
      var o := Exec(body[0], env, fuel);
      if o.Done? {
        var n2 := SimBlock(body[1..], s1, prog, args, k1, o.env, s.vals, fuel);
        n := n1 + n2;
        Then(prog, args, |st.code|, vals, n1, n2);
      } else {
        n := n1;
      }
    }
  }

  lemma ExtendsGood(s: State, t: State)
    requires Extends(s, t)
    ensures Good(t)
  {
  }

  lemma NoSteps(prog: seq<Inst>, args: seq<I32>, pc: nat, vals: Vals)
    ensures Run(prog, args, pc, vals, 0) == At(pc, vals)
  {
  }

  /** Runs on over the single instruction at the end of a simulated block. */
  lemma Finish(o: Outcome, st: State, prog: seq<Inst>, args: seq<I32>, k: Known, vals: Vals, n1: nat, pc: nat,
               pc': nat, fuel: nat)
    returns (n: nat)
    requires Simulates(o, Run(prog, args, |st.code|, vals, n1), n1, pc, k, fuel)
    requires pc < |prog| && forall w: Vals :: Step(prog, args, pc, w) == At(pc', w)
    ensures n >= n1 && Simulates(o, Run(prog, args, |st.code|, vals, n), n, pc', k, fuel)
  {
    hide Run, Step, Holds;
    if o.Done? {
      n := n1 + 1;
      var s := Run(prog, args, |st.code|, vals, n1);
      Then(prog, args, |st.code|, vals, n1, 1);
      OneStep(prog, args, pc, s.vals);
      assert Step(prog, args, pc, s.vals) == At(pc', s.vals);
    } else {
      n := n1;
    }
  }

  /** Puts a simulated continuation after a run that stands at its start. */
  lemma Chain(o: Outcome, prog: seq<Inst>, args: seq<I32>, k: Known, pc: nat, vals: Vals,
              n1: nat, n2: nat, end: nat, fuel: nat, fuel2: nat)
    requires Run(prog, args, pc, vals, n1).At?
    requires var s := Run(prog, args, pc, vals, n1);
             Simulates(o, Run(prog, args, s.pc, s.vals, n2), n2, end, k, fuel2)
    requires fuel <= n1 + fuel2
    ensures Simulates(o, Run(prog, args, pc, vals, n1 + n2), n1 + n2, end, k, fuel)
  {
    hide Run, Holds;
    Then(prog, args, pc, vals, n1, n2);
  }

  lemma MarkSteps(prog: seq<Inst>, args: seq<I32>, pc: nat)
    requires pc < |prog| && prog[pc].Mark?
    ensures forall w: Vals :: Step(prog, args, pc, w) == At(pc + 1, w)
  {
  }

  lemma JumpSteps(prog: seq<Inst>, args: seq<I32>, pc: nat, target: nat)
    requires pc < |prog| && prog[pc].Jump? && Find(prog, prog[pc].name) == Some(target)
    ensures forall w: Vals :: Step(prog, args, pc, w) == At(target, w)
  {
  }

  /** A two-step tail: a jump to a mark, and over the mark. */
  lemma JumpThenMark(o: Outcome, st: State, prog: seq<Inst>, args: seq<I32>, k: Known, vals: Vals, n1: nat, pc: nat,
                     target: nat, fuel: nat)
    returns (n: nat)
    requires Simulates(o, Run(prog, args, |st.code|, vals, n1), n1, pc, k, fuel)
    requires pc < |prog| && prog[pc].Jump? && Find(prog, prog[pc].name) == Some(target)
    ensures Simulates(o, Run(prog, args, |st.code|, vals, n), n, target + 1, k, fuel)
  {
    hide Run, Simulates;
    JumpSteps(prog, args, pc, target);
    var n2 := Finish(o, st, prog, args, k, vals, n1, pc, target, fuel);
    MarkSteps(prog, args, target);
    n := Finish(o, st, prog, args, k, vals, n2, target, target + 1, fuel);
  }

  lemma {:induction false} NeverDone(body: seq<Stmt>, env: Env, fuel: nat)
    requires AlwaysReturns(body)
    ensures !ExecBlock(body, env, fuel).Done?
    decreases body
  {
    var r := Exec(body[0], env, fuel);
    if |body| == 1 {
      match body[0]
      case ReturnStmt(_) =>
      case If(c, a, b) =>
        NeverDone(a, env, fuel);
        NeverDone(b, env, fuel);
    } else if r.Done? {
      assert body[1..][|body| - 2] == body[|body| - 1];
      NeverDone(body[1..], r.env, fuel);
    }
  }

  /** Behind a conditional, what both branches leave known is known, and a branch that always
      returns leaves nothing to ask. */
  lemma MergeSimulates(body: seq<Stmt>, env: Env, o: Outcome, s: Status, n: nat, pc: nat, a: seq<Stmt>, ka: Known,
                       b: seq<Stmt>, kb: Known, fuel: nat)
    requires o == ExecBlock(body, env, fuel)
    requires (body == a && Simulates(o, s, n, pc, ka, fuel)) || (body == b && Simulates(o, s, n, pc, kb, fuel))
    ensures Simulates(o, s, n, pc, Merge(a, ka, b, kb), fuel)
  {
    if AlwaysReturns(body) {
      NeverDone(body, env, fuel);
    } else {
      hide ExecBlock, AlwaysReturns, Holds, Simulates;
      var k := if body == a && Simulates(o, s, n, pc, ka, fuel) then ka else kb;
      Weaker(o, s, n, pc, k, Merge(a, ka, b, kb), fuel);
    }
  }

  lemma {:induction false} IfRuns(c: Expr, a: seq<Stmt>, b: seq<Stmt>, st: State, prog: seq<Inst>, args: seq<I32>,
                                  k: Known, env: Env, vals: Vals, fuel: nat)
    returns (n: nat)
    requires Good(st) && LowerStmt(If(c, a, b), st).Some? && Follow(If(c, a, b), st, k).Some?
    requires Setting(LowerStmt(If(c, a, b), st).value, prog) && Holds(k, env, vals)
    ensures Simulates(Exec(If(c, a, b), env, fuel), Run(prog, args, |st.code|, vals, n), n,
                      |LowerStmt(If(c, a, b), st).value.code|, Follow(If(c, a, b), st, k).value, fuel)
    decreases fuel, If(c, a, b), 1
  {
    hide Run, Good, Extends, Setting, Holds, LowerExpr, LowerBlock, ExecBlock, FollowBlock, Eval, Find, Simulates,
         Readable, Without, Merge;
    ExprExtends(c, st);
    var (s1, v) := LowerExpr(c, st).value;
    var els, end := Label(Else, s1.nextLabel), Label(End, s1.nextLabel + 1);
    var s0 := s1.(nextLabel := s1.nextLabel + 2);
    TakeTwoLabels(s1, s0);
    var jump := JumpIfZero(v, if b == [] then end else els);
    var s2 := Emit(s0, jump);
    PlainExtends(s0, jump);
    BlockShape(a, s2);
    var s3 := LowerBlock(a, s2).value;
    var t := LowerStmt(If(c, a, b), st).value;
    var w := Eval(c, env);
    if b == [] {
      var k1 := After(k, st, s1);
      var ka := FollowBlock(a, s2, k1).value;
      var k2 := Merge(a, ka, b, k1);
      assert t == Emit(s3, Mark(end)) && Follow(If(c, a, b), st, k) == Some(k2);
      EmitContinues(s3, Mark(end), prog);
      ExtendsSetting(s2, s3, prog);
      EmitContinues(s0, jump, prog);
      ExtendsSetting(s1, s0, prog);
      PrefixOf(s2, prog);
      var n1 := BranchRuns(c, st, end, |s3.code|, prog, args, k, env, vals);
      MarkSteps(prog, args, |s3.code|);
      if w.Some? {
        var m := Run(prog, args, |st.code|, vals, n1);
        if w.value == 0 {
          EmptyBlock(env, fuel, prog, args, k1, m.vals, |s3.code|);
          Chain(Done(env), prog, args, k1, |st.code|, vals, n1, 0, |s3.code|, fuel, fuel);
          n := Finish(Done(env), st, prog, args, k1, vals, n1 + 0, |s3.code|, |t.code|, fuel);
          MergeSimulates(b, env, Done(env), Run(prog, args, |st.code|, vals, n), n, |t.code|, a, ka, b, k1, fuel);
        } else {
          var n2 := SimBlock(a, s2, prog, args, k1, env, m.vals, fuel);
          var o := ExecBlock(a, env, fuel);
          Chain(o, prog, args, ka, |st.code|, vals, n1, n2, |s3.code|, fuel, fuel);
          n := Finish(o, st, prog, args, ka, vals, n1 + n2, |s3.code|, |t.code|, fuel);
          MergeSimulates(a, env, o, Run(prog, args, |st.code|, vals, n), n, |t.code|, a, ka, b, k1, fuel);
        }
      } else {
        n := n1;
        FaultSimulates(Run(prog, args, |st.code|, vals, n), n, |t.code|, k2, fuel);
      }
    } else {
      n := IfElseRuns(c, a, b, st, prog, args, k, env, vals, fuel, s1, v, s2, s3);
    }
  }

  lemma FaultSimulates(s: Status, n: nat, pc: nat, k: Known, fuel: nat)
    requires s.Stuck?
    ensures Simulates(Fault, s, n, pc, k, fuel)
  {
  }

  lemma EmptyBlock(env: Env, fuel: nat, prog: seq<Inst>, args: seq<I32>, k: Known, vals: Vals, pc: nat)
    requires Holds(k, env, vals)
    ensures ExecBlock([], env, fuel) == Done(env)
    ensures Simulates(Done(env), Run(prog, args, pc, vals, 0), 0, pc, k, fuel)
  {
  }

  lemma PrefixOf(st: State, prog: seq<Inst>)
    requires Setting(st, prog)
    ensures st.code <= prog
  {
  }

  lemma {:induction false} IfElseRuns(c: Expr, a: seq<Stmt>, b: seq<Stmt>, st: State, prog: seq<Inst>,
                                      args: seq<I32>, k: Known, env: Env, vals: Vals, fuel: nat,
                                      s1: State, v: ValueId, s2: State, s3: State)
    returns (n: nat)
    requires Good(st) && LowerStmt(If(c, a, b), st).Some? && Follow(If(c, a, b), st, k).Some? && b != []
    requires Setting(LowerStmt(If(c, a, b), st).value, prog) && Holds(k, env, vals)
    requires LowerExpr(c, st) == Some((s1, v)) && Good(s1) && s1.variables == st.variables
    requires s2 == Emit(s1.(nextLabel := s1.nextLabel + 2), JumpIfZero(v, Label(Else, s1.nextLabel))) && Good(s2)
    requires LowerBlock(a, s2) == Some(s3) && Extends(s2, s3)
    ensures Simulates(Exec(If(c, a, b), env, fuel), Run(prog, args, |st.code|, vals, n), n,
                      |LowerStmt(If(c, a, b), st).value.code|, Follow(If(c, a, b), st, k).value, fuel)
    decreases fuel, If(c, a, b), 0
  {
    hide Run, Good, Extends, Setting, Holds, LowerExpr, LowerBlock, ExecBlock, FollowBlock, Eval, Find, Simulates,
         Readable, Without, Merge;
    var els, end := Label(Else, s1.nextLabel), Label(End, s1.nextLabel + 1);
    var s0 := s1.(nextLabel := s1.nextLabel + 2);
    TakeTwoLabels(s1, s0);
    var s4 := Emit(s3, Jump(end));
    var s5 := Emit(s4, Mark(els));
    ElseGood(s0, s2, s3, els, end, JumpIfZero(v, els));
    BlockShape(b, s5);
    var s6 := LowerBlock(b, s5).value;
    var t := Emit(s6, Mark(end));
    var k1 := After(k, st, s1);
    var ka, kb := FollowBlock(a, s2, k1).value, FollowBlock(b, s5, k1).value;
    var k2 := Merge(a, ka, b, kb);
    assert LowerStmt(If(c, a, b), st) == Some(t) && Follow(If(c, a, b), st, k) == Some(k2);
    EmitContinues(s6, Mark(end), prog);
    ExtendsSetting(s5, s6, prog);
    EmitContinues(s4, Mark(els), prog);
    EmitContinues(s3, Jump(end), prog);
    ExtendsSetting(s2, s3, prog);
    EmitContinues(s0, JumpIfZero(v, els), prog);
    ExtendsSetting(s1, s0, prog);
    PrefixOf(s2, prog);
    var n1 := BranchRuns(c, st, els, |s4.code|, prog, args, k, env, vals);
    var w := Eval(c, env);
    if w.Some? {
      var m := Run(prog, args, |st.code|, vals, n1);
      if w.value == 0 {
        MarkSteps(prog, args, |s4.code|);
        OneStep(prog, args, |s4.code|, m.vals);
        Then(prog, args, |st.code|, vals, n1, 1);
        var n2 := SimBlock(b, s5, prog, args, k1, env, m.vals, fuel);
        var o := ExecBlock(b, env, fuel);
        Chain(o, prog, args, kb, |st.code|, vals, n1 + 1, n2, |s6.code|, fuel, fuel);
        MarkSteps(prog, args, |s6.code|);
        n := Finish(o, st, prog, args, kb, vals, n1 + 1 + n2, |s6.code|, |t.code|, fuel);
        MergeSimulates(b, env, o, Run(prog, args, |st.code|, vals, n), n, |t.code|, a, ka, b, kb, fuel);
      } else {
        var n2 := SimBlock(a, s2, prog, args, k1, env, m.vals, fuel);
        var o := ExecBlock(a, env, fuel);
        Chain(o, prog, args, ka, |st.code|, vals, n1, n2, |s3.code|, fuel, fuel);
        n := JumpThenMark(o, st, prog, args, ka, vals, n1 + n2, |s3.code|, |s6.code|, fuel);
        MergeSimulates(a, env, o, Run(prog, args, |st.code|, vals, n), n, |t.code|, a, ka, b, kb, fuel);
      }
    } else {
      n := n1;
      FaultSimulates(Run(prog, args, |st.code|, vals, n), n, |t.code|, k2, fuel);
    }
  }

  /** The state in which the else branch is lowered is well formed. */
  lemma ElseGood(s0: State, s2: State, s3: State, els: Label, end: Label, jump: Inst)
    requires Good(s0) && Unplaced(s0, els.number) && !jump.Mark? && s2 == Emit(s0, jump) && Extends(s2, s3)
    requires els.number < s0.nextLabel
    ensures Good(Emit(Emit(s3, Jump(end)), Mark(els)))
  {
    hide Unplaced, Extends, Good;
    PlainExtends(s0, jump);
    ExtendsFacts(s0, s2, els.number);
    ExtendsFacts(s2, s3, els.number);
    var s4 := Emit(s3, Jump(end));
    PlainExtends(s3, Jump(end));
    ExtendsFacts(s3, s4, els.number);
    MarkGood(s4, els);
  }

  lemma MarkGood(st: State, name: Label)
    requires Good(st) && Unplaced(st, name.number) && name.number < st.nextLabel
    ensures Good(Emit(st, Mark(name)))
  {
  }

  /** What is known behind a loop whose head keeps `h`. */
  ghost function Exit(c: Expr, body: seq<Stmt>, st: State, h: Known): Known
    requires LowerStmt(While(c, body), st).Some?
  {
    var s1 := Emit(st.(nextLabel := st.nextLabel + 2), Mark(Label(Loop, st.nextLabel)));
    After(h, s1, LowerExpr(c, s1).value.0)
  }

  lemma {:induction false} WhileRuns(c: Expr, body: seq<Stmt>, st: State, prog: seq<Inst>, args: seq<I32>, h: Known,
                                     env: Env, vals: Vals, fuel: nat)
    returns (n: nat)
    requires Good(st) && LowerStmt(While(c, body), st).Some? && Steady(c, body, st, h)
    requires Setting(LowerStmt(While(c, body), st).value, prog) && Holds(h, env, vals)
    ensures Simulates(Exec(While(c, body), env, fuel), Run(prog, args, |st.code|, vals, n), n,
                      |LowerStmt(While(c, body), st).value.code|, Exit(c, body, st, h), fuel)
    decreases fuel, While(c, body), 1
  {
    hide Run, Good, Extends, Setting, Holds, LowerExpr, LowerBlock, ExecBlock, FollowBlock, Eval, Find, Simulates,
         Readable, Without;
    var start, end := Label(Loop, st.nextLabel), Label(LoopEnd, st.nextLabel + 1);
    var s0 := st.(nextLabel := st.nextLabel + 2);
    TakeTwoLabels(st, s0);
    var s1 := Emit(s0, Mark(start));
    MarkGood(s0, start);
    ExprExtends(c, s1);
    var (s2, v) := LowerExpr(c, s1).value;
    var s3 := Emit(s2, JumpIfZero(v, end));
    PlainExtends(s2, JumpIfZero(v, end));
    BlockShape(body, s3);
    var s4 := LowerBlock(body, s3).value;
    var s5 := Emit(s4, Jump(start));
    var t := Emit(s5, Mark(end));
    var k1 := After(h, s1, s2);
    var kb := FollowBlock(body, s3, k1).value;
    assert LowerStmt(While(c, body), st) == Some(t) && Round(c, body, st, h) == Some(kb);
    assert Exit(c, body, st, h) == k1;
    if fuel == 0 {
      n := 0;
      OutOfFuel(prog, args, |st.code|, vals, |t.code|, k1);
    } else {
      EmitContinues(s5, Mark(end), prog);
      EmitContinues(s4, Jump(start), prog);
      ExtendsSetting(s3, s4, prog);
      EmitContinues(s2, JumpIfZero(v, end), prog);
      PrefixOf(s3, prog);
      ExtendsSetting(s1, s2, prog);
      EmitContinues(s0, Mark(start), prog);
      MarkSteps(prog, args, |st.code|);
      OneStep(prog, args, |st.code|, vals);
      var n1 := BranchRuns(c, s1, end, |s5.code|, prog, args, h, env, vals);
      Then(prog, args, |st.code|, vals, 1, n1);
      var m := Run(prog, args, |st.code|, vals, 1 + n1);
      var w := Eval(c, env);
      if w.None? {
        n := 1 + n1;
        FaultSimulates(m, n, |t.code|, k1, fuel);
      } else if w.value == 0 {
        EmptyBlock(env, fuel, prog, args, k1, m.vals, |s5.code|);
        Chain(Done(env), prog, args, k1, |st.code|, vals, 1 + n1, 0, |s5.code|, fuel, fuel);
        MarkSteps(prog, args, |s5.code|);
        n := Finish(Done(env), st, prog, args, k1, vals, 1 + n1 + 0, |s5.code|, |t.code|, fuel);
      } else {
        var n2 := SimBlock(body, s3, prog, args, k1, env, m.vals, fuel - 1);
        var o := ExecBlock(body, env, fuel - 1);
        Chain(o, prog, args, kb, |st.code|, vals, 1 + n1, n2, |s4.code|, fuel, fuel - 1);
        JumpSteps(prog, args, |s4.code|, |s0.code|);
        var n3 := Finish(o, st, prog, args, kb, vals, 1 + n1 + n2, |s4.code|, |st.code|, fuel);
        if o.Done? {
          var again := Run(prog, args, |st.code|, vals, n3);
          DoneHolds(o, again, n3, |st.code|, kb, h, fuel);
          var n4 := WhileRuns(c, body, st, prog, args, h, o.env, again.vals, fuel - 1);
          var o' := Exec(While(c, body), o.env, fuel - 1);
          assert n3 >= 1;
          Chain(o', prog, args, k1, |st.code|, vals, n3, n4, |t.code|, fuel, fuel - 1);
          n := n3 + n4;
        } else {
          n := n3;
          NotDone(o, Run(prog, args, |st.code|, vals, n), n, |st.code|, |t.code|, kb, k1, fuel);
        }
      }
    }
  }

  lemma OutOfFuel(prog: seq<Inst>, args: seq<I32>, pc: nat, vals: Vals, end: nat, k: Known)
    ensures Simulates(NoFuel, Run(prog, args, pc, vals, 0), 0, end, k, 0)
  {
  }

  /** Round the loop: what is known at its head is known again. */
  lemma DoneHolds(o: Outcome, s: Status, n: nat, pc: nat, k: Known, h: Known, fuel: nat)
    requires Simulates(o, s, n, pc, k, fuel) && o.Done? && Within(h.cells, k.cells) && h.bound <= k.bound
    ensures s.At? && s.pc == pc && Holds(h, o.env, s.vals)
  {
  }

  lemma NotDone(o: Outcome, s: Status, n: nat, pc: nat, pc': nat, k: Known, k': Known, fuel: nat)
    requires Simulates(o, s, n, pc, k, fuel) && !o.Done?
    ensures Simulates(o, s, n, pc', k', fuel)
  {
  }

  // ---- whole functions ----

  /** Names known at the entry: parameters are in their cells, other names have no value and
      are expected in cells not yet written. */
  predicate Starts(params: seq<string>, k: Known)
  {
    var vars := LowerParams(params).variables;
    (forall x | x in k.cells :: if x in vars then k.cells[x] == vars[x] else |params| <= k.cells[x]) &&
    (forall x | x in k.bound :: x in params)
  }

  /** The functions the theorem is about: every name, wherever it is read, is where lowering
      looks for it. */
  ghost predicate Traceable(f: Function)
  {
    Lower(f).Some? && exists k :: TracedFrom(f, k)
  }

  predicate TracedFrom(f: Function, k: Known)
    requires Lower(f).Some?
  {
    Starts(f.params, k) && FollowBlock(f.body, LowerParams(f.params), k).Some?
  }

  /** A test: follow the names from the parameters. */
  predicate Traced(f: Function)
  {
    Lower(f).Some? && FollowBlock(f.body, LowerParams(f.params), FromParams(f.params)).Some?
  }

  function FromParams(params: seq<string>): Known
  {
    Known(LowerParams(params).variables, set x | x in params)
  }

  lemma TracedIsTraceable(f: Function)
    requires Traced(f)
    ensures Traceable(f)
  {
    hide FollowBlock, LowerBlock, LowerParams;
    assert TracedFrom(f, FromParams(f.params));
  }

  function Bind(params: seq<string>, args: seq<I32>): Env
    requires |params| == |args|
  {
    if params == [] then map[]
    else Bind(params[..|params| - 1], args[..|params| - 1])[params[|params| - 1] := args[|params| - 1]]
  }

  lemma {:induction false} ParamsShape(params: seq<string>)
    ensures var st := LowerParams(params);
            Good(st) && st.nextValue == |params| == |st.code| && st.variables.Keys == (set x | x in params) &&
            (forall i | 0 <= i < |params| :: st.code[i] == Param(i, i))
  {
    ParamCounts(params);
    ParamKeys(params);
    ParamsGood(params);
    ParamCode(params);
  }

  lemma {:induction false} ParamCounts(params: seq<string>)
    ensures var st := LowerParams(params); st.nextValue == |params| == |st.code|
  {
    if params != [] {
      ParamCounts(params[..|params| - 1]);
    }
  }

  lemma {:induction false} ParamKeys(params: seq<string>)
    ensures LowerParams(params).variables.Keys == set x | x in params
  {
    if params != [] {
      var k := |params| - 1;
      ParamKeys(params[..k]);
      assert params == params[..k] + [params[k]];
    }
  }

  lemma {:induction false} ParamsGood(params: seq<string>)
    ensures Good(LowerParams(params))
  {
    if params == [] {
    } else {
      var k := |params| - 1;
      ParamsGood(params[..k]);
      ParamCounts(params[..k]);
      hide Good;
      ParamGood(LowerParams(params[..k]), params[k]);
    }
  }

  lemma ParamGood(st: State, x: string)
    requires Good(st)
    ensures Good(State(st.code + [Param(st.nextValue, |st.code|)], st.nextValue + 1, st.nextLabel,
                       st.variables[x := st.nextValue]))
  {
  }

  /** The parameters come first, in order, even if two share a name. */
  lemma {:induction false} ParamCode(params: seq<string>)
    ensures var st := LowerParams(params);
            st.nextValue == |params| == |st.code| && forall i | 0 <= i < |params| :: st.code[i] == Param(i, i)
  {
    if params != [] {
      ParamCode(params[..|params| - 1]);
    }
  }

  ghost function ParamCells(args: seq<I32>, k: nat): Vals
    requires k <= |args|
  {
    map i: nat | i < k :: args[i]
  }

  lemma {:induction false} ParamsRun(code: seq<Inst>, args: seq<I32>, k: nat)
    requires k <= |args| && k <= |code| && forall i | 0 <= i < k :: code[i] == Param(i, i)
    ensures Run(code, args, 0, map[], k) == At(k, ParamCells(args, k))
  {
    if k == 0 {
      assert ParamCells(args, 0) == map[];
    } else {
      ParamsRun(code, args, k - 1);
      Then(code, args, 0, map[], k - 1, 1);
      OneStep(code, args, k - 1, ParamCells(args, k - 1));
      assert ParamCells(args, k - 1)[k - 1 := args[k - 1]] == ParamCells(args, k);
    }
  }

  /** Of parameters with one name the last counts, in the source and in the code. */
  lemma {:induction false} BindLooksUp(params: seq<string>, args: seq<I32>)
    requires |params| == |args|
    ensures Bind(params, args).Keys == LowerParams(params).variables.Keys
    ensures forall x | x in Bind(params, args) ::
              LowerParams(params).variables[x] < |params| && Bind(params, args)[x] == args[LowerParams(params).variables[x]]
  {
    if params != [] {
      var k := |params| - 1;
      BindLooksUp(params[..k], args[..k]);
      ParamCounts(params[..k]);
    }
  }

  lemma EntryHolds(params: seq<string>, args: seq<I32>, k: Known)
    requires |params| == |args| && Starts(params, k)
    ensures Holds(k, Bind(params, args), ParamCells(args, |args|))
  {
    hide LowerParams, Bind;
    BindLooksUp(params, args);
    ParamKeys(params);
  }

  /** One execution of the source, with any loop budget, and the run of its code. */
  lemma FunctionRuns(f: Function, args: seq<I32>, fuel: nat) returns (n: nat, k: Known)
    requires Traceable(f) && |args| == |f.params|
    ensures Simulates(ExecBlock(f.body, Bind(f.params, args), fuel), Run(Lower(f).value, args, 0, map[], n), n,
                      |Lower(f).value|, k, fuel)
  {
    hide Run, Good, Holds, ExecBlock, LowerBlock, FollowBlock, Simulates, Bind, ParamCells, LowerParams, Starts;
    var st := LowerParams(f.params);
    var k0 :| TracedFrom(f, k0);
    ParamsShape(f.params);
    BlockShape(f.body, st);
    var t := LowerBlock(f.body, st).value;
    k := FollowBlock(f.body, st, k0).value;
    FinalSetting(t);
    EntryHolds(f.params, args, k0);
    ParamsRun(t.code, args, |args|);
    var cells := ParamCells(args, |args|);
    var m := SimBlock(f.body, st, t.code, args, k0, Bind(f.params, args), cells, fuel);
    Chain(ExecBlock(f.body, Bind(f.params, args), fuel), t.code, args, k, 0, map[], |args|, m, |t.code|, fuel, fuel);
    n := |args| + m;
  }

  lemma FinalSetting(t: State)
    requires Good(t)
    ensures Setting(t, t.code)
  {
  }

  ghost predicate SourceReturns(f: Function, args: seq<I32>, v: I32)
    requires |args| == |f.params|
  {
    exists fuel: nat :: ExecBlock(f.body, Bind(f.params, args), fuel) == Value(v)
  }

  ghost predicate SourceFaults(f: Function, args: seq<I32>)
    requires |args| == |f.params|
  {
    exists fuel: nat :: ExecBlock(f.body, Bind(f.params, args), fuel) == Fault
  }

  ghost predicate SourceFallsOff(f: Function, args: seq<I32>)
    requires |args| == |f.params|
  {
    exists fuel: nat :: ExecBlock(f.body, Bind(f.params, args), fuel).Done?
  }

  ghost predicate CodeEnds(code: seq<Inst>, args: seq<I32>, end: Status)
  {
    exists n: nat :: Run(code, args, 0, map[], n) == end
  }

  /** How the code ends when a run of the source with this budget is known. */
  ghost function Ending(o: Outcome): Status
    requires !o.NoFuel?
  {
    match o
    case Done(_) => OffEnd
    case Value(v) => Returned(v)
    case Fault => Stuck
  }

  lemma SourceEndsCodeEnds(f: Function, args: seq<I32>, fuel: nat)
    requires Traceable(f) && |args| == |f.params|
    requires !ExecBlock(f.body, Bind(f.params, args), fuel).NoFuel?
    ensures CodeEnds(Lower(f).value, args, Ending(ExecBlock(f.body, Bind(f.params, args), fuel)))
  {
    var code, o := Lower(f).value, ExecBlock(f.body, Bind(f.params, args), fuel);
    var n, k := FunctionRuns(f, args, fuel);
    hide Run, ExecBlock, Lower, Holds;
    if o.Done? {
      var s := Run(code, args, 0, map[], n);
      Then(code, args, 0, map[], n, 1);
      OneStep(code, args, |code|, s.vals);
      assert Run(code, args, 0, map[], n + 1) == OffEnd;
    } else {
      assert Run(code, args, 0, map[], n) == Ending(o);
    }
  }

  /** If the code has ended after `n` steps, the source ends within the budget `n + 1`, in
      the way that corresponds. */
  lemma CodeEndsSourceEnds(f: Function, args: seq<I32>, n: nat)
    requires Traceable(f) && |args| == |f.params|
    requires !Run(Lower(f).value, args, 0, map[], n).At?
    ensures var o := ExecBlock(f.body, Bind(f.params, args), n + 1);
            !o.NoFuel? && Run(Lower(f).value, args, 0, map[], n) == Ending(o)
  {
    var code, o := Lower(f).value, ExecBlock(f.body, Bind(f.params, args), n + 1);
    var m, k := FunctionRuns(f, args, n + 1);
    hide Run, ExecBlock, Lower, Holds;
    if o.NoFuel? {
      HaltIsStable(code, args, 0, map[], n, m);
    } else {
      SourceEndsCodeEnds(f, args, n + 1);
      var j: nat :| Run(code, args, 0, map[], j) == Ending(o);
      if j <= n {
        HaltIsStable(code, args, 0, map[], j, n);
      } else {
        HaltIsStable(code, args, 0, map[], n, j);
      }
    }
  }

  /** Lowering preserves meaning, both ways: the code returns a value exactly when the
      source does, is stuck exactly when the source faults, and runs off its end exactly
      when the source ends without a return. */
  lemma LoweringPreservesMeaning(f: Function, args: seq<I32>)
    requires Traceable(f) && |args| == |f.params|
    ensures forall v :: SourceReturns(f, args, v) <==> CodeEnds(Lower(f).value, args, Returned(v))
    ensures SourceFaults(f, args) <==> CodeEnds(Lower(f).value, args, Stuck)
    ensures SourceFallsOff(f, args) <==> CodeEnds(Lower(f).value, args, OffEnd)
  {
    hide Run, ExecBlock, Lower, Bind, TracedFrom;
    var env := Bind(f.params, args);
    forall fuel: nat | !ExecBlock(f.body, env, fuel).NoFuel?
      ensures CodeEnds(Lower(f).value, args, Ending(ExecBlock(f.body, env, fuel)))
    {
      SourceEndsCodeEnds(f, args, fuel);
    }
    forall n: nat | !Run(Lower(f).value, args, 0, map[], n).At?
      ensures var o := ExecBlock(f.body, env, n + 1);
              !o.NoFuel? && Run(Lower(f).value, args, 0, map[], n) == Ending(o)
    {
      CodeEndsSourceEnds(f, args, n);
    }
  }

  // ---- the always-returns check ----

  /** The statements in tail position: a body's last, or those of both branches where that is
      a conditional.  None stands for an empty body. */
  function Tails(body: seq<Stmt>): set<Option<Stmt>>
  {
    if body == [] then {None}
    else
      match body[|body| - 1]
      case If(_, a, b) => Tails(a) + Tails(b)
      case s => {Some(s)}
  }

  /** The check accepts exactly the bodies in which every tail is a return. */
  lemma {:induction false} AcceptedExactly(body: seq<Stmt>)
    ensures AlwaysReturns(body) <==> forall t | t in Tails(body) :: t.Some? && t.value.ReturnStmt?
  {
    if body == [] {
      assert None in Tails(body);
    } else {
      var last := body[|body| - 1];
      if last.If? {
        AcceptedExactly(last.thenBody);
        AcceptedExactly(last.elseBody);
        assert Tails(body) == Tails(last.thenBody) + Tails(last.elseBody);
      } else {
        assert Some(last) in Tails(body);
      }
    }
  }

  /** A body that passes the check never runs off the end of its code. */
  lemma NeverRunsOff(f: Function, args: seq<I32>)
    requires Traceable(f) && |args| == |f.params| && AlwaysReturns(f.body)
    ensures !CodeEnds(Lower(f).value, args, OffEnd)
  {
    LoweringPreservesMeaning(f, args);
    forall fuel: nat
      ensures !ExecBlock(f.body, Bind(f.params, args), fuel).Done?
    {
      NeverDone(f.body, Bind(f.params, args), fuel);
    }
  }

  // ---- why a renaming `let` is excluded ----

  const RENAMING: Function :=
    Function(["x"], [Let("y", Variable("x")), Assign("x", Integer(5)), ReturnStmt(Variable("y"))])

  /** `let y = x; x = 5; return y` returns the argument, but its code returns 5: the
      lowerer gives `y` the cell of `x`. */
  lemma RenamingLetIsAnAlias(a: I32)
    ensures Lower(RENAMING) == Some([Param(0, 0), Const(1, 5), Move(0, 1), Return(0)])
    ensures SourceReturns(RENAMING, [a], a)
    ensures CodeEnds(Lower(RENAMING).value, [a], Returned(5))
  {
    RenamingCode();
    RenamingSource(a);
    var code: seq<Inst> := [Param(0, 0), Const(1, 5), Move(0, 1), Return(0)];
    assert Step(code, [a], 0, map[]) == At(1, map[0 := a]);
    assert Step(code, [a], 1, map[0 := a]) == At(2, map[0 := a, 1 := 5]);
    assert Step(code, [a], 2, map[0 := a, 1 := 5]) == At(3, map[0 := 5, 1 := 5]);
    assert Step(code, [a], 3, map[0 := 5, 1 := 5]) == Returned(5);
    hide Step;
    OneStep(code, [a], 0, map[]);
    Then(code, [a], 0, map[], 1, 1);
    OneStep(code, [a], 1, map[0 := a]);
    Then(code, [a], 0, map[], 2, 1);
    OneStep(code, [a], 2, map[0 := a, 1 := 5]);
    Then(code, [a], 0, map[], 3, 1);
    OneStep(code, [a], 3, map[0 := 5, 1 := 5]);
    assert Run(code, [a], 0, map[], 4) == Returned(5);
  }

  lemma RenamingCode()
    ensures Lower(RENAMING) == Some([Param(0, 0), Const(1, 5), Move(0, 1), Return(0)])
  {
    var body := RENAMING.body;
    var s0 := State([Param(0, 0)], 1, 0, map["x" := 0]);
    assert LowerParams(["x"]) == s0 by {
      assert ["x"][..0] == [];
    }
    var s1 := s0.(variables := map["x" := 0, "y" := 0]);
    assert LowerStmt(body[0], s0) == Some(s1);
    var s2 := State([Param(0, 0), Const(1, 5), Move(0, 1)], 2, 0, s1.variables);
    assert s1.code + [Const(1, 5)] + [Move(0, 1)] == s2.code;
    assert LowerStmt(body[1], s1) == Some(s2);
    var s3 := s2.(code := [Param(0, 0), Const(1, 5), Move(0, 1), Return(0)]);
    assert s2.code + [Return(0)] == s3.code;
    assert LowerStmt(body[2], s2) == Some(s3);
    assert body[1..][1..] == [body[2]] && [body[2]][1..] == [];
  }

  lemma RenamingSource(a: I32)
    ensures SourceReturns(RENAMING, [a], a)
  {
    var body := RENAMING.body;
    assert Bind(["x"], [a]) == map["x" := a] by {
      assert ["x"][..0] == [] && [a][..0] == [];
      assert Bind([], []) == map[];
    }
    assert Exec(body[0], map["x" := a], 0) == Done(map["x" := a, "y" := a]);
    assert Exec(body[1], map["x" := a, "y" := a], 0) == Done(map["x" := 5, "y" := a]);
    assert Exec(body[2], map["x" := 5, "y" := a], 0) == Value(a);
    assert body[1..][0] == body[1] && body[1..][1..] == [body[2]];
    assert ExecBlock(body, map["x" := a], 0) == Value(a);
  }

  // ---- why a name declared again in a branch is excluded ----

  const REDECLARING: Function :=
    Function(["c"], [Let("x", Integer(1)), If(Variable("c"), [Let("x", Integer(2))], []), ReturnStmt(Variable("x"))])

  ghost function RedeclaringCode(): seq<Inst>
  {
    [Param(0, 0), Const(1, 1), JumpIfZero(0, Label(End, 1)), Const(2, 2), Mark(Label(End, 1)), Return(2)]
  }

  /** `let x = 1; if c { let x = 2; } return x` returns 1 when c is zero, but its code then
      reads a cell that was never written: behind the branch `x` is the branch's cell. */
  lemma RedeclaredNameIsLost()
    ensures Lower(REDECLARING) == Some(RedeclaringCode())
    ensures SourceReturns(REDECLARING, [0], 1)
    ensures CodeEnds(RedeclaringCode(), [0], Stuck)
  {
    hide RedeclaringCode, Lower, SourceReturns;
    RedeclaringLowered();
    RedeclaringSource();
    RedeclaringRuns();
  }

  lemma RedeclaringLowered()
    ensures Lower(REDECLARING) == Some(RedeclaringCode())
  {
    hide LowerStmt, LowerExpr;
    var body := REDECLARING.body;
    var s0 := State([Param(0, 0)], 1, 0, map["c" := 0]);
    assert LowerParams(["c"]) == s0 by {
      assert ["c"][..0] == [];
    }
    var s1 := State(s0.code + [Const(1, 1)], 2, 0, s0.variables["x" := 1]);
    assert LowerStmt(body[0], s0) == Some(s1) by {
      LetOne(s0, "x", 1);
    }
    RedeclaringBranch(s1);
    var s4 := LowerStmt(body[1], s1).value;
    var s5 := Emit(s4, Return(2));
    assert LowerStmt(body[2], s4) == Some(s5) by {
      ReturnOne(s4, "x");
    }
    assert body[1..][1..] == [body[2]] && [body[2]][1..] == [];
    assert s5.code == RedeclaringCode();
  }

  lemma LetOne(st: State, x: string, v: I32)
    ensures LowerStmt(Let(x, Integer(v)), st)
         == Some(State(st.code + [Const(st.nextValue, v)], st.nextValue + 1, st.nextLabel, st.variables[x := st.nextValue]))
  {
  }

  lemma ReturnOne(st: State, x: string)
    requires x in st.variables
    ensures LowerStmt(ReturnStmt(Variable(x)), st) == Some(Emit(st, Return(st.variables[x])))
  {
  }

  lemma RedeclaringBranch(st: State)
    requires st.nextValue == 2 && st.nextLabel == 0 && "c" in st.variables && st.variables["c"] == 0
    ensures LowerStmt(If(Variable("c"), [Let("x", Integer(2))], []), st)
         == Some(State(st.code + [JumpIfZero(0, Label(End, 1))] + [Const(2, 2)] + [Mark(Label(End, 1))], 3, 2,
                       st.variables["x" := 2]))
  {
    var s2 := State(st.code + [JumpIfZero(0, Label(End, 1))], 2, 2, st.variables);
    LetOne(s2, "x", 2);
    assert [Let("x", Integer(2))][1..] == [];
    assert LowerBlock([Let("x", Integer(2))], s2) == LowerStmt(Let("x", Integer(2)), s2);
  }

  lemma RedeclaringSource()
    ensures SourceReturns(REDECLARING, [0], 1)
  {
    var body := REDECLARING.body;
    assert Bind(["c"], [0]) == map["c" := 0] by {
      assert ["c"][..0] == [] && [0][..0] == [];
      assert Bind([], []) == map[];
    }
    var env: Env := map["c" := 0, "x" := 1];
    assert Exec(body[0], map["c" := 0], 0) == Done(env);
    assert Exec(body[1], env, 0) == Done(env);
    assert Exec(body[2], env, 0) == Value(1);
    assert body[1..][0] == body[1] && body[1..][1..] == [body[2]];
    assert ExecBlock(body, map["c" := 0], 0) == Value(1);
  }

  lemma RedeclaringRuns()
    ensures CodeEnds(RedeclaringCode(), [0], Stuck)
  {
    var code := RedeclaringCode();
    var vals: Vals := map[0 := 0, 1 := 1];
    assert Step(code, [0], 0, map[]) == At(1, map[0 := 0]);
    assert Step(code, [0], 1, map[0 := 0]) == At(2, vals);
    assert Find(code, Label(End, 1)) == Some(4) by {
      FindEnd();
    }
    assert Step(code, [0], 2, vals) == At(4, vals);
    assert Step(code, [0], 4, vals) == At(5, vals);
    assert Step(code, [0], 5, vals) == Stuck;
    hide Step;
    OneStep(code, [0], 0, map[]);
    Then(code, [0], 0, map[], 1, 1);
    OneStep(code, [0], 1, map[0 := 0]);
    Then(code, [0], 0, map[], 2, 1);
    OneStep(code, [0], 2, vals);
    Then(code, [0], 0, map[], 3, 1);
    OneStep(code, [0], 4, vals);
    Then(code, [0], 0, map[], 4, 1);
    OneStep(code, [0], 5, vals);
    assert Run(code, [0], 0, map[], 5) == Stuck;
  }

  lemma FindEnd()
    ensures Find(RedeclaringCode(), Label(End, 1)) == Some(4)
  {
    hide Find;
    assert RedeclaringCode()[4] in RedeclaringCode();
  }
}
