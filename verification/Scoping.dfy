/** Which functions the lowerer accepts: those in which every name read or assigned is a
    parameter or was declared by a `let` that stands before it in the text, in whatever
    block.  And which of them come out without division. */
module Scoping {
  import opened IR
  import opened Lowering
  import opened LoweringProof
  import opened OnceDeclared

  predicate Named(e: Expr, known: set<string>)
  {
    match e
    case Integer(_) => true
    case Variable(x) => x in known
    case Negate(a) => Named(a, known)
    case BinaryExpr(_, a, b) => Named(a, known) && Named(b, known)
  }

  predicate Scoped(s: Stmt, known: set<string>)
    decreases s, 1
  {
    match s
    case Let(_, e) => Named(e, known)
    case Assign(x, e) => x in known && Named(e, known)
    case ReturnStmt(e) => Named(e, known)
    case While(c, body) => Named(c, known) && ScopedBlock(body, known)
    case If(c, a, b) => Named(c, known) && ScopedBlock(a, known) && ScopedBlock(b, known + DeclaredBlock(a))
  }

  predicate ScopedBlock(body: seq<Stmt>, known: set<string>)
    decreases body, 0
  {
    body == [] || (Scoped(body[0], known) && ScopedBlock(body[1..], known + Declared(body[0])))
  }

  predicate ScopedFunction(f: Function)
  {
    ScopedBlock(f.body, set x | x in f.params)
  }

  lemma {:induction false} ExprLowersExactly(e: Expr, st: State)
    ensures LowerExpr(e, st).Some? <==> Named(e, st.variables.Keys)
    ensures LowerExpr(e, st).Some? ==> LowerExpr(e, st).value.0.variables == st.variables
  {
    match e
    case Integer(_) =>
    case Variable(_) =>
    case Negate(a) =>
      ExprLowersExactly(a, st);
    case BinaryExpr(_, a, b) =>
      ExprLowersExactly(a, st);
      if LowerExpr(a, st).Some? {
        ExprLowersExactly(b, LowerExpr(a, st).value.0);
      }
  }

  lemma {:induction false} StmtLowersExactly(s: Stmt, st: State)
    ensures LowerStmt(s, st).Some? <==> Scoped(s, st.variables.Keys)
    ensures LowerStmt(s, st).Some? ==> LowerStmt(s, st).value.variables.Keys == st.variables.Keys + Declared(s)
    decreases s, 1
  {
    hide LowerExpr, LowerBlock, Named, ScopedBlock, DeclaredBlock;
    match s
    case Let(_, e) =>
      ExprLowersExactly(e, st);
    case Assign(_, e) =>
      ExprLowersExactly(e, st);
    case ReturnStmt(e) =>
      ExprLowersExactly(e, st);
    case While(c, body) =>
      var s1 := Emit(st.(nextLabel := st.nextLabel + 2), Mark(Label(Loop, st.nextLabel)));
      ExprLowersExactly(c, s1);
      if LowerExpr(c, s1).Some? {
        var (s2, v) := LowerExpr(c, s1).value;
        BlockLowersExactly(body, Emit(s2, JumpIfZero(v, Label(LoopEnd, st.nextLabel + 1))));
      }
    case If(c, a, b) =>
      ExprLowersExactly(c, st);
      if LowerExpr(c, st).Some? {
        var (s1, v) := LowerExpr(c, st).value;
        var els, end := Label(Else, s1.nextLabel), Label(End, s1.nextLabel + 1);
        var s2 := Emit(s1.(nextLabel := s1.nextLabel + 2), JumpIfZero(v, if b == [] then end else els));
        BlockLowersExactly(a, s2);
        NothingDeclared();
        NothingToScope(st.variables.Keys + DeclaredBlock(a));
        if LowerBlock(a, s2).Some? && b != [] {
          BlockLowersExactly(b, Emit(Emit(LowerBlock(a, s2).value, Jump(end)), Mark(els)));
        }
      }
  }

  lemma NothingToScope(known: set<string>)
    ensures ScopedBlock([], known)
  {
  }

  lemma {:induction false} BlockLowersExactly(body: seq<Stmt>, st: State)
    ensures LowerBlock(body, st).Some? <==> ScopedBlock(body, st.variables.Keys)
    ensures LowerBlock(body, st).Some? ==> LowerBlock(body, st).value.variables.Keys == st.variables.Keys + DeclaredBlock(body)
    decreases body, 0
  {
    hide LowerStmt, Scoped, Declared;
    if body != [] {
      StmtLowersExactly(body[0], st);
      if LowerStmt(body[0], st).Some? {
        BlockLowersExactly(body[1..], LowerStmt(body[0], st).value);
      }
    }
  }

  /** The lowerer throws exactly on a name that is not known where it is mentioned. */
  lemma LowersExactly(f: Function)
    ensures Lower(f).Some? <==> ScopedFunction(f)
  {
    ParamKeys(f.params);
    BlockLowersExactly(f.body, LowerParams(f.params));
  }

  // ---- division ----

  predicate Undivided(e: Expr)
  {
    match e
    case Integer(_) => true
    case Variable(_) => true
    case Negate(a) => Undivided(a)
    case BinaryExpr(op, a, b) => !op.Div? && Undivided(a) && Undivided(b)
  }

  predicate UndividedStmt(s: Stmt)
    decreases s, 1
  {
    match s
    case Let(_, e) => Undivided(e)
    case Assign(_, e) => Undivided(e)
    case ReturnStmt(e) => Undivided(e)
    case While(c, body) => Undivided(c) && UndividedBlock(body)
    case If(c, a, b) => Undivided(c) && UndividedBlock(a) && UndividedBlock(b)
  }

  predicate UndividedBlock(body: seq<Stmt>)
    decreases body, 0
  {
    body == [] || (UndividedStmt(body[0]) && UndividedBlock(body[1..]))
  }

  predicate DivisionFree(code: seq<Inst>)
  {
    forall i | 0 <= i < |code| :: !(code[i].Binary? && code[i].op.Div?)
  }

  lemma FreeAppend(st: State, inst: Inst)
    ensures DivisionFree(Emit(st, inst).code) <==> DivisionFree(st.code) && !(inst.Binary? && inst.op.Div?)
  {
    var more := Emit(st, inst).code;
    assert more[|st.code|] == inst && more[..|st.code|] == st.code;
    assert forall i | 0 <= i < |st.code| :: more[i] == st.code[i];
  }

  lemma {:induction false} ExprDivides(e: Expr, st: State)
    requires LowerExpr(e, st).Some?
    ensures DivisionFree(LowerExpr(e, st).value.0.code) <==> DivisionFree(st.code) && Undivided(e)
  {
    hide DivisionFree;
    match e
    case Integer(v) =>
      FreeAppend(st, Const(st.nextValue, v));
    case Variable(_) =>
    case Negate(a) =>
      ExprDivides(a, st);
      var (s1, r) := LowerExpr(a, st).value;
      FreeAppend(s1, Const(s1.nextValue, 0));
      FreeAppend(Emit(s1, Const(s1.nextValue, 0)), Binary(Sub, s1.nextValue + 1, s1.nextValue, r));
    case BinaryExpr(op, a, b) =>
      ExprDivides(a, st);
      var (s1, l) := LowerExpr(a, st).value;
      ExprDivides(b, s1);
      var (s2, r) := LowerExpr(b, s1).value;
      FreeAppend(s2, Binary(op, s2.nextValue, l, r));
  }

  lemma {:induction false} StmtDivides(s: Stmt, st: State)
    requires LowerStmt(s, st).Some?
    ensures DivisionFree(LowerStmt(s, st).value.code) <==> DivisionFree(st.code) && UndividedStmt(s)
    decreases s, 1
  {
    hide DivisionFree, LowerExpr, LowerBlock, Undivided, UndividedBlock;
    match s
    case Let(_, e) =>
      ExprDivides(e, st);
    case Assign(x, e) =>
      ExprDivides(e, st);
      var (s1, v) := LowerExpr(e, st).value;
      FreeAppend(s1, Move(st.variables[x], v));
    case ReturnStmt(e) =>
      ExprDivides(e, st);
      var (s1, v) := LowerExpr(e, st).value;
      FreeAppend(s1, Return(v));
    case While(c, body) =>
      var start, end := Label(Loop, st.nextLabel), Label(LoopEnd, st.nextLabel + 1);
      var s0 := st.(nextLabel := st.nextLabel + 2);
      FreeAppend(s0, Mark(start));
      ExprDivides(c, Emit(s0, Mark(start)));
      var (s2, v) := LowerExpr(c, Emit(s0, Mark(start))).value;
      FreeAppend(s2, JumpIfZero(v, end));
      BlockDivides(body, Emit(s2, JumpIfZero(v, end)));
      var s3 := LowerBlock(body, Emit(s2, JumpIfZero(v, end))).value;
      FreeAppend(s3, Jump(start));
      FreeAppend(Emit(s3, Jump(start)), Mark(end));
    case If(c, a, b) =>
      ExprDivides(c, st);
      var (s1, v) := LowerExpr(c, st).value;
      var els, end := Label(Else, s1.nextLabel), Label(End, s1.nextLabel + 1);
      var s0, jump := s1.(nextLabel := s1.nextLabel + 2), JumpIfZero(v, if b == [] then end else els);
      FreeAppend(s0, jump);
      BlockDivides(a, Emit(s0, jump));
      var s3 := LowerBlock(a, Emit(s0, jump)).value;
      NothingDivides();
      if b == [] {
        FreeAppend(s3, Mark(end));
      } else {
        FreeAppend(s3, Jump(end));
        var s4 := Emit(s3, Jump(end));
        FreeAppend(s4, Mark(els));
        BlockDivides(b, Emit(s4, Mark(els)));
        FreeAppend(LowerBlock(b, Emit(s4, Mark(els))).value, Mark(end));
      }
  }

  lemma NothingDivides()
    ensures UndividedBlock([])
  {
  }

  lemma {:induction false} BlockDivides(body: seq<Stmt>, st: State)
    requires LowerBlock(body, st).Some?
    ensures DivisionFree(LowerBlock(body, st).value.code) <==> DivisionFree(st.code) && UndividedBlock(body)
    decreases body, 0
  {
    hide DivisionFree, LowerStmt, UndividedStmt;
    if body != [] {
      StmtDivides(body[0], st);
      BlockDivides(body[1..], LowerStmt(body[0], st).value);
    }
  }

  /** The code divides exactly if the source does. */
  lemma DividesExactly(f: Function)
    requires Lower(f).Some?
    ensures DivisionFree(Lower(f).value) <==> UndividedBlock(f.body)
  {
    ParamCode(f.params);
    BlockDivides(f.body, LowerParams(f.params));
  }
}
