/** Declaring every name once, with an initialiser that is more than a name, is enough for
    lowering to be followed: one table of cells then serves the whole function. */
module OnceDeclared {
  import opened IR
  import opened Lowering
  import opened LoweringProof

  function Declared(s: Stmt): set<string>
    decreases s, 1
  {
    match s
    case Let(x, _) => {x}
    case If(_, a, b) => DeclaredBlock(a) + DeclaredBlock(b)
    case While(_, body) => DeclaredBlock(body)
    case Assign(_, _) => {}
    case ReturnStmt(_) => {}
  }

  function DeclaredBlock(body: seq<Stmt>): set<string>
    decreases body, 0
  {
    if body == [] then {} else Declared(body[0]) + DeclaredBlock(body[1..])
  }

  /** Every name is declared once and no `let` merely renames a variable. */
  predicate Once(s: Stmt, known: set<string>)
    decreases s, 1
  {
    match s
    case Let(x, e) => x !in known && !e.Variable?
    case If(_, a, b) => OnceBlock(a, known) && OnceBlock(b, known + DeclaredBlock(a))
    case While(_, body) => OnceBlock(body, known)
    case Assign(_, _) => true
    case ReturnStmt(_) => true
  }

  predicate OnceBlock(body: seq<Stmt>, known: set<string>)
    decreases body, 0
  {
    body == [] || (Once(body[0], known) && OnceBlock(body[1..], known + Declared(body[0])))
  }

  ghost predicate Distinct(params: seq<string>)
  {
    forall i, j | 0 <= i < j < |params| :: params[i] != params[j]
  }

  ghost predicate WellDeclared(f: Function)
  {
    Distinct(f.params) && OnceBlock(f.body, set x | x in f.params)
  }

  // ---- bindings ----

  ghost predicate Injective(vars: map<string, ValueId>)
  {
    forall x, y | x in vars && y in vars && vars[x] == vars[y] :: x == y
  }

  ghost predicate Tidy(st: State)
  {
    CellsBelow(st.variables, st.nextValue) && Injective(st.variables)
  }

  /** Bindings are kept, and a new binding gets a new cell. */
  ghost predicate Binds(s: State, t: State)
  {
    Tidy(t) && s.nextValue <= t.nextValue &&
    (forall x | x in s.variables :: x in t.variables && t.variables[x] == s.variables[x]) &&
    (forall x | x in t.variables && x !in s.variables :: s.nextValue <= t.variables[x])
  }

  lemma BindsTrans(s: State, t: State, u: State)
    requires Binds(s, t) && Binds(t, u)
    ensures Binds(s, u)
  {
  }

  lemma SameBinds(s: State, t: State)
    requires Tidy(s) && t.variables == s.variables && s.nextValue <= t.nextValue
    ensures Binds(s, t) && Tidy(t)
  {
  }

  lemma ExprBinds(e: Expr, st: State)
    requires Tidy(st) && LowerExpr(e, st).Some?
    ensures var t := LowerExpr(e, st).value.0; Binds(st, t) && Tidy(t) && t.variables == st.variables
  {
    ExprShape(e, st);
  }

  lemma LetBinds(x: string, e: Expr, st: State)
    requires Tidy(st) && LowerStmt(Let(x, e), st).Some? && x !in st.variables && !e.Variable?
    ensures var t := LowerStmt(Let(x, e), st).value; Binds(st, t) && t.variables.Keys == st.variables.Keys + {x}
  {
    hide LowerExpr;
    ExprShape(e, st);
  }

  lemma {:induction false} StmtBinds(s: Stmt, st: State)
    requires Tidy(st) && LowerStmt(s, st).Some? && Once(s, st.variables.Keys)
    ensures var t := LowerStmt(s, st).value; Binds(st, t) && Tidy(t) && t.variables.Keys == st.variables.Keys + Declared(s)
    decreases s, 1
  {
    hide Tidy, Binds, LowerExpr, LowerBlock, OnceBlock, DeclaredBlock;
    match s
    case Let(x, e) =>
      LetBinds(x, e, st);
      BindsTidy(st, LowerStmt(s, st).value);
    case Assign(x, e) =>
      ExprBinds(e, st);
      var (s1, v) := LowerExpr(e, st).value;
      SameBinds(s1, LowerStmt(s, st).value);
      BindsTrans(st, s1, LowerStmt(s, st).value);
    case ReturnStmt(e) =>
      ExprBinds(e, st);
      var (s1, v) := LowerExpr(e, st).value;
      SameBinds(s1, LowerStmt(s, st).value);
      BindsTrans(st, s1, LowerStmt(s, st).value);
    case While(c, body) =>
      var s1 := Emit(st.(nextLabel := st.nextLabel + 2), Mark(Label(Loop, st.nextLabel)));
      SameBinds(st, s1);
      ExprBinds(c, s1);
      var (s2, v) := LowerExpr(c, s1).value;
      var s3 := Emit(s2, JumpIfZero(v, Label(LoopEnd, st.nextLabel + 1)));
      SameBinds(s2, s3);
      BlockBinds(body, s3);
      var s4, t := LowerBlock(body, s3).value, LowerStmt(s, st).value;
      SameBinds(s4, t);
      BindsTrans(st, s1, s2);
      BindsTrans(st, s2, s3);
      BindsTrans(st, s3, s4);
      BindsTrans(st, s4, t);
    case If(c, a, b) =>
      IfBinds(c, a, b, st);
  }

  lemma BindsTidy(s: State, t: State)
    requires Binds(s, t)
    ensures Tidy(t)
  {
  }

  lemma {:induction false} IfBinds(c: Expr, a: seq<Stmt>, b: seq<Stmt>, st: State)
    requires Tidy(st) && LowerStmt(If(c, a, b), st).Some? && Once(If(c, a, b), st.variables.Keys)
    ensures var t := LowerStmt(If(c, a, b), st).value;
            Binds(st, t) && Tidy(t) && t.variables.Keys == st.variables.Keys + Declared(If(c, a, b))
    decreases If(c, a, b), 0
  {
    hide Tidy, Binds, LowerExpr, LowerBlock, OnceBlock, DeclaredBlock;
    ExprBinds(c, st);
    var (s1, v) := LowerExpr(c, st).value;
    var els, end := Label(Else, s1.nextLabel), Label(End, s1.nextLabel + 1);
    var s2 := Emit(s1.(nextLabel := s1.nextLabel + 2), JumpIfZero(v, if b == [] then end else els));
    SameBinds(s1, s2);
    BlockBinds(a, s2);
    var s3, t := LowerBlock(a, s2).value, LowerStmt(If(c, a, b), st).value;
    BindsTrans(st, s1, s2);
    BindsTrans(st, s2, s3);
    if b == [] {
      NothingDeclared();
      SameBinds(s3, t);
      BindsTrans(st, s3, t);
    } else {
      var s5 := Emit(Emit(s3, Jump(end)), Mark(els));
      SameBinds(s3, s5);
      BlockBinds(b, s5);
      var s6 := LowerBlock(b, s5).value;
      SameBinds(s6, t);
      BindsTrans(st, s3, s5);
      BindsTrans(st, s5, s6);
      BindsTrans(st, s6, t);
    }
  }

  lemma NothingDeclared()
    ensures DeclaredBlock([]) == {}
  {
  }

  lemma {:induction false} BlockBinds(body: seq<Stmt>, st: State)
    requires Tidy(st) && LowerBlock(body, st).Some? && OnceBlock(body, st.variables.Keys)
    ensures var t := LowerBlock(body, st).value;
            Binds(st, t) && Tidy(t) && t.variables.Keys == st.variables.Keys + DeclaredBlock(body)
    decreases body, 0
  {
    hide Tidy, Binds, LowerStmt, Once, Declared;
    if body == [] {
      SameBinds(st, st);
    } else {
      StmtBinds(body[0], st);
      var s1 := LowerStmt(body[0], st).value;
      BlockBinds(body[1..], s1);
      BindsTrans(st, s1, LowerBlock(body, st).value);
    }
  }

  // ---- following with the final table ----

  /** `all` has the bindings of `st`, and any other name in it a cell numbered later. */
  ghost predicate Agrees(st: State, all: map<string, ValueId>)
  {
    Injective(all) &&
    (forall x | x in st.variables :: x in all && all[x] == st.variables[x]) &&
    (forall x | x in all && x !in st.variables :: st.nextValue <= all[x])
  }

  lemma AgreesBefore(st: State, t: State, all: map<string, ValueId>)
    requires Binds(st, t) && Agrees(t, all)
    ensures Agrees(st, all)
  {
  }

  lemma {:induction false} AllReadable(e: Expr, st: State, s1: State, all: map<string, ValueId>)
    requires LowerExpr(e, s1).Some? && s1.variables == st.variables && Agrees(st, all)
    ensures Readable(e, st.variables, all)
  {
    match e
    case Integer(_) =>
    case Variable(_) =>
    case Negate(a) =>
      AllReadable(a, st, s1, all);
    case BinaryExpr(_, a, b) =>
      AllReadable(a, st, s1, all);
      var s2 := LowerExpr(a, s1).value.0;
      SameVariables(a, s1);
      AllReadable(b, st, s2, all);
  }

  lemma {:induction false} SameVariables(e: Expr, st: State)
    requires LowerExpr(e, st).Some?
    ensures LowerExpr(e, st).value.0.variables == st.variables
  {
    match e
    case Integer(_) =>
    case Variable(_) =>
    case Negate(a) =>
      SameVariables(a, st);
    case BinaryExpr(_, a, b) =>
      SameVariables(a, st);
      SameVariables(b, LowerExpr(a, st).value.0);
  }

  /** Temporaries are nobody's cells. */
  lemma NothingLost(st: State, t: State, k: Known)
    requires Tidy(st) && t.variables == st.variables && Agrees(t, k.cells)
    ensures After(k, st, t) == k
  {
    assert Without(k.cells, st.nextValue, t.nextValue) == k.cells;
  }

  lemma ExprFollows(e: Expr, st: State, k: Known)
    requires Tidy(st) && LowerExpr(e, st).Some? && Agrees(LowerExpr(e, st).value.0, k.cells)
    ensures Agrees(st, k.cells) && Readable(e, st.variables, k.cells) && After(k, st, LowerExpr(e, st).value.0) == k
  {
    hide Tidy, Binds, Agrees, LowerExpr, Readable;
    ExprBinds(e, st);
    var t := LowerExpr(e, st).value.0;
    AgreesBefore(st, t, k.cells);
    AllReadable(e, st, st, k.cells);
    NothingLost(st, t, k);
  }

  lemma LetFollows(x: string, e: Expr, st: State, k: Known)
    requires Tidy(st) && LowerStmt(Let(x, e), st).Some? && x !in st.variables && !e.Variable?
    requires Agrees(LowerStmt(Let(x, e), st).value, k.cells)
    ensures Follow(Let(x, e), st, k).Some? && Follow(Let(x, e), st, k).value.cells == k.cells
  {
    hide LowerExpr, Readable;
    ExprShape(e, st);
    LetBinds(x, e, st);
    var t := LowerStmt(Let(x, e), st).value;
    AgreesBefore(st, t, k.cells);
    AllReadable(e, st, st, k.cells);
    var (s1, r) := LowerExpr(e, st).value;
    LetKeeps(st, s1, x, r, k);
  }

  lemma LetKeeps(st: State, s1: State, x: string, r: ValueId, k: Known)
    requires Tidy(st) && s1.variables == st.variables && x !in st.variables && st.nextValue <= r < s1.nextValue
    requires Agrees(s1.(variables := st.variables[x := r]), k.cells)
    ensures After(k, st, s1).cells[x := r] == k.cells
  {
    var t := s1.(variables := st.variables[x := r]);
    assert x in t.variables;
    forall y | y in k.cells && y != x
      ensures y in After(k, st, s1).cells
    {
      if y in t.variables {
        assert k.cells[y] == st.variables[y];
      }
    }
  }

  lemma AssignKeeps(x: string, cell: ValueId, all: map<string, ValueId>)
    requires Injective(all) && x in all && all[x] == cell
    ensures Without(all, cell, cell + 1)[x := cell] == all
  {
  }

  /** With the final table nothing is forgotten. */
  lemma {:induction false} StmtFollows(s: Stmt, st: State, k: Known)
    requires Tidy(st) && LowerStmt(s, st).Some? && Once(s, st.variables.Keys)
    requires Agrees(LowerStmt(s, st).value, k.cells)
    ensures Follow(s, st, k).Some? && Follow(s, st, k).value.cells == k.cells
    decreases s, 1
  {
    match s
    case Let(x, e) =>
      LetFollows(x, e, st, k);
    case Assign(x, e) =>
      hide Tidy, LowerExpr, Readable, Without;
      var s1 := LowerExpr(e, st).value.0;
      AgreesSame(s1, LowerStmt(s, st).value, k.cells);
      ExprFollows(e, st, k);
      AssignKeeps(x, st.variables[x], k.cells);
    case ReturnStmt(e) =>
      hide Tidy, LowerExpr, Readable;
      var s1 := LowerExpr(e, st).value.0;
      AgreesSame(s1, LowerStmt(s, st).value, k.cells);
      ExprFollows(e, st, k);
    case While(c, body) =>
      WhileFollows(c, body, st, k);
    case If(c, a, b) =>
      IfFollows(c, a, b, st, k);
  }

  lemma AgreesSame(s: State, t: State, all: map<string, ValueId>)
    requires Agrees(t, all) && t.variables == s.variables && s.nextValue <= t.nextValue
    ensures Agrees(s, all)
  {
  }

  lemma {:induction false} WhileFollows(c: Expr, body: seq<Stmt>, st: State, k: Known)
    requires Tidy(st) && LowerStmt(While(c, body), st).Some? && OnceBlock(body, st.variables.Keys)
    requires Agrees(LowerStmt(While(c, body), st).value, k.cells)
    ensures Follow(While(c, body), st, k).Some? && Follow(While(c, body), st, k).value.cells == k.cells
    decreases body, 1
  {
    hide Tidy, Agrees, Binds, LowerExpr, LowerBlock, OnceBlock, FollowBlock, Readable, Without;
    var s1 := Emit(st.(nextLabel := st.nextLabel + 2), Mark(Label(Loop, st.nextLabel)));
    SameBinds(st, s1);
    ExprBinds(c, s1);
    var (s2, v) := LowerExpr(c, s1).value;
    var s3 := Emit(s2, JumpIfZero(v, Label(LoopEnd, st.nextLabel + 1)));
    SameBinds(s2, s3);
    BlockBinds(body, s3);
    var s4 := LowerBlock(body, s3).value;
    AgreesSame(s4, LowerStmt(While(c, body), st).value, k.cells);
    AgreesBefore(s3, s4, k.cells);
    AgreesSame(s2, s3, k.cells);
    ExprFollows(c, s1, k);
    BlockFollows(body, s3, k);
    assert Round(c, body, st, k) == FollowBlock(body, s3, k);
    assert Settle(c, body, st, k) == Some(k);
  }

  lemma {:induction false} IfFollows(c: Expr, a: seq<Stmt>, b: seq<Stmt>, st: State, k: Known)
    requires Tidy(st) && LowerStmt(If(c, a, b), st).Some? && Once(If(c, a, b), st.variables.Keys)
    requires Agrees(LowerStmt(If(c, a, b), st).value, k.cells)
    ensures Follow(If(c, a, b), st, k).Some? && Follow(If(c, a, b), st, k).value.cells == k.cells
    decreases If(c, a, b), 0
  {
    hide Tidy, Agrees, Binds, LowerExpr, LowerBlock, OnceBlock, DeclaredBlock, FollowBlock, Readable, Without, AlwaysReturns;
    ExprBinds(c, st);
    var (s1, v) := LowerExpr(c, st).value;
    var els, end := Label(Else, s1.nextLabel), Label(End, s1.nextLabel + 1);
    var s2 := Emit(s1.(nextLabel := s1.nextLabel + 2), JumpIfZero(v, if b == [] then end else els));
    SameBinds(s1, s2);
    BlockBinds(a, s2);
    var s3, t := LowerBlock(a, s2).value, LowerStmt(If(c, a, b), st).value;
    var s5 := Emit(Emit(s3, Jump(end)), Mark(els));
    if b == [] {
      AgreesSame(s3, t, k.cells);
    } else {
      SameBinds(s3, s5);
      BlockBinds(b, s5);
      AgreesSame(LowerBlock(b, s5).value, t, k.cells);
      BlockFollows(b, s5, k);
      AgreesBefore(s5, LowerBlock(b, s5).value, k.cells);
      AgreesSame(s3, s5, k.cells);
    }
    BlockFollows(a, s2, k);
    AgreesBefore(s2, s3, k.cells);
    AgreesSame(s1, s2, k.cells);
    ExprFollows(c, st, k);
  }

  lemma {:induction false} BlockFollows(body: seq<Stmt>, st: State, k: Known)
    requires Tidy(st) && LowerBlock(body, st).Some? && OnceBlock(body, st.variables.Keys)
    requires Agrees(LowerBlock(body, st).value, k.cells)
    ensures FollowBlock(body, st, k).Some? && FollowBlock(body, st, k).value.cells == k.cells
    decreases body, 0
  {
    hide Tidy, Agrees, Binds, LowerStmt, Follow, Once, Declared;
    if body != [] {
      StmtBinds(body[0], st);
      var s1 := LowerStmt(body[0], st).value;
      BlockBinds(body[1..], s1);
      AgreesBefore(s1, LowerBlock(body, st).value, k.cells);
      StmtFollows(body[0], st, k);
      BlockFollows(body[1..], s1, Follow(body[0], st, k).value);
    }
  }

  lemma {:induction false} ParamsTidy(params: seq<string>)
    requires Distinct(params)
    ensures Tidy(LowerParams(params))
  {
    ParamCounts(params);
    if params != [] {
      ParamCounts(params[..|params| - 1]);
      ParamsTidy(params[..|params| - 1]);
    }
  }

  lemma WellDeclaredIsTraceable(f: Function)
    requires WellDeclared(f) && Lower(f).Some?
    ensures Traceable(f)
  {
    hide LowerBlock, LowerParams, FollowBlock, OnceBlock, Distinct;
    var st := LowerParams(f.params);
    ParamsTidy(f.params);
    ParamsShape(f.params);
    BlockBinds(f.body, st);
    var t := LowerBlock(f.body, st).value;
    var k := Known(t.variables, {});
    assert Agrees(t, k.cells);
    BlockFollows(f.body, st, k);
    assert TracedFrom(f, k);
  }
}
