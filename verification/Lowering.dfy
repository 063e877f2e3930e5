/** OGLang function bodies over i32 and their lowering to intermediate code.
    The functions pass the lowerer's state along; `IRLowerer` is the object whose
    methods append instructions and bump counters in place, proved against them. */
module Lowering {
  import opened IR

  datatype Expr =
    | Integer(value: I32)
    | Variable(name: string)
    | Negate(operand: Expr)
    | BinaryExpr(op: Op, left: Expr, right: Expr)

  datatype Stmt =
    | Let(name: string, init: Expr)
    | Assign(name: string, value: Expr)
    | If(cond: Expr, thenBody: seq<Stmt>, elseBody: seq<Stmt>)
    | While(cond: Expr, body: seq<Stmt>)
    | ReturnStmt(value: Expr)

  datatype Function = Function(params: seq<string>, body: seq<Stmt>)

  // ---- meaning of the source ----

  type Env = map<string, I32>

  function Eval(e: Expr, env: Env): Option<I32>
  {
    match e
    case Integer(v) => Some(v)
    case Variable(x) => if x in env then Some(env[x]) else None
    case Negate(a) =>
      (match Eval(a, env)
       case None => None
       case Some(v) => Apply(Sub, 0, v))
    case BinaryExpr(op, a, b) =>
      match (Eval(a, env), Eval(b, env))
      case (Some(v), Some(w)) => Apply(op, v, w)
      case _ => None
  }

  /** How a statement or block ends.  `NoFuel` means the loop budget ran out. */
  datatype Outcome = Done(env: Env) | Value(value: I32) | Fault | NoFuel

  function Exec(s: Stmt, env: Env, fuel: nat): Outcome
    decreases fuel, s, 1
  {
    match s
    case Let(x, e) =>
      (match Eval(e, env)
       case None => Fault
       case Some(v) => Done(env[x := v]))
    case Assign(x, e) =>
      (match Eval(e, env)
       case None => Fault
       case Some(v) => Done(env[x := v]))
    case If(c, a, b) =>
      (match Eval(c, env)
       case None => Fault
       case Some(v) => if v != 0 then ExecBlock(a, env, fuel) else ExecBlock(b, env, fuel))
    case While(c, body) =>
      if fuel == 0 then NoFuel
      else
        (match Eval(c, env)
         case None => Fault
         case Some(v) =>
           if v == 0 then Done(env)
           else
             var r := ExecBlock(body, env, fuel - 1);
             if r.Done? then Exec(s, r.env, fuel - 1) else r)
    case ReturnStmt(e) =>
      match Eval(e, env)
      case None => Fault
      case Some(v) => Value(v)
  }

  function ExecBlock(body: seq<Stmt>, env: Env, fuel: nat): Outcome
    decreases fuel, body, 0
  {
    if body == [] then Done(env)
    else
      var r := Exec(body[0], env, fuel);
      if r.Done? then ExecBlock(body[1..], r.env, fuel) else r
  }

  // ---- lowering ----

  datatype State = State(code: seq<Inst>, nextValue: nat, nextLabel: nat, variables: map<string, ValueId>)

  /** None is the exception the lowerer throws on an unknown variable. */
  function LowerExpr(e: Expr, st: State): Option<(State, ValueId)>
  {
    match e
    case Integer(v) =>
      Some((st.(code := st.code + [Const(st.nextValue, v)], nextValue := st.nextValue + 1), st.nextValue))
    case Variable(x) =>
      if x in st.variables then Some((st, st.variables[x])) else None
    case Negate(a) =>
      (match LowerExpr(a, st)
       case None => None
       case Some((s1, operand)) =>
         var zero, dst := s1.nextValue, s1.nextValue + 1;
         Some((s1.(code := s1.code + [Const(zero, 0)] + [Binary(Sub, dst, zero, operand)],
                   nextValue := s1.nextValue + 2), dst)))
    case BinaryExpr(op, a, b) =>
      match LowerExpr(a, st)
      case None => None
      case Some((s1, left)) =>
        match LowerExpr(b, s1)
        case None => None
        case Some((s2, right)) =>
          Some((s2.(code := s2.code + [Binary(op, s2.nextValue, left, right)],
                    nextValue := s2.nextValue + 1), s2.nextValue))
  }

  function Emit(st: State, inst: Inst): State
  {
    st.(code := st.code + [inst])
  }

  function LowerStmt(s: Stmt, st: State): Option<State>
    decreases s, 1
  {
    match s
    case Let(x, e) =>
      (match LowerExpr(e, st)
       case None => None
       case Some((s1, v)) => Some(s1.(variables := s1.variables[x := v])))
    case Assign(x, e) =>
      if x !in st.variables then None
      else
        (match LowerExpr(e, st)
         case None => None
         case Some((s1, v)) => Some(Emit(s1, Move(st.variables[x], v))))
    case While(c, body) =>
      var start, end := Label(Loop, st.nextLabel), Label(LoopEnd, st.nextLabel + 1);
      var s1 := Emit(st.(nextLabel := st.nextLabel + 2), Mark(start));
      (match LowerExpr(c, s1)
       case None => None
       case Some((s2, v)) =>
         match LowerBlock(body, Emit(s2, JumpIfZero(v, end)))
         case None => None
         case Some(s3) => Some(Emit(Emit(s3, Jump(start)), Mark(end))))
    case ReturnStmt(e) =>
      (match LowerExpr(e, st)
       case None => None
       case Some((s1, v)) => Some(Emit(s1, Return(v))))
    case If(c, a, b) =>
      match LowerExpr(c, st)
      case None => None
      case Some((s1, v)) =>
        var els, end := Label(Else, s1.nextLabel), Label(End, s1.nextLabel + 1);
        var s2 := Emit(s1.(nextLabel := s1.nextLabel + 2), JumpIfZero(v, if b == [] then end else els));
        match LowerBlock(a, s2)
        case None => None
        case Some(s3) =>
          if b == [] then Some(Emit(s3, Mark(end)))
          else
            match LowerBlock(b, Emit(Emit(s3, Jump(end)), Mark(els)))
            case None => None
            case Some(s4) => Some(Emit(s4, Mark(end)))
  }

  function LowerBlock(body: seq<Stmt>, st: State): Option<State>
    decreases body, 0
  {
    if body == [] then Some(st)
    else
      match LowerStmt(body[0], st)
      case None => None
      case Some(s1) => LowerBlock(body[1..], s1)
  }

  /** Parameters take the first value numbers, in order. */
  function LowerParams(params: seq<string>): State
  {
    if params == [] then State([], 0, 0, map[])
    else
      var st := LowerParams(params[..|params| - 1]);
      State(st.code + [Param(st.nextValue, |params| - 1)], st.nextValue + 1, st.nextLabel,
            st.variables[params[|params| - 1] := st.nextValue])
  }

  function Lower(f: Function): Option<seq<Inst>>
  {
    match LowerBlock(f.body, LowerParams(f.params))
    case None => None
    case Some(st) => Some(st.code)
  }

  // ---- the object ----

  class IRLowerer {
    var code: seq<Inst>
    var nextValue: nat
    var nextLabel: nat
    var variables: map<string, ValueId>

    ghost function View(): State
      reads this
    {
      State(code, nextValue, nextLabel, variables)
    }

    constructor ()
      ensures View() == State([], 0, 0, map[])
    {
      code, nextValue, nextLabel, variables := [], 0, 0, map[];
    }

    method FreshLabel(prefix: Prefix) returns (name: Label)
      modifies this`nextLabel
      ensures name == Label(prefix, old(nextLabel)) && nextLabel == old(nextLabel) + 1
    {
      name := Label(prefix, nextLabel);
      nextLabel := nextLabel + 1;
    }

    method FreshValue() returns (v: ValueId)
      modifies this`nextValue
      ensures v == old(nextValue) && nextValue == old(nextValue) + 1
    {
      v := nextValue;
      nextValue := nextValue + 1;
    }

    method Push(inst: Inst)
      modifies this`code
      ensures code == old(code) + [inst]
    {
      code := code + [inst];
    }

    /** Returns None where the original throws; the state is then abandoned. */
    method Expression(e: Expr) returns (r: Option<ValueId>)
      modifies this
      ensures r.None? <==> LowerExpr(e, old(View())).None?
      ensures r.Some? ==> LowerExpr(e, old(View())) == Some((View(), r.value))
      decreases e
    {
      match e
      case Integer(value) =>
        var dst := FreshValue();
        Push(Const(dst, value));
        r := Some(dst);
      case Variable(x) =>
        r := if x in variables then Some(variables[x]) else None;
      case Negate(a) =>
        var operand := Expression(a);
        if operand.None? {
          return None;
        }
        var zero := FreshValue();
        Push(Const(zero, 0));
        var dst := FreshValue();
        Push(Binary(Sub, dst, zero, operand.value));
        r := Some(dst);
      case BinaryExpr(op, a, b) =>
        var left := Expression(a);
        if left.None? {
          return None;
        }
        var right := Expression(b);
        if right.None? {
          return None;
        }
        var dst := FreshValue();
        Push(Binary(op, dst, left.value, right.value));
        r := Some(dst);
    }

    method Statement(s: Stmt) returns (ok: bool)
      modifies this
      ensures ok <==> LowerStmt(s, old(View())).Some?
      ensures ok ==> LowerStmt(s, old(View())) == Some(View())
      decreases s, 1
    {
      match s
      case Let(x, e) =>
        var v := Expression(e);
        if v.None? {
          return false;
        }
        variables := variables[x := v.value];
        ok := true;
      case Assign(x, e) =>
        if x !in variables {
          return false;
        }
        var target := variables[x];
        var v := Expression(e);
        if v.None? {
          return false;
        }
        Push(Move(target, v.value));
        ok := true;
      case While(c, body) =>
        var start := FreshLabel(Loop);
        var end := FreshLabel(LoopEnd);
        Push(Mark(start));
        var v := Expression(c);
        if v.None? {
          return false;
        }
        Push(JumpIfZero(v.value, end));
        ok := Block(body);
        if !ok {
          return false;
        }
        Push(Jump(start));
        Push(Mark(end));
      case ReturnStmt(e) =>
        var v := Expression(e);
        if v.None? {
          return false;
        }
        Push(Return(v.value));
        ok := true;
      case If(c, a, b) =>
        var v := Expression(c);
        if v.None? {
          return false;
        }
        var els := FreshLabel(Else);
        var end := FreshLabel(End);
        Push(JumpIfZero(v.value, if b == [] then end else els));
        ok := Block(a);
        if !ok {
          return false;
        }
        if b != [] {
          Push(Jump(end));
          Push(Mark(els));
          ok := Block(b);
          if !ok {
            return false;
          }
        }
        Push(Mark(end));
    }

    method Block(body: seq<Stmt>) returns (ok: bool)
      modifies this
      ensures ok <==> LowerBlock(body, old(View())).Some?
      ensures ok ==> LowerBlock(body, old(View())) == Some(View())
      decreases body, 0
    {
      var i := 0;
      while i < |body|
        invariant 0 <= i <= |body|
        invariant LowerBlock(body, old(View())) == LowerBlock(body[i..], View())
      {
        assert body[i..][0] == body[i] && body[i..][1..] == body[i + 1..];
        var done := Statement(body[i]);
        if !done {
          return false;
        }
        i := i + 1;
      }
      ok := true;
    }
  }

  method LowerFunction(f: Function) returns (r: Option<seq<Inst>>)
    ensures r == Lower(f)
  {
    var lowerer := new IRLowerer();
    var i := 0;
    while i < |f.params|
      invariant 0 <= i <= |f.params|
      invariant lowerer.View() == LowerParams(f.params[..i])
    {
      assert f.params[..i + 1][..i] == f.params[..i];
      var dst := lowerer.FreshValue();
      lowerer.Push(Param(dst, i));
      lowerer.variables := lowerer.variables[f.params[i] := dst];
      i := i + 1;
    }
    assert f.params[..i] == f.params;
    var ok := lowerer.Block(f.body);
    r := if ok then Some(lowerer.code) else None;
  }
}
