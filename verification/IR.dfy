/** The compiler's linear intermediate code: numbered values, labels and jumps.
    `Run` is its meaning: one cell per value, a read of a value not yet written is stuck. */
module IR {

  type I32 = x: int | -0x8000_0000 <= x < 0x8000_0000

  type ValueId = nat

  datatype Option<+T> = None | Some(value: T)

  datatype Op = Add | Sub | Mul | Div | Eq | Ne | Gt | Lt | Ge | Le

  datatype Prefix = Loop | LoopEnd | Else | End

  /** A label is a prefix followed by a number. */
  datatype Label = Label(prefix: Prefix, number: nat)

  datatype Inst =
    | Const(dst: ValueId, value: I32)
    | Binary(op: Op, dst: ValueId, left: ValueId, right: ValueId)
    | Param(dst: ValueId, index: nat)
    | Move(dst: ValueId, left: ValueId)
    | Mark(name: Label)
    | Jump(name: Label)
    | JumpIfZero(left: ValueId, name: Label)
    | Return(left: ValueId)

  // ---- 32-bit arithmetic ----

  function Wrap(x: int): I32
  {
    (x + 0x8000_0000) % 0x1_0000_0000 - 0x8000_0000
  }

  function Truth(b: bool): I32
  {
    if b then 1 else 0
  }

  /** Quotient rounded toward zero. */
  function TruncDiv(a: int, b: int): int
    requires b != 0
  {
    if (a < 0) == (b < 0) then (if a < 0 then (-a) / (-b) else a / b)
    else if a < 0 then -((-a) / b) else -(a / (-b))
  }

  /** The result of an operator, or None where the processor traps. */
  function Apply(op: Op, a: I32, b: I32): Option<I32>
  {
    match op
    case Add => Some(Wrap(a + b))
    case Sub => Some(Wrap(a - b))
    case Mul => Some(Wrap(a * b))
    case Div => if b == 0 || (a == -0x8000_0000 && b == -1) then None else Some(Wrap(TruncDiv(a, b)))
    case Eq => Some(Truth(a == b))
    case Ne => Some(Truth(a != b))
    case Gt => Some(Truth(a > b))
    case Lt => Some(Truth(a < b))
    case Ge => Some(Truth(a >= b))
    case Le => Some(Truth(a <= b))
  }

  /** The number of `x`'s class modulo 2^32. */
  predicate Congruent(r: int, x: int)
  {
    (r - x) % 0x1_0000_0000 == 0
  }

  /** `q` is the quotient rounded toward zero: the remainder is smaller than the divisor and
      does not have the opposite sign of the dividend. */
  predicate Quotient(a: int, b: int, q: int)
  {
    var rest := a - q * b;
    (if b > 0 then -b < rest < b else b < rest < -b) && (a >= 0 ==> rest >= 0) && (a <= 0 ==> rest <= 0)
  }

  /** Two's complement arithmetic, division that traps exactly where the quotient does not
      exist or does not fit, and comparisons that give 1 or 0. */
  lemma ApplyMeans(op: Op, a: I32, b: I32)
    ensures op.Add? ==> Apply(op, a, b).Some? && Congruent(Apply(op, a, b).value, a + b)
    ensures op.Sub? ==> Apply(op, a, b).Some? && Congruent(Apply(op, a, b).value, a - b)
    ensures op.Mul? ==> Apply(op, a, b).Some? && Congruent(Apply(op, a, b).value, a * b)
    ensures op.Div? ==> (Apply(op, a, b).Some? <==> exists q: I32 :: b != 0 && Quotient(a, b, q))
    ensures op.Div? && Apply(op, a, b).Some? ==> Quotient(a, b, Apply(op, a, b).value)
    ensures !(op.Add? || op.Sub? || op.Mul? || op.Div?) ==>
              Apply(op, a, b) == Some(if (op.Eq? && a == b) || (op.Ne? && a != b) || (op.Gt? && a > b) || (op.Lt? && a < b) ||
                                         (op.Ge? && a >= b) || (op.Le? && a <= b) then 1 else 0)
  {
    match op
    case Add => WrapCongruent(a + b);
    case Sub => WrapCongruent(a - b);
    case Mul => WrapCongruent(a * b);
    case Div =>
      if b != 0 {
        DivMeans(a, b);
      }
    case _ =>
  }

  lemma WrapCongruent(x: int)
    ensures Congruent(Wrap(x), x) && (-0x8000_0000 <= x < 0x8000_0000 ==> Wrap(x) == x)
  {
  }

  lemma DivMeans(a: I32, b: I32)
    requires b != 0
    ensures var r := Apply(Div, a, b);
            (r.Some? <==> exists q: I32 :: Quotient(a, b, q)) && (r.Some? ==> Quotient(a, b, r.value))
  {
    var q := TruncDiv(a, b);
    TruncQuotient(a, b);
    if a == -0x8000_0000 && b == -1 {
      forall p: I32
        ensures !Quotient(a, b, p)
      {
      }
    } else {
      QuotientFits(a, b, q);
      WrapCongruent(q);
      assert Wrap(q) == q;
    }
  }

  lemma TruncQuotient(a: int, b: int)
    requires b != 0
    ensures Quotient(a, b, TruncDiv(a, b))
  {
    hide Quotient;
    var x, y := if a < 0 then -a else a, if b < 0 then -b else b;
    PlainQuotient(x, y);
    if a < 0 && b < 0 {
      OtherDivisor(x, y, x / y);
      OtherDividend(x, b, -(x / y));
    } else if a < 0 {
      OtherDividend(x, y, x / y);
    } else if b < 0 {
      OtherDivisor(x, y, x / y);
    }
  }

  lemma PlainQuotient(x: nat, y: nat)
    requires y > 0
    ensures Quotient(x, y, x / y)
  {
    assert x - (x / y) * y == x % y;
  }

  lemma OtherDividend(a: int, b: int, q: int)
    requires Quotient(a, b, q)
    ensures Quotient(-a, b, -q)
  {
    assert (-q) * b == -(q * b);
  }

  lemma OtherDivisor(a: int, b: int, q: int)
    requires Quotient(a, b, q)
    ensures Quotient(a, -b, -q)
  {
    assert (-q) * (-b) == q * b;
  }

  lemma QuotientFits(a: I32, b: I32, q: int)
    requires b != 0 && Quotient(a, b, q) && !(a == -0x8000_0000 && b == -1)
    ensures -0x8000_0000 <= q < 0x8000_0000
  {
  }

  // ---- execution ----

  type Vals = map<ValueId, I32>

  datatype Status = At(pc: nat, vals: Vals) | Returned(value: I32) | Stuck | OffEnd

  /** Where a label stands: its first mark, or None. */
  function Find(code: seq<Inst>, name: Label): (r: Option<nat>)
    ensures r.Some? ==> r.value < |code| && code[r.value] == Mark(name)
    ensures r.None? ==> Mark(name) !in code
  {
    if code == [] then None
    else if code[0] == Mark(name) then Some(0)
    else
      match Find(code[1..], name)
      case None => None
      case Some(i) => Some(i + 1)
  }

  function Goto(code: seq<Inst>, name: Label, vals: Vals): Status
  {
    match Find(code, name)
    case None => Stuck
    case Some(target) => At(target, vals)
  }

  function Step(code: seq<Inst>, args: seq<I32>, pc: nat, vals: Vals): Status
  {
    if pc >= |code| then OffEnd
    else
      match code[pc]
      case Const(dst, value) => At(pc + 1, vals[dst := value])
      case Binary(op, dst, left, right) =>
        if left in vals && right in vals then
          match Apply(op, vals[left], vals[right])
          case None => Stuck
          case Some(v) => At(pc + 1, vals[dst := v])
        else Stuck
      case Param(dst, index) => if index < |args| then At(pc + 1, vals[dst := args[index]]) else Stuck
      case Move(dst, left) => if left in vals then At(pc + 1, vals[dst := vals[left]]) else Stuck
      case Mark(_) => At(pc + 1, vals)
      case Jump(name) => Goto(code, name, vals)
      case JumpIfZero(left, name) =>
        if left !in vals then Stuck
        else if vals[left] == 0 then Goto(code, name, vals)
        else At(pc + 1, vals)
      case Return(left) => if left in vals then Returned(vals[left]) else Stuck
  }

  function Run(code: seq<Inst>, args: seq<I32>, pc: nat, vals: Vals, steps: nat): Status
    decreases steps
  {
    if steps == 0 then At(pc, vals)
    else
      var s := Step(code, args, pc, vals);
      if s.At? then Run(code, args, s.pc, s.vals, steps - 1) else s
  }

  lemma {:induction false} RunAppends(code: seq<Inst>, args: seq<I32>, pc: nat, vals: Vals, m: nat, n: nat)
    requires Run(code, args, pc, vals, m).At?
    ensures var s := Run(code, args, pc, vals, m);
            Run(code, args, pc, vals, m + n) == Run(code, args, s.pc, s.vals, n)
    decreases m
  {
    hide Step;
    if m > 0 {
      var s := Step(code, args, pc, vals);
      RunAppends(code, args, s.pc, s.vals, m - 1, n);
    }
  }

  /** A run that has ended stays ended the same way. */
  lemma {:induction false} HaltIsStable(code: seq<Inst>, args: seq<I32>, pc: nat, vals: Vals, m: nat, n: nat)
    requires m <= n && !Run(code, args, pc, vals, m).At?
    ensures Run(code, args, pc, vals, n) == Run(code, args, pc, vals, m)
    decreases m
  {
    hide Step;
    var s := Step(code, args, pc, vals);
    if s.At? {
      HaltIsStable(code, args, s.pc, s.vals, m - 1, n - 1);
    }
  }

  /** No label is marked twice. */
  ghost predicate LabelsUnique(code: seq<Inst>)
  {
    forall i, j | 0 <= i < j < |code| && code[i].Mark? && code[j].Mark? :: code[i].name != code[j].name
  }

  lemma FindUnique(code: seq<Inst>, i: nat)
    requires LabelsUnique(code) && i < |code| && code[i].Mark?
    ensures Find(code, code[i].name) == Some(i)
  {
    var r := Find(code, code[i].name);
    assert Mark(code[i].name) in code;
    assert r.Some? && code[r.value] == code[i];
  }
}
