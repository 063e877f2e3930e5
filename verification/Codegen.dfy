/** Two-address x86-64 code for the intermediate code, and what it does.  A value lives in
    its register or in its stack slot; ebx, edi and r8d are scratch registers outside the
    allocator's pool.  The code of one instruction is a block: straight-line machine
    instructions and then at most one jump. */
module Codegen {
  import opened IR
  import opened RegAlloc

  // ---- the machine ----

  datatype Machine = Machine(regs: map<Reg, I32>, slots: map<nat, I32>, stack: seq<I32>, flags: (I32, I32))

  datatype MInst =
    | MovImm(value: I32, dst: Reg)
    | MovReg(src: Reg, dst: Reg)
    | LoadSlot(slot: nat, dst: Reg)
    | StoreSlot(src: Reg, slot: nat)
    | LoadArg(index: nat, dst: Reg)
    | Push(src: Reg)
    | Pop(dst: Reg)
    | PopSlot(slot: nat)
    | OpReg(op: Op, src: Reg, dst: Reg)
    | OpTop(op: Op, dst: Reg)
    | Drop
    | Compare(right: Reg, left: Reg)
    | Test(reg: Reg)
    | SetByte(op: Op, dst: Reg)
    | ZeroExtend(dst: Reg)

  datatype Exit = Fall | Goto(name: Label) | GotoIfZero(name: Label) | Ret

  datatype Block = Block(mark: Option<Label>, body: seq<MInst>, exit: Exit)

  datatype Program = Program(prologue: seq<MInst>, blocks: seq<Block>)

  /** Registers and slots hold some value before anything is written; it is arbitrary. */
  function GetReg(m: Machine, r: Reg): I32
  {
    if r in m.regs then m.regs[r] else 0
  }

  function GetSlot(m: Machine, s: nat): I32
  {
    if s in m.slots then m.slots[s] else 0
  }

  function SetReg(m: Machine, r: Reg, v: I32): Machine
  {
    m.(regs := m.regs[r := v])
  }

  function SetSlot(m: Machine, s: nat, v: I32): Machine
  {
    m.(slots := m.slots[s := v])
  }

  function Top(m: Machine): I32
  {
    if m.stack == [] then 0 else m.stack[|m.stack| - 1]
  }

  function Popped(m: Machine): Machine
  {
    if m.stack == [] then m else m.(stack := m.stack[..|m.stack| - 1])
  }

  function ApplyOr(op: Op, a: I32, b: I32): I32
  {
    match Apply(op, a, b)
    case None => a
    case Some(v) => v
  }

  /** One machine instruction; `rest` are the arguments passed on the caller's stack. */
  function Do(m: Machine, i: MInst, rest: seq<I32>): Machine
  {
    match i
    case MovImm(v, d) => SetReg(m, d, v)
    case MovReg(s, d) => SetReg(m, d, GetReg(m, s))
    case LoadSlot(s, d) => SetReg(m, d, GetSlot(m, s))
    case StoreSlot(r, s) => SetSlot(m, s, GetReg(m, r))
    case LoadArg(k, d) => SetReg(m, d, if k < |rest| then rest[k] else 0)
    case Push(r) => m.(stack := m.stack + [GetReg(m, r)])
    case Pop(d) => Popped(SetReg(m, d, Top(m)))
    case PopSlot(s) => Popped(SetSlot(m, s, Top(m)))
    case OpReg(op, s, d) => SetReg(m, d, ApplyOr(op, GetReg(m, d), GetReg(m, s)))
    case OpTop(op, d) => SetReg(m, d, ApplyOr(op, GetReg(m, d), Top(m)))
    case Drop => Popped(m)
    case Compare(r, l) => m.(flags := (GetReg(m, l), GetReg(m, r)))
    case Test(r) => m.(flags := (GetReg(m, r), 0))
    case SetByte(op, d) =>
      SetReg(m, d, Wrap(GetReg(m, d) - GetReg(m, d) % 256 + ApplyOr(op, m.flags.0, m.flags.1) % 256))
    case ZeroExtend(d) => SetReg(m, d, GetReg(m, d) % 256)
  }

  function DoAll(m: Machine, body: seq<MInst>, rest: seq<I32>): Machine
    decreases body
  {
    if body == [] then m else DoAll(Do(m, body[0], rest), body[1..], rest)
  }

  datatype MStatus = Running(pc: nat, m: Machine) | Result(value: I32) | Crashed

  function FindBlock(blocks: seq<Block>, name: Label): Option<nat>
  {
    if blocks == [] then None
    else if blocks[0].mark == Some(name) then Some(0)
    else
      match FindBlock(blocks[1..], name)
      case None => None
      case Some(i) => Some(i + 1)
  }

  function JumpTo(blocks: seq<Block>, name: Label, m: Machine): MStatus
  {
    match FindBlock(blocks, name)
    case None => Crashed
    case Some(pc) => Running(pc, m)
  }

  function MStep(blocks: seq<Block>, rest: seq<I32>, pc: nat, m: Machine): MStatus
  {
    if pc >= |blocks| then Crashed
    else
      var m1 := DoAll(m, blocks[pc].body, rest);
      match blocks[pc].exit
      case Fall => Running(pc + 1, m1)
      case Goto(name) => JumpTo(blocks, name, m1)
      case GotoIfZero(name) => if m1.flags.0 == m1.flags.1 then JumpTo(blocks, name, m1) else Running(pc + 1, m1)
      case Ret => Result(GetReg(m1, Eax))
  }

  function MRun(blocks: seq<Block>, rest: seq<I32>, pc: nat, m: Machine, steps: nat): MStatus
    decreases steps
  {
    if steps == 0 then Running(pc, m)
    else
      var s := MStep(blocks, rest, pc, m);
      if s.Running? then MRun(blocks, rest, s.pc, s.m, steps - 1) else s
  }

  // ---- emission ----

  predicate Housed(al: Allocation, v: ValueId)
  {
    v in al.registers || v in al.slots
  }

  /** The code that makes a value readable in a register, and that register. */
  function LoadRead(al: Allocation, v: ValueId, scratch: Reg): (seq<MInst>, Reg)
    requires Housed(al, v)
  {
    if v in al.registers then ([], al.registers[v]) else ([LoadSlot(al.slots[v], scratch)], scratch)
  }

  function WriteTarget(al: Allocation, v: ValueId, scratch: Reg): Reg
  {
    if v in al.registers then al.registers[v] else scratch
  }

  function StoreIfSpilled(al: Allocation, v: ValueId, scratch: Reg): seq<MInst>
    requires Housed(al, v)
  {
    if v in al.registers then [] else [StoreSlot(scratch, al.slots[v])]
  }

  /** Add, subtract and multiply.  When the destination is the register of the right operand
      and not of the left, the right operand is first staged on the stack. */
  function Arithmetic(op: Op, left: Reg, right: Reg, dest: Reg): seq<MInst>
  {
    if dest == right && dest != left then
      [Push(right), MovReg(left, dest), OpTop(op, dest), Drop]
    else if dest != left then
      [MovReg(left, dest), OpReg(op, right, dest)]
    else
      [OpReg(op, right, dest)]
  }

  predicate IsComparison(op: Op)
  {
    !(op.Add? || op.Sub? || op.Mul? || op.Div?)
  }

  function EmitBinary(al: Allocation, op: Op, dst: ValueId, l: ValueId, r: ValueId): seq<MInst>
    requires Housed(al, dst) && Housed(al, l) && Housed(al, r)
  {
    var (loadLeft, left) := LoadRead(al, l, Ebx);
    var (loadRight, right) := LoadRead(al, r, Edi);
    var dest := WriteTarget(al, dst, R8d);
    loadLeft + loadRight +
    (if IsComparison(op) then [Compare(right, left), SetByte(op, dest), ZeroExtend(dest)]
     else Arithmetic(op, left, right, dest)) +
    StoreIfSpilled(al, dst, R8d)
  }

  const ABI: seq<Reg> := [Edi, Esi, Edx, Ecx]

  predicate Supported(al: Allocation, inst: Inst)
  {
    (forall v | v in Touched(inst) :: Housed(al, v)) && !(inst.Binary? && inst.op.Div?)
  }

  function EmitInst(al: Allocation, inst: Inst): Block
    requires Supported(al, inst)
  {
    match inst
    case Const(d, v) => Block(None, [MovImm(v, WriteTarget(al, d, Ebx))] + StoreIfSpilled(al, d, Ebx), Fall)
    case Binary(op, d, l, r) => Block(None, EmitBinary(al, op, d, l, r), Fall)
    case Param(d, i) =>
      if i < |ABI| then Block(None, [], Fall)
      else Block(None, [LoadArg(i - |ABI|, WriteTarget(al, d, Ebx))] + StoreIfSpilled(al, d, Ebx), Fall)
    case Move(d, l) =>
      var (load, src) := LoadRead(al, l, Ebx);
      var dest := WriteTarget(al, d, Ebx);
      Block(None, load + (if dest != src then [MovReg(src, dest)] else []) + StoreIfSpilled(al, d, Ebx), Fall)
    case Mark(name) => Block(Some(name), [], Fall)
    case Jump(name) => Block(None, [], Goto(name))
    case JumpIfZero(l, name) =>
      var (load, src) := LoadRead(al, l, Ebx);
      Block(None, load + [Test(src)], GotoIfZero(name))
    case Return(l) =>
      var (load, src) := LoadRead(al, l, Ebx);
      Block(None, load + (if src != Eax then [MovReg(src, Eax)] else []), Ret)
  }

  function EmitAll(al: Allocation, code: seq<Inst>): (blocks: seq<Block>)
    requires forall i | 0 <= i < |code| :: Supported(al, code[i])
    ensures |blocks| == |code| && forall i | 0 <= i < |code| :: blocks[i] == EmitInst(al, code[i])
  {
    if code == [] then [] else EmitAll(al, code[..|code| - 1]) + [EmitInst(al, code[|code| - 1])]
  }

  /** Pushes the register arguments, last first. */
  function PushArgs(count: nat): seq<MInst>
    requires count <= |ABI|
  {
    if count == 0 then [] else [Push(ABI[count - 1])] + PushArgs(count - 1)
  }

  function PopInto(al: Allocation, v: ValueId): MInst
    requires Housed(al, v)
  {
    if v in al.registers then Pop(al.registers[v]) else PopSlot(al.slots[v])
  }

  /** Pops the pushed arguments into the homes of the first `count` destinations. */
  function PopArgs(al: Allocation, dsts: seq<ValueId>): seq<MInst>
    requires forall v | v in dsts :: Housed(al, v)
  {
    if dsts == [] then [] else [PopInto(al, dsts[0])] + PopArgs(al, dsts[1..])
  }

  function RegisterParams(paramCount: nat): nat
  {
    if paramCount < |ABI| then paramCount else |ABI|
  }

  function Dests(code: seq<Inst>, n: nat): (dsts: seq<ValueId>)
    requires n <= |code| && forall i | 0 <= i < n :: code[i].Param?
    ensures |dsts| == n && forall i | 0 <= i < n :: dsts[i] == code[i].dst
  {
    seq(n, i requires 0 <= i < n => code[i].dst)
  }

  /** The first `paramCount` instructions are the parameters, in order, and no other is. */
  ghost predicate ParamsFirst(code: seq<Inst>, paramCount: nat)
  {
    paramCount <= |code| &&
    (forall i | 0 <= i < |code| :: code[i].Param? <==> i < paramCount) &&
    (forall i | 0 <= i < paramCount :: code[i].index == i) &&
    (forall i, j | 0 <= i < j < paramCount :: code[i].dst != code[j].dst)
  }

  ghost function Prologue(al: Allocation, code: seq<Inst>, paramCount: nat): seq<MInst>
    requires ParamsFirst(code, paramCount) && forall i | 0 <= i < |code| :: Supported(al, code[i])
  {
    var n := RegisterParams(paramCount);
    DestsHoused(al, code, n);
    PushArgs(n) + PopArgs(al, Dests(code, n))
  }

  lemma DestsHoused(al: Allocation, code: seq<Inst>, n: nat)
    requires n <= |code| && forall i | 0 <= i < n :: code[i].Param? && Supported(al, code[i])
    ensures forall v | v in Dests(code, n) :: Housed(al, v)
  {
    forall i | 0 <= i < n
      ensures Housed(al, Dests(code, n)[i])
    {
      assert code[i].dst in Touched(code[i]);
    }
  }

  ghost function ProgramOf(al: Allocation, code: seq<Inst>, paramCount: nat): Program
    requires ParamsFirst(code, paramCount) && forall i | 0 <= i < |code| :: Supported(al, code[i])
  {
    Program(Prologue(al, code, paramCount), EmitAll(al, code))
  }

  lemma {:induction false} PopArgsAppend(al: Allocation, dsts: seq<ValueId>, v: ValueId)
    requires Housed(al, v) && forall w | w in dsts :: Housed(al, w)
    ensures PopArgs(al, dsts + [v]) == PopArgs(al, dsts) + [PopInto(al, v)]
  {
    if dsts == [] {
      assert PopArgs(al, []) == [] && dsts + [v] == [v] && [v][1..] == [];
    } else {
      assert (dsts + [v])[1..] == dsts[1..] + [v];
      PopArgsAppend(al, dsts[1..], v);
    }
  }

  /** Emits the whole function: prologue, then one block per instruction. */
  method Generate(code: seq<Inst>, al: Allocation, paramCount: nat) returns (program: Program)
    requires ParamsFirst(code, paramCount) && forall i | 0 <= i < |code| :: Supported(al, code[i])
    ensures program == ProgramOf(al, code, paramCount)
  {
    var n := RegisterParams(paramCount);
    var out: seq<MInst> := [];
    var p := n;
    while p > 0
      invariant 0 <= p <= n
      invariant out + PushArgs(p) == PushArgs(n)
    {
      out := out + [Push(ABI[p - 1])];
      p := p - 1;
    }
    ghost var pushed := out;
    DestsHoused(al, code, n);
    p := 0;
    while p < n
      invariant 0 <= p <= n
      invariant out == pushed + PopArgs(al, Dests(code, n)[..p])
    {
      assert Dests(code, n)[..p + 1] == Dests(code, n)[..p] + [code[p].dst];
      assert Supported(al, code[p]);
      PopArgsAppend(al, Dests(code, n)[..p], code[p].dst);
      out := out + [PopInto(al, code[p].dst)];
      p := p + 1;
    }
    assert Dests(code, n)[..p] == Dests(code, n);
    var blocks: seq<Block> := [];
    var i := 0;
    while i < |code|
      invariant 0 <= i <= |code|
      invariant blocks == EmitAll(al, code[..i])
    {
      assert code[..i + 1][..i] == code[..i];
      blocks := blocks + [EmitInst(al, code[i])];
      i := i + 1;
    }
    assert code[..i] == code;
    program := Program(out, blocks);
  }
}
