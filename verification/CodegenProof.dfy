/** Register allocation and emission preserve meaning: running with values in their
    registers and slots gives the result of running with one cell per value. */
module CodegenProof {
  import opened IR
  import opened RegAlloc
  import opened Codegen

  // ---- homes ----

  datatype Loc = InReg(reg: Reg) | InSlot(slot: nat)

  ghost function Home(al: Allocation, v: ValueId): Loc
    requires Housed(al, v)
  {
    if v in al.registers then InReg(al.registers[v]) else InSlot(al.slots[v])
  }

  ghost function ReadLoc(m: Machine, loc: Loc): I32
  {
    match loc
    case InReg(r) => GetReg(m, r)
    case InSlot(s) => GetSlot(m, s)
  }

  predicate Pool(r: Reg)
  {
    r.Eax? || r.Ecx? || r.Edx? || r.Esi?
  }

  ghost predicate PoolOnly(al: Allocation)
  {
    forall v | v in al.registers :: Pool(al.registers[v])
  }

  /** Pool registers and slots other than `loc` are untouched and the stack is balanced. */
  ghost predicate OnlyChanges(m: Machine, m': Machine, loc: Loc)
  {
    m'.stack == m.stack &&
    (forall r: Reg | Pool(r) && loc != InReg(r) :: GetReg(m', r) == GetReg(m, r)) &&
    (forall s: nat | loc != InSlot(s) :: GetSlot(m', s) == GetSlot(m, s))
  }

  /** Nothing a value can live in has changed. */
  ghost predicate SameHomes(m: Machine, m': Machine)
  {
    m'.stack == m.stack &&
    (forall r: Reg | Pool(r) :: GetReg(m', r) == GetReg(m, r)) &&
    (forall s: nat :: GetSlot(m', s) == GetSlot(m, s))
  }

  lemma {:induction false} DoAllAppend(m: Machine, a: seq<MInst>, b: seq<MInst>, rest: seq<I32>)
    ensures DoAll(m, a + b, rest) == DoAll(DoAll(m, a, rest), b, rest)
    decreases |a|
  {
    if a == [] {
      assert a + b == b;
    } else {
      assert (a + b)[1..] == a[1..] + b;
      DoAllAppend(Do(m, a[0], rest), a[1..], b, rest);
    }
  }

  lemma DoOne(m: Machine, i: MInst, rest: seq<I32>)
    ensures DoAll(m, [i], rest) == Do(m, i, rest)
  {
    assert [i][1..] == [];
  }

  lemma DoTwo(m: Machine, i: MInst, j: MInst, rest: seq<I32>)
    ensures DoAll(m, [i, j], rest) == Do(Do(m, i, rest), j, rest)
  {
    hide Do;
    assert [i, j][1..] == [j];
    DoOne(Do(m, i, rest), j, rest);
  }

  // ---- pieces of the emitted code ----

  lemma LoadEffect(al: Allocation, m: Machine, v: ValueId, scratch: Reg, rest: seq<I32>)
    requires Housed(al, v) && PoolOnly(al) && !Pool(scratch)
    ensures var (load, reg) := LoadRead(al, v, scratch);
            var m' := DoAll(m, load, rest);
            GetReg(m', reg) == ReadLoc(m, Home(al, v)) && SameHomes(m, m') && (Pool(reg) || reg == scratch) &&
            forall r: Reg | r != scratch :: GetReg(m', r) == GetReg(m, r)
  {
    if v !in al.registers {
      DoOne(m, LoadSlot(al.slots[v], scratch), rest);
    }
  }

  lemma StoreEffect(al: Allocation, m0: Machine, m: Machine, v: ValueId, scratch: Reg, rest: seq<I32>)
    requires Housed(al, v) && PoolOnly(al) && !Pool(scratch)
    requires m.stack == m0.stack && (forall s: nat :: GetSlot(m, s) == GetSlot(m0, s))
    requires forall r: Reg | Pool(r) && r != WriteTarget(al, v, scratch) :: GetReg(m, r) == GetReg(m0, r)
    ensures var m' := DoAll(m, StoreIfSpilled(al, v, scratch), rest);
            ReadLoc(m', Home(al, v)) == GetReg(m, WriteTarget(al, v, scratch)) && OnlyChanges(m0, m', Home(al, v))
  {
    if v !in al.registers {
      DoOne(m, StoreSlot(scratch, al.slots[v]), rest);
    }
  }

  /** `dest` now holds `v` and no other register, no slot and not the stack has changed. */
  ghost predicate Computes(m: Machine, m': Machine, dest: Reg, v: I32)
  {
    GetReg(m', dest) == v && m'.stack == m.stack && m'.slots == m.slots &&
    forall r: Reg | r != dest :: GetReg(m', r) == GetReg(m, r)
  }

  /** Two-address arithmetic computes left op right, whichever registers coincide. */
  lemma ArithmeticEffect(m: Machine, op: Op, left: Reg, right: Reg, dest: Reg, rest: seq<I32>)
    ensures Computes(m, DoAll(m, Arithmetic(op, left, right, dest), rest), dest,
                     ApplyOr(op, GetReg(m, left), GetReg(m, right)))
  {
    hide ApplyOr, DoAll, Computes, Do, GetReg;
    if dest == right && dest != left {
      StagedEffect(m, op, left, right, rest);
    } else if dest != left {
      PlainEffect(m, op, left, right, dest, rest);
    } else {
      InPlaceEffect(m, op, left, right, rest);
    }
  }

  lemma InPlaceEffect(m: Machine, op: Op, left: Reg, right: Reg, rest: seq<I32>)
    ensures Computes(m, DoAll(m, [OpReg(op, right, left)], rest), left, ApplyOr(op, GetReg(m, left), GetReg(m, right)))
  {
    DoOne(m, OpReg(op, right, left), rest);
  }

  lemma PlainEffect(m: Machine, op: Op, left: Reg, right: Reg, dest: Reg, rest: seq<I32>)
    requires dest != left && dest != right
    ensures Computes(m, DoAll(m, [MovReg(left, dest), OpReg(op, right, dest)], rest), dest,
                     ApplyOr(op, GetReg(m, left), GetReg(m, right)))
  {
    hide ApplyOr, DoAll;
    DoTwo(m, MovReg(left, dest), OpReg(op, right, dest), rest);
  }

  lemma StagedEffect(m: Machine, op: Op, left: Reg, right: Reg, rest: seq<I32>)
    requires left != right
    ensures Computes(m, DoAll(m, [Push(right), MovReg(left, right), OpTop(op, right), Drop], rest), right,
                     ApplyOr(op, GetReg(m, left), GetReg(m, right)))
  {
    hide ApplyOr, DoAll, Computes;
    var first, second := [Push(right), MovReg(left, right)], [OpTop(op, right), Drop];
    assert [Push(right), MovReg(left, right), OpTop(op, right), Drop] == first + second;
    DoAllAppend(m, first, second, rest);
    DoTwo(m, Push(right), MovReg(left, right), rest);
    var a, b := GetReg(m, left), GetReg(m, right);
    var m2 := m.(stack := m.stack + [b], regs := m.regs[right := a]);
    assert DoAll(m, first, rest) == m2;
    DoTwo(m2, OpTop(op, right), Drop, rest);
    assert Top(m2) == b;
    var m3 := SetReg(m2, right, ApplyOr(op, a, b));
    assert Popped(m3).stack == m.stack;
    StagedRegisters(m, m3, left, right, ApplyOr(op, a, b));
  }

  lemma StagedRegisters(m: Machine, m3: Machine, left: Reg, right: Reg, v: I32)
    requires m3.regs == m.regs[right := GetReg(m, left)][right := v] && m3.slots == m.slots
    requires Popped(m3).stack == m.stack
    ensures Computes(m, Popped(m3), right, v)
  {
  }

  lemma ComparisonEffect(m: Machine, op: Op, left: Reg, right: Reg, dest: Reg, rest: seq<I32>)
    requires IsComparison(op)
    ensures var m' := DoAll(m, [Compare(right, left), SetByte(op, dest), ZeroExtend(dest)], rest);
            GetReg(m', dest) == ApplyOr(op, GetReg(m, left), GetReg(m, right)) &&
            m'.stack == m.stack && m'.slots == m.slots &&
            forall r: Reg | r != dest :: GetReg(m', r) == GetReg(m, r)
  {
    var a, b := GetReg(m, left), GetReg(m, right);
    var m1 := Do(m, Compare(right, left), rest);
    var m2 := Do(m1, SetByte(op, dest), rest);
    assert [Compare(right, left), SetByte(op, dest), ZeroExtend(dest)] ==
           [Compare(right, left)] + [SetByte(op, dest), ZeroExtend(dest)];
    DoAllAppend(m, [Compare(right, left)], [SetByte(op, dest), ZeroExtend(dest)], rest);
    DoOne(m, Compare(right, left), rest);
    DoTwo(m1, SetByte(op, dest), ZeroExtend(dest), rest);
    ComparisonIsBit(op, a, b);
    hide ApplyOr;
    LowByte(GetReg(m, dest), ApplyOr(op, a, b));
  }

  /** Setting the low byte to 0 or 1 and zero-extending it leaves just that bit. */
  lemma LowByte(x: I32, bit: I32)
    requires bit == 0 || bit == 1
    ensures Wrap(x - x % 256 + bit % 256) % 256 == bit
  {
    var y := x - x % 256 + bit;
    assert y % 256 == bit;
    assert Wrap(y) == y;
  }

  lemma ComparisonIsBit(op: Op, a: I32, b: I32)
    requires IsComparison(op)
    ensures ApplyOr(op, a, b) == 0 || ApplyOr(op, a, b) == 1
  {
  }

  lemma BinaryEffect(al: Allocation, op: Op, d: ValueId, l: ValueId, r: ValueId, m: Machine, rest: seq<I32>)
    requires PoolOnly(al) && Housed(al, d) && Housed(al, l) && Housed(al, r)
    ensures var m' := DoAll(m, EmitBinary(al, op, d, l, r), rest);
            ReadLoc(m', Home(al, d)) == ApplyOr(op, ReadLoc(m, Home(al, l)), ReadLoc(m, Home(al, r))) &&
            OnlyChanges(m, m', Home(al, d))
  {
    hide ApplyOr, DoAll, Arithmetic, PoolOnly, ReadLoc, Home, StoreIfSpilled;
    var (loadLeft, left) := LoadRead(al, l, Ebx);
    var (loadRight, right) := LoadRead(al, r, Edi);
    var dest := WriteTarget(al, d, R8d);
    var body := if IsComparison(op) then [Compare(right, left), SetByte(op, dest), ZeroExtend(dest)]
                else Arithmetic(op, left, right, dest);
    var store := StoreIfSpilled(al, d, R8d);
    LoadEffect(al, m, l, Ebx, rest);
    var m1 := DoAll(m, loadLeft, rest);
    LoadEffect(al, m1, r, Edi, rest);
    SameRead(m, m1, al, r);
    var m2 := DoAll(m1, loadRight, rest);
    assert GetReg(m2, left) == ReadLoc(m, Home(al, l)) && GetReg(m2, right) == ReadLoc(m, Home(al, r));
    if IsComparison(op) {
      ComparisonEffect(m2, op, left, right, dest, rest);
    } else {
      ArithmeticEffect(m2, op, left, right, dest, rest);
    }
    var m3 := DoAll(m2, body, rest);
    StoreEffect(al, m, m3, d, R8d, rest);
    DoAllAppend(m, loadLeft + loadRight + body, store, rest);
    DoAllAppend(m, loadLeft + loadRight, body, rest);
    DoAllAppend(m, loadLeft, loadRight, rest);
  }

  lemma SameRead(m: Machine, m': Machine, al: Allocation, v: ValueId)
    requires SameHomes(m, m') && PoolOnly(al) && Housed(al, v)
    ensures ReadLoc(m', Home(al, v)) == ReadLoc(m, Home(al, v))
  {
  }

  /** An instruction that writes `d` the value of one register, with any scratch register. */
  lemma WriteEffect(al: Allocation, d: ValueId, m: Machine, first: MInst, v: I32, rest: seq<I32>)
    requires PoolOnly(al) && Housed(al, d)
    requires Do(m, first, rest) == SetReg(m, WriteTarget(al, d, Ebx), v)
    ensures var m' := DoAll(m, [first] + StoreIfSpilled(al, d, Ebx), rest);
            ReadLoc(m', Home(al, d)) == v && OnlyChanges(m, m', Home(al, d))
  {
    DoAllAppend(m, [first], StoreIfSpilled(al, d, Ebx), rest);
    DoOne(m, first, rest);
    StoreEffect(al, m, Do(m, first, rest), d, Ebx, rest);
  }

  lemma MoveEffect(al: Allocation, d: ValueId, l: ValueId, m: Machine, rest: seq<I32>)
    requires PoolOnly(al) && Housed(al, d) && Housed(al, l)
    ensures var m' := DoAll(m, EmitInst(al, Move(d, l)).body, rest);
            ReadLoc(m', Home(al, d)) == ReadLoc(m, Home(al, l)) && OnlyChanges(m, m', Home(al, d))
  {
    hide DoAll, ReadLoc, Home, PoolOnly, StoreIfSpilled, SameHomes;
    var (load, src) := LoadRead(al, l, Ebx);
    var dest := WriteTarget(al, d, Ebx);
    var copy := if dest != src then [MovReg(src, dest)] else [];
    LoadEffect(al, m, l, Ebx, rest);
    var m1 := DoAll(m, load, rest);
    var m2 := DoAll(m1, copy, rest);
    CopyEffect(m1, src, dest, rest);
    SameHomesFacts(m, m1);
    StoreEffect(al, m, m2, d, Ebx, rest);
    DoAllAppend(m, load + copy, StoreIfSpilled(al, d, Ebx), rest);
    DoAllAppend(m, load, copy, rest);
  }

  lemma SameHomesFacts(m: Machine, m': Machine)
    requires SameHomes(m, m')
    ensures m'.stack == m.stack && (forall s: nat :: GetSlot(m', s) == GetSlot(m, s))
    ensures forall r: Reg | Pool(r) :: GetReg(m', r) == GetReg(m, r)
  {
  }

  lemma CopyEffect(m: Machine, src: Reg, dest: Reg, rest: seq<I32>)
    ensures var m' := DoAll(m, if dest != src then [MovReg(src, dest)] else [], rest);
            GetReg(m', dest) == GetReg(m, src) && m'.stack == m.stack && m'.slots == m.slots &&
            forall r: Reg | r != dest :: GetReg(m', r) == GetReg(m, r)
  {
    if dest != src {
      DoOne(m, MovReg(src, dest), rest);
    }
  }

  // ---- the simulation invariant ----

  predicate Writes(inst: Inst, v: ValueId)
  {
    match inst
    case Const(d, _) => d == v
    case Binary(_, d, _, _) => d == v
    case Param(d, _) => d == v
    case Move(d, _) => d == v
    case _ => false
  }

  predicate Reads(inst: Inst, v: ValueId)
  {
    match inst
    case Binary(_, _, l, r) => l == v || r == v
    case Move(_, l) => l == v
    case JumpIfZero(l, _) => l == v
    case Return(l) => l == v
    case _ => false
  }

  /** Values are defined before use: the first mention of a value writes it and does not
      read it. */
  ghost predicate DefinedFirst(code: seq<Inst>, live: map<ValueId, Range>)
  {
    forall v | v in live ::
      live[v].start < |code| && Writes(code[live[v].start], v) && !Reads(code[live[v].start], v)
  }

  predicate IsJump(inst: Inst)
  {
    inst.Jump? || inst.JumpIfZero?
  }

  ghost predicate JumpsTo(code: seq<Inst>, i: nat, t: nat)
    requires i < |code|
  {
    IsJump(code[i]) && Find(code, code[i].name) == Some(t)
  }

  ghost predicate ForwardOnly(code: seq<Inst>)
  {
    forall i: nat, t: nat | i < |code| && JumpsTo(code, i, t) :: i < t
  }

  /** Windows are closed over jumps: one that meets a loop from outside reaches the loop's
      back jump, and a forward jump does not enter the middle of one. */
  ghost predicate Closed(code: seq<Inst>, live: map<ValueId, Range>)
  {
    forall i: nat, t: nat, v | i < |code| && JumpsTo(code, i, t) && v in live &&
      live[v].start < t <= live[v].end ::
      if t <= i then i <= live[v].end else live[v].start <= i
  }

  /** A window for every value, from its first mention over all the others; it ends at a
      mention or at a jump. */
  ghost predicate Windows(code: seq<Inst>, live: map<ValueId, Range>)
  {
    (forall i, v | 0 <= i < |code| && v in Touched(code[i]) :: v in live && live[v].start <= i <= live[v].end) &&
    (forall v | v in live :: live[v].start <= live[v].end < |code| && v in Touched(code[live[v].start]) &&
                             (v in Touched(code[live[v].end]) || IsJump(code[live[v].end])))
  }

  ghost predicate Apart(al: Allocation, v: ValueId, w: ValueId)
  {
    Housed(al, v) && Housed(al, w) && Home(al, v) != Home(al, w)
  }

  /** Within a value's window no instruction writes the value's home on behalf of another. */
  ghost predicate Undisturbed(code: seq<Inst>, live: map<ValueId, Range>, al: Allocation)
  {
    forall p, d, w | 0 <= p < |code| && Writes(code[p], d) && w in live && w != d && live[w].start < p < live[w].end ::
      Apart(al, d, w)
  }

  /** What a run relies on about the homes of values. */
  ghost predicate Allocated(code: seq<Inst>, live: map<ValueId, Range>, al: Allocation)
  {
    Windows(code, live) && Undisturbed(code, live, al) && PoolOnly(al) &&
    (forall i | 0 <= i < |code| :: Supported(al, code[i]))
  }

  lemma AllocatedFacts(code: seq<Inst>, live: map<ValueId, Range>, al: Allocation)
    requires Allocated(code, live, al)
    ensures Windows(code, live) && PoolOnly(al)
    ensures forall i | 0 <= i < |code| :: Supported(al, code[i])
  {
  }

  ghost predicate Live(live: map<ValueId, Range>, v: ValueId, p: nat)
  {
    v in live && live[v].start < p <= live[v].end
  }

  /** Every live value is in its home. */
  ghost predicate InHomes(live: map<ValueId, Range>, al: Allocation, p: nat, vals: Vals, m: Machine)
  {
    m.stack == [] &&
    (forall v | v in vals :: v in live && Housed(al, v)) &&
    (forall v | v in vals && Live(live, v, p) :: ReadLoc(m, Home(al, v)) == vals[v])
  }

  ghost predicate AllStarted(code: seq<Inst>, live: map<ValueId, Range>, p: nat, vals: Vals)
  {
    ForwardOnly(code) ==> forall v | v in vals && v in live :: live[v].start < p
  }

  lemma OperandLive(code: seq<Inst>, live: map<ValueId, Range>, p: nat, v: ValueId)
    requires Windows(code, live) && DefinedFirst(code, live) && p < |code|
    requires v in Touched(code[p]) && Reads(code[p], v)
    ensures Live(live, v, p)
  {
    hide Touched;
    assert live[v].start != p;
  }

  lemma TouchedInWindow(code: seq<Inst>, live: map<ValueId, Range>, p: nat, v: ValueId)
    requires Windows(code, live) && p < |code| && v in Touched(code[p])
    ensures v in live && live[v].start <= p <= live[v].end
  {
  }

  lemma WrittenIsTouched(inst: Inst, v: ValueId)
    requires Writes(inst, v)
    ensures v in Touched(inst)
  {
  }

  /** A value live after an instruction that does not write it was live before it, and does
      not share the home the instruction writes. */
  lemma SurvivesWrite(code: seq<Inst>, live: map<ValueId, Range>, al: Allocation, p: nat, d: ValueId,
                      w: ValueId)
    requires Allocated(code, live, al) && DefinedFirst(code, live) && p < |code| && Writes(code[p], d)
    requires w != d && Live(live, w, p + 1)
    ensures Live(live, w, p) && Housed(al, d) && Housed(al, w) && Home(al, w) != Home(al, d)
  {
    WrittenIsTouched(code[p], d);
    TouchedInWindow(code, live, p, d);
    assert live[w].start == p ==> Writes(code[p], w);
    assert live[w].start < p;
  }

  lemma WriteKeeps(code: seq<Inst>, live: map<ValueId, Range>, al: Allocation, p: nat, d: ValueId,
                   value: I32, vals: Vals, m: Machine, m': Machine)
    requires Allocated(code, live, al) && DefinedFirst(code, live) && p < |code| && Writes(code[p], d)
    requires InHomes(live, al, p, vals, m) && Housed(al, d)
    requires ReadLoc(m', Home(al, d)) == value && OnlyChanges(m, m', Home(al, d))
    ensures InHomes(live, al, p + 1, vals[d := value], m')
  {
    hide Allocated, DefinedFirst, Live, OnlyChanges, ReadLoc, Home, PoolOnly, Writes, Touched, Windows, Housed;
    AllocatedFacts(code, live, al);
    WrittenIsTouched(code[p], d);
    TouchedInWindow(code, live, p, d);
    forall w | w in vals[d := value] && Live(live, w, p + 1)
      ensures ReadLoc(m', Home(al, w)) == vals[d := value][w]
    {
      if w != d {
        SurvivesWrite(code, live, al, p, d, w);
        Untouched(al, m, m', Home(al, d), w);
      }
    }
    assert m'.stack == m.stack by {
      Balanced(m, m', Home(al, d));
    }
  }

  lemma Balanced(m: Machine, m': Machine, loc: Loc)
    requires OnlyChanges(m, m', loc)
    ensures m'.stack == m.stack
  {
  }

  lemma Untouched(al: Allocation, m: Machine, m': Machine, loc: Loc, w: ValueId)
    requires OnlyChanges(m, m', loc) && PoolOnly(al) && Housed(al, w) && Home(al, w) != loc
    ensures ReadLoc(m', Home(al, w)) == ReadLoc(m, Home(al, w))
  {
  }

  /** Nothing is written and control goes on to the next instruction. */
  lemma PassKeeps(code: seq<Inst>, live: map<ValueId, Range>, al: Allocation, p: nat, vals: Vals, m: Machine,
                  m': Machine)
    requires DefinedFirst(code, live) && p < |code| && (forall v :: !Writes(code[p], v)) && PoolOnly(al)
    requires InHomes(live, al, p, vals, m) && SameHomes(m, m')
    ensures InHomes(live, al, p + 1, vals, m')
  {
    forall w | w in vals && Live(live, w, p + 1)
      ensures ReadLoc(m', Home(al, w)) == vals[w]
    {
      assert live[w].start != p;
      assert Live(live, w, p);
    }
  }

  /** A jump: what is live at the target was live at the jump. */
  lemma JumpKeeps(code: seq<Inst>, live: map<ValueId, Range>, al: Allocation, p: nat, t: nat, vals: Vals,
                  m: Machine, m': Machine)
    requires DefinedFirst(code, live) && p < |code| && JumpsTo(code, p, t) && PoolOnly(al)
    requires ForwardOnly(code) || Closed(code, live)
    requires InHomes(live, al, p, vals, m) && SameHomes(m, m') && AllStarted(code, live, p, vals)
    ensures InHomes(live, al, t, vals, m') && AllStarted(code, live, t, vals)
  {
    assert forall v :: !Writes(code[p], v);
    forall w | w in vals && Live(live, w, t)
      ensures ReadLoc(m', Home(al, w)) == vals[w]
    {
      assert live[w].start != p;
      assert Live(live, w, p);
    }
  }

  // ---- one step ----

  lemma {:induction false} SameTargets(blocks: seq<Block>, code: seq<Inst>, name: Label)
    requires |blocks| == |code|
    requires forall i | 0 <= i < |code| :: blocks[i].mark == Some(name) <==> code[i] == Mark(name)
    ensures FindBlock(blocks, name) == Find(code, name)
  {
    if code != [] {
      SameTargets(blocks[1..], code[1..], name);
    }
  }

  lemma EmittedTargets(al: Allocation, code: seq<Inst>, name: Label)
    requires forall i | 0 <= i < |code| :: Supported(al, code[i])
    ensures FindBlock(EmitAll(al, code), name) == Find(code, name)
  {
    forall i | 0 <= i < |code|
      ensures EmitAll(al, code)[i].mark == Some(name) <==> code[i] == Mark(name)
    {
      assert EmitAll(al, code)[i] == EmitInst(al, code[i]);
    }
    SameTargets(EmitAll(al, code), code, name);
  }

  /** The facts a run relies on, fixed for one function. */
  ghost predicate Sound(code: seq<Inst>, live: map<ValueId, Range>, al: Allocation)
  {
    Allocated(code, live, al) && DefinedFirst(code, live) && (ForwardOnly(code) || Closed(code, live))
  }

  ghost predicate Matches(code: seq<Inst>, live: map<ValueId, Range>, al: Allocation, p: nat, vals: Vals, m: Machine)
  {
    InHomes(live, al, p, vals, m) && AllStarted(code, live, p, vals)
  }

  /** A step of the intermediate code and the step of the machine agree. */
  ghost predicate StepsAgree(code: seq<Inst>, live: map<ValueId, Range>, al: Allocation, s: Status, t: MStatus)
  {
    match s
    case At(p, vals) => t.Running? && t.pc == p && Matches(code, live, al, p, vals, t.m)
    case Returned(v) => t == Result(v)
    case Stuck => true
    case OffEnd => true
  }

  lemma WriteStep(code: seq<Inst>, live: map<ValueId, Range>, al: Allocation, p: nat, d: ValueId,
                  value: I32, vals: Vals, m: Machine, m': Machine)
    requires Sound(code, live, al) && p < |code| && Writes(code[p], d) && Matches(code, live, al, p, vals, m)
    requires Housed(al, d) && ReadLoc(m', Home(al, d)) == value && OnlyChanges(m, m', Home(al, d))
    ensures Matches(code, live, al, p + 1, vals[d := value], m')
  {
    hide Allocated, DefinedFirst, Closed, ForwardOnly, OnlyChanges, ReadLoc, Home, InHomes, Windows;
    WriteKeeps(code, live, al, p, d, value, vals, m, m');
    AllocatedFacts(code, live, al);
    WrittenIsTouched(code[p], d);
    TouchedInWindow(code, live, p, d);
  }

  lemma OperandHeld(code: seq<Inst>, live: map<ValueId, Range>, al: Allocation, p: nat, v: ValueId,
                    vals: Vals, m: Machine)
    requires Sound(code, live, al) && p < |code| && Matches(code, live, al, p, vals, m)
    requires Reads(code[p], v) && v in Touched(code[p]) && v in vals
    ensures Housed(al, v) && ReadLoc(m, Home(al, v)) == vals[v]
  {
    OperandLive(code, live, p, v);
  }

  lemma BinaryStep(code: seq<Inst>, live: map<ValueId, Range>, al: Allocation, p: nat, vals: Vals,
                   m: Machine, args: seq<I32>, rest: seq<I32>)
    requires Sound(code, live, al) && p < |code| && Matches(code, live, al, p, vals, m) && code[p].Binary?
    requires forall i | 0 <= i < |code| :: Supported(al, code[i])
    ensures StepsAgree(code, live, al, Step(code, args, p, vals), MStep(EmitAll(al, code), rest, p, m))
  {
    hide Sound, Matches, DoAll, EmitBinary, Apply, ReadLoc, Home, OnlyChanges, Housed;
    var Binary(op, d, l, r) := code[p];
    assert EmitAll(al, code)[p] == EmitInst(al, code[p]) == Block(None, EmitBinary(al, op, d, l, r), Fall);
    if l in vals && r in vals && Apply(op, vals[l], vals[r]).Some? {
      SoundPool(code, live, al);
      OperandHeld(code, live, al, p, l, vals, m);
      OperandHeld(code, live, al, p, r, vals, m);
      assert d in Touched(code[p]) && Supported(al, code[p]);
      BinaryEffect(al, op, d, l, r, m, rest);
      var m' := DoAll(m, EmitBinary(al, op, d, l, r), rest);
      WriteStep(code, live, al, p, d, Apply(op, vals[l], vals[r]).value, vals, m, m');
    }
  }

  lemma SoundPool(code: seq<Inst>, live: map<ValueId, Range>, al: Allocation)
    requires Sound(code, live, al)
    ensures PoolOnly(al)
  {
    AllocatedFacts(code, live, al);
  }

  lemma MoveStep(code: seq<Inst>, live: map<ValueId, Range>, al: Allocation, p: nat, vals: Vals,
                 m: Machine, args: seq<I32>, rest: seq<I32>)
    requires Sound(code, live, al) && p < |code| && Matches(code, live, al, p, vals, m) && code[p].Move?
    requires forall i | 0 <= i < |code| :: Supported(al, code[i])
    ensures StepsAgree(code, live, al, Step(code, args, p, vals), MStep(EmitAll(al, code), rest, p, m))
  {
    hide Sound, Matches, DoAll, ReadLoc, Home, OnlyChanges, LoadRead, StoreIfSpilled;
    var Move(d, l) := code[p];
    assert EmitAll(al, code)[p] == EmitInst(al, Move(d, l));
    assert d in Touched(code[p]) && l in Touched(code[p]) && Supported(al, code[p]);
    if l in vals {
      SoundPool(code, live, al);
      OperandHeld(code, live, al, p, l, vals, m);
      MoveEffect(al, d, l, m, rest);
      WriteStep(code, live, al, p, d, vals[l], vals, m, DoAll(m, EmitInst(al, Move(d, l)).body, rest));
    }
  }

  lemma ConstStep(code: seq<Inst>, live: map<ValueId, Range>, al: Allocation, p: nat, vals: Vals,
                  m: Machine, args: seq<I32>, rest: seq<I32>)
    requires Sound(code, live, al) && p < |code| && Matches(code, live, al, p, vals, m) && code[p].Const?
    requires forall i | 0 <= i < |code| :: Supported(al, code[i])
    ensures StepsAgree(code, live, al, Step(code, args, p, vals), MStep(EmitAll(al, code), rest, p, m))
  {
    hide Sound, Matches, DoAll, ReadLoc, Home, OnlyChanges, StoreIfSpilled;
    var Const(d, v) := code[p];
    assert EmitAll(al, code)[p] == EmitInst(al, Const(d, v));
    assert d in Touched(code[p]) && Supported(al, code[p]);
    SoundPool(code, live, al);
    var first := MovImm(v, WriteTarget(al, d, Ebx));
    WriteEffect(al, d, m, first, v, rest);
    WriteStep(code, live, al, p, d, v, vals, m, DoAll(m, [first] + StoreIfSpilled(al, d, Ebx), rest));
  }

  /** A parameter passed on the caller's stack. */
  lemma StackParamStep(code: seq<Inst>, live: map<ValueId, Range>, al: Allocation, p: nat, vals: Vals,
                       m: Machine, args: seq<I32>, rest: seq<I32>)
    requires Sound(code, live, al) && p < |code| && Matches(code, live, al, p, vals, m)
    requires code[p].Param? && |ABI| <= code[p].index < |args| && rest == args[|ABI|..]
    requires forall i | 0 <= i < |code| :: Supported(al, code[i])
    ensures StepsAgree(code, live, al, Step(code, args, p, vals), MStep(EmitAll(al, code), rest, p, m))
  {
    hide Sound, Matches, DoAll, ReadLoc, Home, OnlyChanges, StoreIfSpilled;
    var Param(d, i) := code[p];
    assert EmitAll(al, code)[p] == EmitInst(al, Param(d, i));
    assert d in Touched(code[p]) && Supported(al, code[p]);
    SoundPool(code, live, al);
    var first := LoadArg(i - |ABI|, WriteTarget(al, d, Ebx));
    WriteEffect(al, d, m, first, args[i], rest);
    WriteStep(code, live, al, p, d, args[i], vals, m, DoAll(m, [first] + StoreIfSpilled(al, d, Ebx), rest));
  }

  lemma PassMatches(code: seq<Inst>, live: map<ValueId, Range>, al: Allocation, p: nat, vals: Vals,
                    m: Machine, m': Machine)
    requires Sound(code, live, al) && p < |code| && Matches(code, live, al, p, vals, m) && SameHomes(m, m')
    requires forall v :: !Writes(code[p], v)
    ensures Matches(code, live, al, p + 1, vals, m')
  {
    SoundPool(code, live, al);
    PassKeeps(code, live, al, p, vals, m, m');
  }

  lemma JumpMatches(code: seq<Inst>, live: map<ValueId, Range>, al: Allocation, p: nat, t: nat,
                    vals: Vals, m: Machine, m': Machine)
    requires Sound(code, live, al) && p < |code| && Matches(code, live, al, p, vals, m) && SameHomes(m, m')
    requires JumpsTo(code, p, t)
    ensures Matches(code, live, al, t, vals, m')
  {
    SoundPool(code, live, al);
    JumpKeeps(code, live, al, p, t, vals, m, m');
  }

  lemma PlainControlStep(code: seq<Inst>, live: map<ValueId, Range>, al: Allocation, p: nat, vals: Vals,
                         m: Machine, args: seq<I32>, rest: seq<I32>)
    requires Sound(code, live, al) && p < |code| && Matches(code, live, al, p, vals, m)
    requires code[p].Mark? || code[p].Jump?
    requires forall i | 0 <= i < |code| :: Supported(al, code[i])
    ensures StepsAgree(code, live, al, Step(code, args, p, vals), MStep(EmitAll(al, code), rest, p, m))
  {
    hide Sound, Matches, Find, FindBlock;
    assert EmitAll(al, code)[p] == EmitInst(al, code[p]);
    if code[p].Mark? {
      PassMatches(code, live, al, p, vals, m, m);
    } else {
      EmittedTargets(al, code, code[p].name);
      var t := Find(code, code[p].name);
      if t.Some? {
        JumpMatches(code, live, al, p, t.value, vals, m, m);
      }
    }
  }

  lemma BranchStep(code: seq<Inst>, live: map<ValueId, Range>, al: Allocation, p: nat, vals: Vals,
                   m: Machine, args: seq<I32>, rest: seq<I32>)
    requires Sound(code, live, al) && p < |code| && Matches(code, live, al, p, vals, m) && code[p].JumpIfZero?
    requires forall i | 0 <= i < |code| :: Supported(al, code[i])
    ensures StepsAgree(code, live, al, Step(code, args, p, vals), MStep(EmitAll(al, code), rest, p, m))
  {
    hide Sound, Matches, Find, FindBlock, DoAll, ReadLoc, Home, SameHomes, PoolOnly;
    var JumpIfZero(l, name) := code[p];
    assert EmitAll(al, code)[p] == EmitInst(al, code[p]);
    assert l in Touched(code[p]) && Supported(al, code[p]);
    if l in vals {
      SoundPool(code, live, al);
      OperandHeld(code, live, al, p, l, vals, m);
      var (load, src) := LoadRead(al, l, Ebx);
      LoadEffect(al, m, l, Ebx, rest);
      var m1 := DoAll(m, load, rest);
      DoAllAppend(m, load, [Test(src)], rest);
      DoOne(m1, Test(src), rest);
      var m2 := m1.(flags := (GetReg(m1, src), 0));
      FlagsOnly(m, m1, m2);
      EmittedTargets(al, code, name);
      var t := Find(code, name);
      if vals[l] != 0 {
        PassMatches(code, live, al, p, vals, m, m2);
      } else if t.Some? {
        JumpMatches(code, live, al, p, t.value, vals, m, m2);
      }
    }
  }

  lemma FlagsOnly(m: Machine, m1: Machine, m2: Machine)
    requires SameHomes(m, m1) && m2 == m1.(flags := m2.flags)
    ensures SameHomes(m, m2)
  {
  }

  lemma ReturnStep(code: seq<Inst>, live: map<ValueId, Range>, al: Allocation, p: nat, vals: Vals,
                   m: Machine, args: seq<I32>, rest: seq<I32>)
    requires Sound(code, live, al) && p < |code| && Matches(code, live, al, p, vals, m) && code[p].Return?
    requires forall i | 0 <= i < |code| :: Supported(al, code[i])
    ensures StepsAgree(code, live, al, Step(code, args, p, vals), MStep(EmitAll(al, code), rest, p, m))
  {
    hide Sound, Matches, DoAll, ReadLoc, Home, SameHomes, PoolOnly;
    var Return(l) := code[p];
    assert EmitAll(al, code)[p] == EmitInst(al, code[p]);
    assert l in Touched(code[p]) && Supported(al, code[p]);
    if l in vals {
      SoundPool(code, live, al);
      OperandHeld(code, live, al, p, l, vals, m);
      var (load, src) := LoadRead(al, l, Ebx);
      LoadEffect(al, m, l, Ebx, rest);
      var m1 := DoAll(m, load, rest);
      DoAllAppend(m, load, if src != Eax then [MovReg(src, Eax)] else [], rest);
      CopyEffect(m1, src, Eax, rest);
    }
  }

  lemma StepSim(code: seq<Inst>, live: map<ValueId, Range>, al: Allocation, p: nat, vals: Vals,
                m: Machine, args: seq<I32>, rest: seq<I32>)
    requires Sound(code, live, al) && p < |code| && Matches(code, live, al, p, vals, m) && !code[p].Param?
    requires forall i | 0 <= i < |code| :: Supported(al, code[i])
    ensures StepsAgree(code, live, al, Step(code, args, p, vals), MStep(EmitAll(al, code), rest, p, m))
  {
    hide Sound, Matches, Step, MStep, StepsAgree, EmitAll;
    match code[p]
    case Const(_, _) => ConstStep(code, live, al, p, vals, m, args, rest);
    case Binary(_, _, _, _) => BinaryStep(code, live, al, p, vals, m, args, rest);
    case Move(_, _) => MoveStep(code, live, al, p, vals, m, args, rest);
    case Mark(_) => PlainControlStep(code, live, al, p, vals, m, args, rest);
    case Jump(_) => PlainControlStep(code, live, al, p, vals, m, args, rest);
    case JumpIfZero(_, _) => BranchStep(code, live, al, p, vals, m, args, rest);
    case Return(_) => ReturnStep(code, live, al, p, vals, m, args, rest);
  }

  // ---- entry ----

  /** The machine as the caller leaves it: the first four arguments in edi, esi, edx and ecx. */
  ghost predicate Entry(m: Machine, args: seq<I32>)
  {
    m.stack == [] &&
    (|args| > 0 ==> GetReg(m, Edi) == args[0]) && (|args| > 1 ==> GetReg(m, Esi) == args[1]) &&
    (|args| > 2 ==> GetReg(m, Edx) == args[2]) && (|args| > 3 ==> GetReg(m, Ecx) == args[3])
  }

  lemma EntryArguments(m: Machine, args: seq<I32>)
    requires Entry(m, args)
    ensures forall i | 0 <= i < RegisterParams(|args|) :: GetReg(m, ABI[i]) == args[i]
  {
    hide GetReg;
    assert ABI[0] == Edi && ABI[1] == Esi && ABI[2] == Edx && ABI[3] == Ecx;
  }

  ghost function StackArgs(args: seq<I32>): seq<I32>
  {
    if |args| > |ABI| then args[|ABI|..] else []
  }

  /** The pushed arguments that have not been popped yet: argument `k` on top. */
  ghost function Waiting(args: seq<I32>, n: nat, k: nat): seq<I32>
    requires k <= n <= |args|
  {
    seq(n - k, i requires 0 <= i < n - k => args[n - 1 - i])
  }

  lemma {:induction false} PushPhase(m: Machine, args: seq<I32>, n: nat, k: nat, rest: seq<I32>)
    requires k <= n <= |args| && n <= |ABI|
    requires forall i | 0 <= i < n :: GetReg(m, ABI[i]) == args[i]
    requires m.stack == Waiting(args, n, k)
    ensures DoAll(m, PushArgs(k), rest) == m.(stack := Waiting(args, n, 0))
    decreases k
  {
    if k > 0 {
      var push := Push(ABI[k - 1]);
      assert PushArgs(k) == [push] + PushArgs(k - 1);
      DoAllAppend(m, [push], PushArgs(k - 1), rest);
      DoOne(m, push, rest);
      var m1 := m.(stack := Waiting(args, n, k - 1));
      assert m.stack + [args[k - 1]] == Waiting(args, n, k - 1);
      assert Do(m, push, rest) == m1;
      PushPhase(m1, args, n, k - 1, rest);
    }
  }

  ghost function Written(m: Machine, loc: Loc, v: I32): Machine
  {
    match loc
    case InReg(r) => SetReg(m, r, v)
    case InSlot(s) => SetSlot(m, s, v)
  }

  lemma PopOne(al: Allocation, v: ValueId, m: Machine, args: seq<I32>, n: nat, k: nat, rest: seq<I32>)
    requires k < n <= |args| && Housed(al, v) && m.stack == Waiting(args, n, k)
    ensures Do(m, PopInto(al, v), rest) == Written(m, Home(al, v), args[k]).(stack := Waiting(args, n, k + 1))
  {
    assert m.stack[..|m.stack| - 1] == Waiting(args, n, k + 1);
  }

  /** No later destination shares the home of destination `j`. */
  ghost predicate NotOverwritten(al: Allocation, dsts: seq<ValueId>, j: nat)
    requires j < |dsts| && forall v | v in dsts :: Housed(al, v)
  {
    forall i | j < i < |dsts| :: Home(al, dsts[i]) != Home(al, dsts[j])
  }

  lemma {:induction false} PopPhase(al: Allocation, dsts: seq<ValueId>, m: Machine, args: seq<I32>, k: nat, rest: seq<I32>)
    requires k <= |dsts| <= |args| && (forall v | v in dsts :: Housed(al, v))
    requires m.stack == Waiting(args, |dsts|, k)
    requires forall j | 0 <= j < k && NotOverwritten(al, dsts, j) :: ReadLoc(m, Home(al, dsts[j])) == args[j]
    ensures var m' := DoAll(m, PopArgs(al, dsts[k..]), rest);
            m'.stack == [] &&
            forall j | 0 <= j < |dsts| && NotOverwritten(al, dsts, j) :: ReadLoc(m', Home(al, dsts[j])) == args[j]
    decreases |dsts| - k
  {
    if k == |dsts| {
      assert dsts[k..] == [];
    } else {
      var v := dsts[k];
      assert dsts[k..][0] == v && dsts[k..][1..] == dsts[k + 1..];
      var pop := PopInto(al, v);
      assert PopArgs(al, dsts[k..]) == [pop] + PopArgs(al, dsts[k + 1..]);
      DoAllAppend(m, [pop], PopArgs(al, dsts[k + 1..]), rest);
      DoOne(m, pop, rest);
      PopOne(al, v, m, args, |dsts|, k, rest);
      var m1 := Do(m, pop, rest);
      hide Do;
      forall j | 0 <= j < k + 1 && NotOverwritten(al, dsts, j)
        ensures ReadLoc(m1, Home(al, dsts[j])) == args[j]
      {
        if j < k {
          assert Home(al, dsts[k]) != Home(al, dsts[j]);
        }
      }
      PopPhase(al, dsts, m1, args, k + 1, rest);
    }
  }

  /** The register parameters that are used at all are in their homes. */
  ghost predicate ParamsHome(code: seq<Inst>, live: map<ValueId, Range>, al: Allocation, n: nat, args: seq<I32>,
                             m: Machine)
    requires n <= |code| && n <= |args| && forall i | 0 <= i < n :: code[i].Param?
  {
    m.stack == [] &&
    forall j | 0 <= j < n && code[j].dst in live && live[code[j].dst].end > j && Housed(al, code[j].dst) ::
      ReadLoc(m, Home(al, code[j].dst)) == args[j]
  }

  /** Nothing but its own instruction mentions a parameter among the parameters, and no jump
      stands there. */
  lemma WindowPastParams(code: seq<Inst>, live: map<ValueId, Range>, paramCount: nat, j: nat)
    requires Windows(code, live) && ParamsFirst(code, paramCount) && j < paramCount
    requires code[j].dst in live && live[code[j].dst].end > j
    ensures live[code[j].dst].start <= j && live[code[j].dst].end >= paramCount
  {
    var v := code[j].dst;
    TouchedInWindow(code, live, j, v);
    var e := live[v].end;
    assert v in Touched(code[e]) || IsJump(code[e]);
    assert v in Touched(code[e]) || !code[e].Param?;
  }

  /** A parameter used after the parameters shares its home with no other parameter that the
      prologue pops later. */
  lemma ParamSurvives(code: seq<Inst>, live: map<ValueId, Range>, al: Allocation, paramCount: nat,
                      j: nat, i: nat)
    requires Sound(code, live, al) && ParamsFirst(code, paramCount) && j < i < paramCount
    requires code[j].dst in live && live[code[j].dst].end > j
    ensures Housed(al, code[i].dst) && Housed(al, code[j].dst) && Home(al, code[i].dst) != Home(al, code[j].dst)
  {
    hide ForwardOnly, Closed, DefinedFirst, Windows, Supported, Home, Housed, PoolOnly;
    WindowPastParams(code, live, paramCount, j);
    assert Writes(code[i], code[i].dst) && code[i].dst != code[j].dst;
    assert Apart(al, code[i].dst, code[j].dst);
  }

  lemma PrologueEffect(code: seq<Inst>, live: map<ValueId, Range>, al: Allocation, args: seq<I32>, m: Machine)
    requires Sound(code, live, al) && ParamsFirst(code, |args|) && Entry(m, args)
    requires forall i | 0 <= i < |code| :: Supported(al, code[i])
    ensures var n := RegisterParams(|args|);
            ParamsHome(code, live, al, n, args, DoAll(m, Prologue(al, code, |args|), StackArgs(args)))
  {
    var n, rest := RegisterParams(|args|), StackArgs(args);
    var dsts := Dests(code, n);
    DestsHoused(al, code, n);
    hide DoAll, PushArgs, PopArgs, Sound, Housed, Supported, ReadLoc, Home, GetReg, NotOverwritten;
    DoAllAppend(m, PushArgs(n), PopArgs(al, dsts), rest);
    EntryArguments(m, args);
    assert m.stack == Waiting(args, n, n);
    PushPhase(m, args, n, n, rest);
    var m1 := m.(stack := Waiting(args, n, 0));
    assert dsts[0..] == dsts;
    PopPhase(al, dsts, m1, args, 0, rest);
    forall j | 0 <= j < n && code[j].dst in live && live[code[j].dst].end > j
      ensures NotOverwritten(al, dsts, j)
    {
      ParamKept(code, live, al, |args|, dsts, j);
    }
  }

  lemma ParamKept(code: seq<Inst>, live: map<ValueId, Range>, al: Allocation, paramCount: nat,
                  dsts: seq<ValueId>, j: nat)
    requires Sound(code, live, al) && ParamsFirst(code, paramCount)
    requires |dsts| <= paramCount && (forall i | 0 <= i < |dsts| :: dsts[i] == code[i].dst) && j < |dsts|
    requires forall v | v in dsts :: Housed(al, v)
    requires code[j].dst in live && live[code[j].dst].end > j
    ensures NotOverwritten(al, dsts, j)
  {
    hide Sound;
    forall i | j < i < |dsts|
      ensures Home(al, dsts[i]) != Home(al, dsts[j])
    {
      ParamSurvives(code, live, al, paramCount, j, i);
    }
  }

  /** Over a register parameter the machine does nothing: the prologue has placed it. */
  lemma RegisterParamStep(code: seq<Inst>, live: map<ValueId, Range>, al: Allocation, p: nat, vals: Vals,
                          m: Machine, args: seq<I32>)
    requires Sound(code, live, al) && ParamsFirst(code, |args|) && p < RegisterParams(|args|)
    requires forall i | 0 <= i < |code| :: Supported(al, code[i])
    requires Matches(code, live, al, p, vals, m)
    requires ParamsHome(code, live, al, RegisterParams(|args|), args, m)
    ensures Step(code, args, p, vals) == At(p + 1, vals[code[p].dst := args[p]])
    ensures MStep(EmitAll(al, code), StackArgs(args), p, m) == Running(p + 1, m)
    ensures Matches(code, live, al, p + 1, vals[code[p].dst := args[p]], m)
  {
    hide MStep, Step, EmitAll, Supported, Sound, Matches, ParamsHome;
    RegisterParamMoves(code, al, p, vals, m, args);
    ParamHeld(code, live, al, p, args, m);
    hide ParamsFirst;
    AlreadyHome(code, live, al, p, code[p].dst, args[p], vals, m);
  }

  /** An instruction whose result is already in its home when it is needed. */
  lemma AlreadyHome(code: seq<Inst>, live: map<ValueId, Range>, al: Allocation, p: nat, d: ValueId,
                    value: I32, vals: Vals, m: Machine)
    requires Sound(code, live, al) && p < |code| && Writes(code[p], d) && Matches(code, live, al, p, vals, m)
    requires Housed(al, d) && (Live(live, d, p + 1) ==> ReadLoc(m, Home(al, d)) == value)
    ensures Matches(code, live, al, p + 1, vals[d := value], m)
  {
    hide ReadLoc, Home, Windows, Live, Touched, ForwardOnly, Closed, DefinedFirst, Allocated, Writes, Housed;
    AllocatedFacts(code, live, al);
    WrittenIsTouched(code[p], d);
    TouchedInWindow(code, live, p, d);
    forall w | w in vals[d := value] && Live(live, w, p + 1)
      ensures ReadLoc(m, Home(al, w)) == vals[d := value][w]
    {
      if w != d {
        SurvivesWrite(code, live, al, p, d, w);
      }
    }
  }

  lemma RegisterParamMoves(code: seq<Inst>, al: Allocation, p: nat, vals: Vals, m: Machine, args: seq<I32>)
    requires ParamsFirst(code, |args|) && p < RegisterParams(|args|)
    requires forall i | 0 <= i < |code| :: Supported(al, code[i])
    ensures Housed(al, code[p].dst)
    ensures Step(code, args, p, vals) == At(p + 1, vals[code[p].dst := args[p]])
    ensures MStep(EmitAll(al, code), StackArgs(args), p, m) == Running(p + 1, m)
  {
    assert EmitAll(al, code)[p] == EmitInst(al, code[p]) == Block(None, [], Fall);
    assert code[p].dst in Touched(code[p]) && Supported(al, code[p]);
  }

  lemma ParamHeld(code: seq<Inst>, live: map<ValueId, Range>, al: Allocation, p: nat, args: seq<I32>, m: Machine)
    requires ParamsFirst(code, |args|) && p < RegisterParams(|args|) && Housed(al, code[p].dst)
    requires ParamsHome(code, live, al, RegisterParams(|args|), args, m)
    ensures Live(live, code[p].dst, p + 1) ==> ReadLoc(m, Home(al, code[p].dst)) == args[p]
  {
  }

  lemma ThenM(blocks: seq<Block>, rest: seq<I32>, pc: nat, m: Machine, a: nat, b: nat)
    ensures var s := MRun(blocks, rest, pc, m, a);
            MRun(blocks, rest, pc, m, a + b) == if s.Running? then MRun(blocks, rest, s.pc, s.m, b) else s
    decreases a
  {
    hide MStep;
    if a > 0 {
      var s := MStep(blocks, rest, pc, m);
      if s.Running? {
        ThenM(blocks, rest, s.pc, s.m, a - 1, b);
      }
    }
  }

  lemma OneStepM(blocks: seq<Block>, rest: seq<I32>, pc: nat, m: Machine)
    ensures MRun(blocks, rest, pc, m, 1) == MStep(blocks, rest, pc, m)
  {
    hide MStep;
    var s := MStep(blocks, rest, pc, m);
    if s.Running? {
      assert MRun(blocks, rest, s.pc, s.m, 0) == s;
    }
  }

  /** Runs of equal length agree, parameters included. */
  lemma {:induction false} RunSim(code: seq<Inst>, live: map<ValueId, Range>, al: Allocation, p: nat,
                                  vals: Vals, m: Machine, args: seq<I32>, steps: nat)
    requires Sound(code, live, al) && ParamsFirst(code, |args|) && Matches(code, live, al, p, vals, m)
    requires forall i | 0 <= i < |code| :: Supported(al, code[i])
    requires p < RegisterParams(|args|) ==> ParamsHome(code, live, al, RegisterParams(|args|), args, m)
    ensures StepsAgree(code, live, al, Run(code, args, p, vals, steps),
                       MRun(EmitAll(al, code), StackArgs(args), p, m, steps))
    decreases steps
  {
    hide Sound, Matches, Step, MStep, EmitAll, Supported, ParamsHome;
    var blocks, rest := EmitAll(al, code), StackArgs(args);
    if steps > 0 {
      var s := Step(code, args, p, vals);
      if p >= |code| {
        OffEndStep(code, args, p, vals);
      } else if p < RegisterParams(|args|) {
        RegisterParamStep(code, live, al, p, vals, m, args);
        RunSim(code, live, al, p + 1, s.vals, m, args, steps - 1);
      } else {
        if code[p].Param? {
          StackParamStep(code, live, al, p, vals, m, args, rest);
        } else {
          StepSim(code, live, al, p, vals, m, args, rest);
        }
        if s.At? {
          var t := MStep(blocks, rest, p, m);
          if s.pc < RegisterParams(|args|) {
            NoJumpToParams(code, args, p, vals, |args|);
          }
          RunSim(code, live, al, s.pc, s.vals, t.m, args, steps - 1);
        }
      }
    }
  }

  lemma OffEndStep(code: seq<Inst>, args: seq<I32>, p: nat, vals: Vals)
    requires p >= |code|
    ensures Step(code, args, p, vals) == OffEnd
  {
  }

  /** Control never goes back to the parameters: a jump leads to a mark. */
  lemma NoJumpToParams(code: seq<Inst>, args: seq<I32>, p: nat, vals: Vals, paramCount: nat)
    requires ParamsFirst(code, paramCount) && RegisterParams(paramCount) <= p
    requires Step(code, args, p, vals).At?
    ensures Step(code, args, p, vals).pc >= RegisterParams(paramCount)
  {
  }

  /** The machine program returns `v` when entered with `args`, whatever its registers and
      slots held before. */
  ghost predicate ProgramReturns(program: Program, args: seq<I32>, v: I32)
  {
    forall m: Machine | Entry(m, args) :: Reaches(program, args, m, v)
  }

  ghost predicate Reaches(program: Program, args: seq<I32>, m: Machine, v: I32)
  {
    var m1 := DoAll(m, program.prologue, StackArgs(args));
    exists steps: nat :: MRun(program.blocks, StackArgs(args), 0, m1, steps) == Result(v)
  }

  /** What the theorem below asks of intermediate code and its allocation. */
  ghost predicate Compilable(code: seq<Inst>, live: map<ValueId, Range>, al: Allocation, paramCount: nat)
  {
    Allocated(code, live, al) && ParamsFirst(code, paramCount) && DefinedFirst(code, live) &&
    (ForwardOnly(code) || Closed(code, live))
  }

  /** From any entry state the two runs agree step for step. */
  lemma ProgramSim(code: seq<Inst>, live: map<ValueId, Range>, al: Allocation, args: seq<I32>, m: Machine,
                   n: nat)
    requires Compilable(code, live, al, |args|) && Entry(m, args)
    ensures var program, rest := ProgramOf(al, code, |args|), StackArgs(args);
            StepsAgree(code, live, al, Run(code, args, 0, map[], n),
                       MRun(program.blocks, rest, 0, DoAll(m, program.prologue, rest), n))
  {
    assert Sound(code, live, al);
    var program, rest := ProgramOf(al, code, |args|), StackArgs(args);
    hide Sound, Run, MRun, Matches, ParamsHome, DoAll, Prologue, EmitAll, Supported, Closed, ForwardOnly, DefinedFirst,
         Allocated, Entry, ParamsFirst, StepsAgree;
    PrologueEffect(code, live, al, args, m);
    var m1 := DoAll(m, program.prologue, rest);
    NothingYet(code, live, al, args, m1);
    RunSim(code, live, al, 0, map[], m1, args, n);
  }

  /** Register allocation and emission preserve meaning: if the intermediate code returns a
      value, so does the machine code, and it is the same value. */
  lemma AllocationPreservesMeaning(code: seq<Inst>, live: map<ValueId, Range>, al: Allocation,
                                   args: seq<I32>, n: nat, v: I32)
    requires Compilable(code, live, al, |args|)
    requires Run(code, args, 0, map[], n) == Returned(v)
    ensures ProgramReturns(ProgramOf(al, code, |args|), args, v)
  {
    var program, rest := ProgramOf(al, code, |args|), StackArgs(args);
    forall m: Machine | Entry(m, args)
      ensures Reaches(program, args, m, v)
    {
      ProgramSim(code, live, al, args, m, n);
      hide Run, MRun, DoAll, Compilable, Entry;
      assert MRun(program.blocks, rest, 0, DoAll(m, program.prologue, rest), n) == Result(v);
    }
  }

  /** Conversely, if the machine code returns a value, the intermediate code has stopped, and
      unless it was stuck or ran off its end it returned that value. */
  lemma MachineResultIsMeant(code: seq<Inst>, live: map<ValueId, Range>, al: Allocation, args: seq<I32>, v: I32)
    returns (n: nat)
    requires Compilable(code, live, al, |args|) && ProgramReturns(ProgramOf(al, code, |args|), args, v)
    ensures var s := Run(code, args, 0, map[], n); s == Returned(v) || s == Stuck || s == OffEnd
  {
    var program := ProgramOf(al, code, |args|);
    hide Reaches, Run, Entry, ProgramOf;
    var m := EntryState(args);
    assert Reaches(program, args, m, v);
    n := ResultSteps(program, args, m, v);
    ProgramSim(code, live, al, args, m, n);
    hide Compilable, MRun, DoAll;
  }

  lemma ResultSteps(program: Program, args: seq<I32>, m: Machine, v: I32) returns (n: nat)
    requires Reaches(program, args, m, v)
    ensures MRun(program.blocks, StackArgs(args), 0, DoAll(m, program.prologue, StackArgs(args)), n) == Result(v)
  {
    hide MRun, DoAll;
    n :| MRun(program.blocks, StackArgs(args), 0, DoAll(m, program.prologue, StackArgs(args)), n) == Result(v);
  }

  lemma EntryState(args: seq<I32>) returns (m: Machine)
    ensures Entry(m, args)
  {
    var a := if |args| > 0 then args[0] else 0;
    var b := if |args| > 1 then args[1] else 0;
    var c := if |args| > 2 then args[2] else 0;
    var d := if |args| > 3 then args[3] else 0;
    m := Machine(map[Edi := a, Esi := b, Edx := c, Ecx := d], map[], [], (0, 0));
  }

  lemma NothingYet(code: seq<Inst>, live: map<ValueId, Range>, al: Allocation, args: seq<I32>, m: Machine)
    requires ParamsFirst(code, |args|)
    requires ParamsHome(code, live, al, RegisterParams(|args|), args, m)
    ensures Matches(code, live, al, 0, map[], m)
  {
  }
}
