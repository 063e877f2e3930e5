/** Indexing an array.  Its elements are values in consecutive spill slots; the address of an
    element is computed from the address of element 0, one slot of eight bytes an index. */
module ArrayAccess {
  import opened IR
  import opened RegAlloc

  const WORD64: int := 0x1_0000_0000_0000_0000

  /** Reduction to 64 bits. */
  function Address(x: int): (a: nat)
    ensures a < WORD64
  {
    x % WORD64
  }

  /** Slot `slot` lies at -8 * (slot + 1) from the frame pointer. */
  function SpillAddress(rbp: nat, slot: nat): (a: nat)
    ensures a < WORD64
  {
    Address(rbp - 8 * (slot + 1))
  }

  // ---- the code ----

  datatype AInst =
    | BoundsCheck(index: ValueId, size: nat)
    | ConstI(dst: ValueId, value: I32)
    | MulI(dst: ValueId, left: ValueId, right: ValueId)
    | AddressOf(dst: ValueId, of: ValueId)
    | PtrSub(dst: ValueId, base: ValueId, offset: ValueId)

  /** Values are 32-bit numbers or 64-bit addresses. */
  datatype AState = AState(words: map<ValueId, I32>, pointers: map<ValueId, nat>)

  /** `Trapped` is the exit with status 101; `Unwritten` a read of a value that has none. */
  datatype AStatus = Ok(s: AState) | Trapped | Unwritten

  /** A 32-bit number read as unsigned. */
  function Unsigned(x: I32): nat
  {
    if x < 0 then x + 0x1_0000_0000 else x
  }

  function Times(a: int, b: int): I32
  {
    Wrap(a * b)
  }

  /** One instruction.  The check compares unsigned; the offset is sign-extended to 64 bits
      before it is subtracted. */
  function AStep(slots: map<ValueId, nat>, rbp: nat, s: AState, inst: AInst): AStatus
  {
    match inst
    case BoundsCheck(i, size) =>
      if i !in s.words then Unwritten else if Unsigned(s.words[i]) < size then Ok(s) else Trapped
    case ConstI(d, v) => Ok(s.(words := s.words[d := v]))
    case MulI(d, l, r) =>
      if l in s.words && r in s.words then Ok(s.(words := s.words[d := Times(s.words[l], s.words[r])])) else Unwritten
    case AddressOf(d, v) => if v in slots then Ok(s.(pointers := s.pointers[d := SpillAddress(rbp, slots[v])])) else Unwritten
    case PtrSub(d, b, o) =>
      if b in s.pointers && o in s.words then Ok(s.(pointers := s.pointers[d := Address(s.pointers[b] - s.words[o])])) else Unwritten
  }

  function ARun(slots: map<ValueId, nat>, rbp: nat, s: AState, code: seq<AInst>): AStatus
    decreases code
  {
    if code == [] then Ok(s)
    else
      var r := AStep(slots, rbp, s, code[0]);
      if r.Ok? then ARun(slots, rbp, r.s, code[1..]) else r
  }

  /** `lowerElementAddress` after the index is in value `index`: the code and the value that
      holds the address.  Fresh values are numbered from `next`. */
  function ElementCode(group: seq<ValueId>, index: ValueId, next: ValueId): (seq<AInst>, ValueId)
    requires group != []
  {
    ([BoundsCheck(index, |group|), ConstI(next, 8), MulI(next + 1, index, next), AddressOf(next + 2, group[0]),
      PtrSub(next + 3, next + 2, next + 1)], next + 3)
  }

  // ---- what it computes ----

  lemma RunOne(slots: map<ValueId, nat>, rbp: nat, s: AState, inst: AInst, rest: seq<AInst>)
    ensures var r := AStep(slots, rbp, s, inst);
            ARun(slots, rbp, s, [inst] + rest) == if r.Ok? then ARun(slots, rbp, r.s, rest) else r
  {
    assert ([inst] + rest)[1..] == rest;
  }

  /** The check passes exactly for indices in bounds, and then the address computed is that of
      element 0 less eight times the index in 32-bit arithmetic. */
  lemma ElementRun(slots: map<ValueId, nat>, rbp: nat, s: AState, group: seq<ValueId>, index: ValueId, next: ValueId)
    requires 0 < |group| < 0x8000_0000 && group[0] in slots && index in s.words && index < next
    ensures var (code, at) := ElementCode(group, index, next);
            var v, r := s.words[index], ARun(slots, rbp, s, code);
            if 0 <= v < |group| then
              r.Ok? && at in r.s.pointers && r.s.pointers[at] == Address(SpillAddress(rbp, slots[group[0]]) - Wrap(8 * v))
            else r == Trapped
  {
    hide ARun, SpillAddress, Address, Wrap;
    var i0, i1, i2 := BoundsCheck(index, |group|), ConstI(next, 8), MulI(next + 1, index, next);
    var i3, i4 := AddressOf(next + 2, group[0]), PtrSub(next + 3, next + 2, next + 1);
    assert ElementCode(group, index, next).0 == [i0] + ([i1] + ([i2] + ([i3] + ([i4] + []))));
    RunOne(slots, rbp, s, i0, [i1] + ([i2] + ([i3] + ([i4] + []))));
    var v := s.words[index];
    if 0 <= v < |group| {
      var s1 := s.(words := s.words[next := 8]);
      RunOne(slots, rbp, s, i1, [i2] + ([i3] + ([i4] + [])));
      var s2 := s1.(words := s1.words[next + 1 := Times(v, 8)]);
      RunOne(slots, rbp, s1, i2, [i3] + ([i4] + []));
      var s3 := s2.(pointers := s2.pointers[next + 2 := SpillAddress(rbp, slots[group[0]])]);
      RunOne(slots, rbp, s2, i3, [i4] + []);
      RunOne(slots, rbp, s3, i4, []);
      NothingLeft(slots, rbp);
    }
  }

  lemma NothingLeft(slots: map<ValueId, nat>, rbp: nat)
    ensures forall s :: ARun(slots, rbp, s, []) == Ok(s)
  {
  }

  /** Subtracting an offset from a slot's address. */
  lemma AddressBelow(rbp: nat, slot: nat, w: int)
    ensures Address(SpillAddress(rbp, slot) - w) == Address(rbp - 8 * (slot + 1) - w)
  {
    var x := rbp - 8 * (slot + 1);
    var q := x / WORD64;
    assert x == WORD64 * q + SpillAddress(rbp, slot);
    SameModulo(SpillAddress(rbp, slot) - w, x - w, q);
  }

  lemma {:induction false} SameModulo(a: int, b: int, q: int)
    requires b == WORD64 * q + a
    ensures Address(a) == Address(b)
  {
  }

  /** Two numbers less than 2^64 apart agree in 64 bits only if they are equal. */
  lemma NearModulo(a: int, b: int)
    requires -WORD64 < a - b < WORD64
    ensures Address(a) == Address(b) <==> a == b
  {
    if Address(a) == Address(b) {
      assert a - b == WORD64 * (a / WORD64 - b / WORD64);
      Multiple(a / WORD64 - b / WORD64);
    }
  }

  lemma Multiple(k: int)
    requires -WORD64 < WORD64 * k < WORD64
    ensures k == 0
  {
  }

  lemma OffsetWraps(v: nat)
    requires v < 0x8000_0000
    ensures Wrap(8 * v) == 8 * v <==> v < 0x1000_0000
    ensures -WORD64 < Wrap(8 * v) - 8 * v < WORD64
  {
  }

  /** Element `v` of an array lies 8 * v bytes below element 0. */
  lemma ElementBelow(slots: map<ValueId, nat>, rbp: nat, group: seq<ValueId>, v: nat)
    requires Contiguous(slots, group) && v < |group|
    ensures group[0] in slots && group[v] in slots
    ensures SpillAddress(rbp, slots[group[v]]) == Address(rbp - 8 * (slots[group[0]] + 1) - 8 * v)
  {
    assert slots[group[v]] == slots[group[0]] + v;
  }

  /** The address the code computes for index `v` is that of element `v`'s slot, for every index
      in bounds whose byte offset fits in 32 bits, and for no other. */
  lemma ElementAddressExactly(slots: map<ValueId, nat>, rbp: nat, s: AState, group: seq<ValueId>, index: ValueId, next: ValueId)
    requires Contiguous(slots, group) && 0 < |group| < 0x8000_0000 && index in s.words && index < next
    ensures var (code, at) := ElementCode(group, index, next);
            var v, r := s.words[index], ARun(slots, rbp, s, code);
            if 0 <= v < |group| then
              r.Ok? && at in r.s.pointers && group[v] in slots &&
              (r.s.pointers[at] == SpillAddress(rbp, slots[group[v]]) <==> v < 0x1000_0000)
            else r == Trapped
  {
    hide ARun, SpillAddress, Address, Wrap, ElementCode, Contiguous;
    FirstElement(slots, group);
    ElementRun(slots, rbp, s, group, index, next);
    var v := s.words[index];
    if 0 <= v < |group| {
      var x := rbp - 8 * (slots[group[0]] + 1);
      ElementBelow(slots, rbp, group, v);
      AddressBelow(rbp, slots[group[0]], Wrap(8 * v));
      OffsetWraps(v);
      NearModulo(x - Wrap(8 * v), x - 8 * v);
    }
  }

  lemma FirstElement(slots: map<ValueId, nat>, group: seq<ValueId>)
    requires Contiguous(slots, group) && group != []
    ensures group[0] in slots
  {
  }

  /** In a frame that lies in memory, two slots never share a byte: their eight-byte cells are
      apart. */
  lemma SlotsApart(rbp: nat, a: nat, b: nat)
    requires a != b && 8 * (a + 1) <= rbp < WORD64 && 8 * (b + 1) <= rbp
    ensures var x, y := SpillAddress(rbp, a), SpillAddress(rbp, b);
            x == rbp - 8 * (a + 1) && y == rbp - 8 * (b + 1) && (x + 8 <= y || y + 8 <= x)
  {
  }

  /** With the allocator's slots: every in-bounds index below 2^28 reaches its own element, and
      the cells of different elements, of this or of different arrays, do not overlap. */
  lemma ArrayElements(g: Graph, forced: seq<ValueId>, groups: seq<seq<ValueId>>, al: Allocation, rbp: nat, k: nat, i: nat,
                      l: nat, j: nat)
    requires Allots(g, forced, groups, al) && AllDistinct(Flatten(groups)) && 8 * al.slotCount <= rbp < WORD64
    requires k < |groups| && l < |groups| && i < |groups[k]| && j < |groups[l]| && groups[k][i] != groups[l][j]
    ensures Contiguous(al.slots, groups[k]) && Contiguous(al.slots, groups[l])
    ensures groups[k][i] in al.slots && groups[l][j] in al.slots
    ensures var x, y := SpillAddress(rbp, al.slots[groups[k][i]]), SpillAddress(rbp, al.slots[groups[l][j]]);
            (x + 8 <= y || y + 8 <= x) &&
            groups[k][0] in al.slots && x + 8 * i == SpillAddress(rbp, al.slots[groups[k][0]])
  {
    hide Flatten, Elements, Greedy, ProperlyColoured, Degenerate, AllDistinct, SpillAddress;
    assert Contiguous(al.slots, groups[k]) && Contiguous(al.slots, groups[l]);
    var a, b := al.slots[groups[k][i]], al.slots[groups[l][j]];
    assert a != b && a < al.slotCount && b < al.slotCount;
    SlotsApart(rbp, a, b);
    var first := al.slots[groups[k][0]];
    assert a == first + i;
    if i > 0 {
      SlotsApart(rbp, a, first);
    }
  }
}
