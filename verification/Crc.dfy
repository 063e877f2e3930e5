/** Bytes as 8-bit words. */
module Octet {
  import opened Codec

  function Word(n: Byte): bv8
  {
    n as bv8
  }

  function Number(b: bv8): (n: Byte)
  {
    b as int
  }

  lemma Successor(b: bv8)
    requires b as int < 255
    ensures (b + 1) as int == b as int + 1
  {
  }

  /** Counting up reaches every number below 256. */
  lemma {:induction false} SomeWord(n: nat) returns (b: bv8)
    requires n < 256
    ensures b as int == n
  {
    if n == 0 {
      b := 0;
    } else {
      var c := SomeWord(n - 1);
      Successor(c);
      b := c + 1;
    }
  }

  lemma WordOfNumber(b: bv8)
    ensures Word(Number(b)) == b
  {
  }

  lemma NumberOfWord(n: Byte)
    ensures Number(Word(n)) == n
  {
    var b := SomeWord(n);
    WordOfNumber(b);
  }
}

/** CRC-32 with the reflected polynomial 0xEDB88320: the bit-at-a-time checksum of section 8
    of RFC 1952, the table-driven form that computes it, and what it detects. */
module Crc {
  import opened Codec
  import opened Octet

  const POLYNOMIAL: bv32 := 0xEDB88320
  const ONES: bv32 := 0xFFFF_FFFF

  function Xor(a: bv32, b: bv32): bv32
  {
    a ^ b
  }

  function Widen(b: bv8): bv32
  {
    b as bv32
  }

  /** One bit. */
  function Shift(c: bv32): bv32
  {
    if c & 1 == 1 then Xor(POLYNOMIAL, c >> 1) else c >> 1
  }

  function Shifts(c: bv32, n: nat): bv32
    decreases n
  {
    if n == 0 then c else Shifts(Shift(c), n - 1)
  }

  /** The reference: fold one byte in, eight bits at a time. */
  function Update(crc: bv32, b: bv8): bv32
  {
    Shifts(Xor(crc, Widen(b)), 8)
  }

  function Updates(crc: bv32, data: Bytes): bv32
  {
    if data == [] then crc else Update(Updates(crc, data[..|data| - 1]), Word(data[|data| - 1]))
  }

  function Checksum(data: Bytes): bv32
  {
    Xor(Updates(ONES, data), ONES)
  }

  // ---- linearity ----

  function Tap(c: bv32): bv32
  {
    if c & 1 == 1 then POLYNOMIAL else 0
  }

  function Half(c: bv32): bv32
  {
    c >> 1
  }

  lemma ShiftIsTap(c: bv32)
    ensures Shift(c) == Xor(Tap(c), Half(c))
  {
    hide Xor;
    XorSelf(Half(c), 0);
  }

  lemma HalfLinear(a: bv32, b: bv32)
    ensures Half(Xor(a, b)) == Xor(Half(a), Half(b))
  {
  }

  lemma OddBit(a: bv32, b: bv32)
    ensures (Xor(a, b) & 1 == 1) <==> (a & 1 == 1) != (b & 1 == 1)
  {
  }

  lemma XorSelf(p: bv32, z: bv32)
    ensures Xor(p, p) == 0 && Xor(p, z) == Xor(z, p) && Xor(0, p) == p && Xor(p, 0) == p
  {
  }

  lemma TapLinear(a: bv32, b: bv32)
    ensures Tap(Xor(a, b)) == Xor(Tap(a), Tap(b))
  {
    OddBit(a, b);
    hide Xor;
    XorSelf(POLYNOMIAL, 0);
    XorSelf(0, 0);
  }

  lemma Regroup(p: bv32, q: bv32, x: bv32, y: bv32)
    ensures Xor(Xor(p, q), Xor(x, y)) == Xor(Xor(p, x), Xor(q, y))
  {
    hide Xor;
    XorAssoc(p, q, Xor(x, y));
    XorAssoc(q, x, y);
    XorSelf(q, x);
    XorAssoc(x, q, y);
    XorAssoc(p, x, Xor(q, y));
  }

  lemma XorAssoc(a: bv32, b: bv32, c: bv32)
    ensures Xor(Xor(a, b), c) == Xor(a, Xor(b, c))
  {
  }

  lemma ShiftLinear(a: bv32, b: bv32)
    ensures Shift(Xor(a, b)) == Xor(Shift(a), Shift(b))
  {
    hide Shift, Xor, Tap, Half;
    ShiftIsTap(a);
    ShiftIsTap(b);
    ShiftIsTap(Xor(a, b));
    TapLinear(a, b);
    HalfLinear(a, b);
    Regroup(Tap(a), Tap(b), Half(a), Half(b));
  }

  lemma {:induction false} ShiftsLinear(a: bv32, b: bv32, n: nat)
    ensures Shifts(Xor(a, b), n) == Xor(Shifts(a, n), Shifts(b, n))
    decreases n
  {
    hide Shift, Xor;
    if n > 0 {
      ShiftLinear(a, b);
      ShiftsLinear(Shift(a), Shift(b), n - 1);
    }
  }

  // ---- the table ----

  function Low(c: bv32): bv8
  {
    (c & 0xFF) as bv8
  }

  function High(c: bv32): bv32
  {
    c & 0xFFFF_FF00
  }

  lemma Split(c: bv32)
    ensures Xor(Widen(Low(c)), High(c)) == c
  {
  }

  /** Eight shifts of a word whose low byte is zero just drop that byte. */
  lemma HighShifts(c: bv32)
    ensures Shifts(High(c), 8) == c >> 8
  {
    var h := High(c);
    Evens(c);
    EvenShift(h);
    EvenShift(Half(h));
    EvenShift(Half(Half(h)));
    EvenShift(Half(Half(Half(h))));
    var k := Half(Half(Half(Half(h))));
    EvenShift(k);
    EvenShift(Half(k));
    EvenShift(Half(Half(k)));
    EvenShift(Half(Half(Half(k))));
    hide Shift, High, Half, Even;
    Eight(h);
  }

  predicate Even(c: bv32)
  {
    c & 1 == 0
  }

  lemma EvenShift(c: bv32)
    ensures Even(c) ==> Shift(c) == Half(c)
  {
  }

  lemma Evens(c: bv32)
    ensures var h := High(c);
            var k := Half(Half(Half(Half(h))));
            Even(h) && Even(Half(h)) && Even(Half(Half(h))) && Even(Half(Half(Half(h)))) &&
            Even(k) && Even(Half(k)) && Even(Half(Half(k))) && Even(Half(Half(Half(k)))) &&
            Half(Half(Half(Half(k)))) == c >> 8
  {
  }

  lemma Eight(c: bv32)
    ensures Shifts(c, 8) == Shift(Shift(Shift(Shift(Shift(Shift(Shift(Shift(c))))))))
  {
    hide Shift;
    var c1 := Shift(c);
    var c2 := Shift(c1);
    var c3 := Shift(c2);
    var c4 := Shift(c3);
    assert Shifts(c, 8) == Shifts(c1, 7) == Shifts(c2, 6) == Shifts(c3, 5) == Shifts(c4, 4);
    var c5 := Shift(c4);
    var c6 := Shift(c5);
    var c7 := Shift(c6);
    assert Shifts(c4, 4) == Shifts(c5, 3) == Shifts(c6, 2) == Shifts(c7, 1) == Shifts(Shift(c7), 0);
  }

  /** The table entry of a byte: its eight shifts. */
  function Entry(b: bv8): bv32
  {
    Shifts(Widen(b), 8)
  }

  /** One look-up does the work of eight shifts. */
  lemma TableStep(crc: bv32, b: bv8)
    ensures Update(crc, b) == Xor(Entry(Low(Xor(crc, Widen(b)))), crc >> 8)
  {
    var x := Xor(crc, Widen(b));
    Split(x);
    hide Xor, Shift, Shifts, Low, High, Widen;
    ShiftsLinear(Widen(Low(x)), High(x), 8);
    HighShifts(x);
    ByteGone(crc, b);
  }

  lemma ByteGone(crc: bv32, b: bv8)
    ensures Xor(crc, Widen(b)) >> 8 == crc >> 8
  {
  }

  ghost predicate IsTable(table: array<bv32>)
    reads table
  {
    table.Length == 256 && forall b: bv8 :: table[Number(b)] == Entry(b)
  }

  /** The inner loop of the table: eight shifts, one at a time. */
  method ShiftEight(start: bv32) returns (c: bv32)
    ensures c == Shifts(start, 8)
  {
    hide Shift;
    c := start;
    var k := 0;
    while k < 8
      invariant 0 <= k <= 8
      invariant Shifts(c, 8 - k) == Shifts(start, 8)
    {
      c := Shift(c);
      k := k + 1;
    }
  }

  method InitTable() returns (table: array<bv32>)
    ensures fresh(table) && IsTable(table)
  {
    table := new bv32[256];
    hide Shifts, Widen, Word, Number;
    var i := 0;
    while i < 256
      invariant 0 <= i <= 256
      invariant forall j | 0 <= j < i :: table[j] == Entry(Word(j))
    {
      var entry := ShiftEight(Widen(Word(i)));
      table[i] := entry;
      i := i + 1;
    }
    forall b: bv8
      ensures table[Number(b)] == Entry(b)
    {
      WordOfNumber(b);
    }
  }

  /** The table-driven checksum is the bit-at-a-time one. */
  method Crc32(table: array<bv32>, data: Bytes) returns (crc: bv32)
    requires IsTable(table)
    ensures crc == Checksum(data)
  {
    hide Shift, Shifts, Widen, Low, Entry, Update, Word, Number;
    crc := ONES;
    var i := 0;
    while i < |data|
      invariant 0 <= i <= |data|
      invariant crc == Updates(ONES, data[..i])
    {
      TableStep(crc, Word(data[i]));
      crc := Xor(table[Number(Low(Xor(crc, Widen(Word(data[i])))))], crc >> 8);
      assert data[..i + 1][..i] == data[..i];
      i := i + 1;
    }
    assert data[..i] == data;
    crc := Xor(crc, ONES);
  }

  // ---- what the checksum detects ----

  lemma ShiftInjective(a: bv32, b: bv32)
    requires Shift(a) == Shift(b)
    ensures a == b
  {
  }

  lemma {:induction false} ShiftsInjective(a: bv32, b: bv32, n: nat)
    requires Shifts(a, n) == Shifts(b, n)
    ensures a == b
    decreases n
  {
    hide Shift;
    if n > 0 {
      ShiftsInjective(Shift(a), Shift(b), n - 1);
      ShiftInjective(a, b);
    }
  }

  lemma XorCancel(a: bv32, b: bv32, c: bv32)
    ensures Xor(a, c) == Xor(b, c) ==> a == b
    ensures Xor(c, a) == Xor(c, b) ==> a == b
  {
  }

  lemma WidenInjective(a: bv8, b: bv8)
    ensures Widen(a) == Widen(b) ==> a == b
  {
  }

  /** The update loses nothing: it is injective in the running value and in the byte. */
  lemma UpdateInjective(c: bv32, d: bv32, x: bv8, y: bv8)
    ensures Update(c, x) == Update(d, x) ==> c == d
    ensures Update(c, x) == Update(c, y) ==> x == y
  {
    hide Xor, Shift, Shifts, Widen;
    if Update(c, x) == Update(d, x) {
      ShiftsInjective(Xor(c, Widen(x)), Xor(d, Widen(x)), 8);
      XorCancel(c, d, Widen(x));
    }
    if Update(c, x) == Update(c, y) {
      ShiftsInjective(Xor(c, Widen(x)), Xor(c, Widen(y)), 8);
      XorCancel(Widen(x), Widen(y), c);
      WidenInjective(x, y);
    }
  }

  lemma {:induction false} UpdatesInjective(c: bv32, d: bv32, data: Bytes)
    ensures Updates(c, data) == Updates(d, data) ==> c == d
  {
    hide Update, Word;
    if data != [] {
      var n := |data| - 1;
      UpdatesInjective(c, d, data[..n]);
      UpdateInjective(Updates(c, data[..n]), Updates(d, data[..n]), Word(data[n]), Word(data[n]));
    }
  }

  lemma {:induction false} UpdatesAppend(c: bv32, a: Bytes, b: Bytes)
    ensures Updates(c, a + b) == Updates(Updates(c, a), b)
    decreases |b|
  {
    hide Update, Word;
    if b == [] {
      assert a + b == a;
    } else {
      var n := |b| - 1;
      assert (a + b)[..|a + b| - 1] == a + b[..n] && (a + b)[|a + b| - 1] == b[n];
      UpdatesAppend(c, a, b[..n]);
    }
  }

  /** Changing any one byte changes the checksum. */
  lemma OneByteChangesChecksum(data: Bytes, i: nat, b: Byte)
    requires i < |data| && b != data[i]
    ensures Checksum(data[i := b]) != Checksum(data)
  {
    hide Update, Xor, Word, Number;
    var before, after := data[..i], data[i + 1..];
    assert data == before + [data[i]] + after;
    assert data[i := b] == before + [b] + after;
    UpdatesAppend(ONES, before + [data[i]], after);
    UpdatesAppend(ONES, before + [b], after);
    assert (before + [data[i]])[..i] == before && (before + [b])[..i] == before;
    var c := Updates(ONES, before);
    var x, y := Update(c, Word(data[i])), Update(c, Word(b));
    NumberOfWord(data[i]);
    NumberOfWord(b);
    UpdateInjective(c, c, Word(data[i]), Word(b));
    UpdatesInjective(x, y, after);
    XorCancel(Updates(x, after), Updates(y, after), ONES);
  }

  // ---- the check value ----

  lemma EightShifts(c0: bv32, c1: bv32, c2: bv32, c3: bv32, c4: bv32, c5: bv32, c6: bv32, c7: bv32, c8: bv32)
    requires Shift(c0) == c1 && Shift(c1) == c2 && Shift(c2) == c3 && Shift(c3) == c4
    requires Shift(c4) == c5 && Shift(c5) == c6 && Shift(c6) == c7 && Shift(c7) == c8
    ensures Shifts(c0, 8) == c8
  {
    hide Shift;
    Eight(c0);
  }

  lemma Digit1()
    ensures Update(0xFFFFFFFF, 0x31) == 0x7C231048
  {
    hide Shifts;
    EightShifts(0xFFFFFFCE, 0x7FFFFFE7, 0xD2477CD3, 0x849B3D49, 0xAFF51D84, 0x57FA8EC2, 0x2BFD4761, 0xF8462090,
                0x7C231048);
  }

  lemma Digit2()
    ensures Update(0x7C231048, 0x32) == 0xB0ACBB32
  {
    hide Shifts;
    EightShifts(0x7C23107A, 0x3E11883D, 0xF2B0473E, 0x7958239F, 0xD11492EF, 0x8532CA57, 0xAF21E60B, 0xBA287025,
                0xB0ACBB32);
  }

  lemma Digit3()
    ensures Update(0xB0ACBB32, 0x33) == 0x77B79C2D
  {
    hide Shifts;
    EightShifts(0xB0ACBB01, 0xB5EEDEA0, 0x5AF76F50, 0x2D7BB7A8, 0x16BDDBD4, 0x0B5EEDEA, 0x05AF76F5, 0xEF6F385A,
                0x77B79C2D);
  }

  lemma Digit4()
    ensures Update(0x77B79C2D, 0x34) == 0x641C1F5C
  {
    hide Shifts;
    EightShifts(0x77B79C19, 0xD6634D2C, 0x6B31A696, 0x3598D34B, 0xF774EA85, 0x9602F662, 0x4B017B31, 0xC8383EB8,
                0x641C1F5C);
  }

  lemma Digit5()
    ensures Update(0x641C1F5C, 0x35) == 0x340AC5E3
  {
    hide Shifts;
    EightShifts(0x641C1F69, 0xDFB68C94, 0x6FDB464A, 0x37EDA325, 0xF64E52B2, 0x7B272959, 0xD02B178C, 0x68158BC6,
                0x340AC5E3);
  }

  lemma Digit6()
    ensures Update(0x340AC5E3, 0x36) == 0xF68D2C9E
  {
    hide Shifts;
    EightShifts(0x340AC5D5, 0xF7BDE1CA, 0x7BDEF0E5, 0xD057FB52, 0x682BFDA9, 0xD9AD7DF4, 0x6CD6BEFA, 0x366B5F7D,
                0xF68D2C9E);
  }

  lemma Digit7()
    ensures Update(0xF68D2C9E, 0x37) == 0xAFFC9660
  {
    hide Shifts;
    EightShifts(0xF68D2CA9, 0x96FE1574, 0x4B7F0ABA, 0x25BF855D, 0xFF67418E, 0x7FB3A0C7, 0xD2615343, 0x84882A81,
                0xAFFC9660);
  }

  lemma Digit8()
    ensures Update(0xAFFC9660, 0x38) == 0x651F2550
  {
    hide Shifts;
    EightShifts(0xAFFC9658, 0x57FE4B2C, 0x2BFF2596, 0x15FF92CB, 0xE7474A45, 0x9E1B2602, 0x4F0D9301, 0xCA3E4AA0,
                0x651F2550);
  }

  lemma Digit9()
    ensures Update(0x651F2550, 0x39) == 0x340BC6D9
  {
    hide Shifts;
    EightShifts(0x651F2569, 0xDF371194, 0x6F9B88CA, 0x37CDC465, 0xF65E6112, 0x7B2F3089, 0xD02F1B64, 0x68178DB2,
                0x340BC6D9);
  }

  lemma DigitWords()
    ensures Word(49) == 0x31 && Word(50) == 0x32 && Word(51) == 0x33 && Word(52) == 0x34 && Word(53) == 0x35 && Word(54) == 0x36 && Word(55) == 0x37 && Word(56) == 0x38 && Word(57) == 0x39
  {
    WordOfNumber(0x31);
    WordOfNumber(0x32);
    WordOfNumber(0x33);
    WordOfNumber(0x34);
    WordOfNumber(0x35);
    WordOfNumber(0x36);
    WordOfNumber(0x37);
    WordOfNumber(0x38);
    WordOfNumber(0x39);
  }

  lemma UpdatesSnoc(crc: bv32, data: Bytes, b: Byte)
    ensures Updates(crc, data + [b]) == Update(Updates(crc, data), Word(b))
  {
    assert (data + [b])[..|data|] == data;
  }

  /** The check value by which implementations of this CRC are told apart: the checksum of the
      ASCII digits 1 to 9. */
  lemma CheckValue()
    ensures Checksum([49, 50, 51, 52, 53, 54, 55, 56, 57]) == 0xCBF4_3926
  {
    hide Update, Word, Updates;
    DigitWords();
    assert Updates(ONES, []) == ONES by { NoUpdates(); }
    UpdatesSnoc(ONES, [], 49);
    Digit1();
    assert [] + [49] == [49];
    assert Updates(ONES, [49]) == 0x7C231048;
    UpdatesSnoc(ONES, [49], 50);
    Digit2();
    assert [49] + [50] == [49, 50];
    assert Updates(ONES, [49, 50]) == 0xB0ACBB32;
    UpdatesSnoc(ONES, [49, 50], 51);
    Digit3();
    assert [49, 50] + [51] == [49, 50, 51];
    assert Updates(ONES, [49, 50, 51]) == 0x77B79C2D;
    UpdatesSnoc(ONES, [49, 50, 51], 52);
    Digit4();
    assert [49, 50, 51] + [52] == [49, 50, 51, 52];
    assert Updates(ONES, [49, 50, 51, 52]) == 0x641C1F5C;
    UpdatesSnoc(ONES, [49, 50, 51, 52], 53);
    Digit5();
    assert [49, 50, 51, 52] + [53] == [49, 50, 51, 52, 53];
    assert Updates(ONES, [49, 50, 51, 52, 53]) == 0x340AC5E3;
    UpdatesSnoc(ONES, [49, 50, 51, 52, 53], 54);
    Digit6();
    assert [49, 50, 51, 52, 53] + [54] == [49, 50, 51, 52, 53, 54];
    assert Updates(ONES, [49, 50, 51, 52, 53, 54]) == 0xF68D2C9E;
    UpdatesSnoc(ONES, [49, 50, 51, 52, 53, 54], 55);
    Digit7();
    assert [49, 50, 51, 52, 53, 54] + [55] == [49, 50, 51, 52, 53, 54, 55];
    assert Updates(ONES, [49, 50, 51, 52, 53, 54, 55]) == 0xAFFC9660;
    UpdatesSnoc(ONES, [49, 50, 51, 52, 53, 54, 55], 56);
    Digit8();
    assert [49, 50, 51, 52, 53, 54, 55] + [56] == [49, 50, 51, 52, 53, 54, 55, 56];
    assert Updates(ONES, [49, 50, 51, 52, 53, 54, 55, 56]) == 0x651F2550;
    UpdatesSnoc(ONES, [49, 50, 51, 52, 53, 54, 55, 56], 57);
    Digit9();
    assert [49, 50, 51, 52, 53, 54, 55, 56] + [57] == [49, 50, 51, 52, 53, 54, 55, 56, 57];
    assert Updates(ONES, [49, 50, 51, 52, 53, 54, 55, 56, 57]) == 0x340BC6D9;
  }

  lemma NoUpdates()
    ensures Updates(ONES, []) == ONES
  {
  }
}
