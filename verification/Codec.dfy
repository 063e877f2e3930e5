/** The wire and disk codec shared by the RPC layer and the key/value store:
    big-endian integers and length-prefixed byte strings.  The functions say what the
    bytes are; `Encoder` and `Decoder` are the buffer-growing and offset-advancing
    objects, proved against them. */
module Codec {

  type Byte = x: int | 0 <= x < 256

  type Bytes = seq<Byte>

  datatype Option<+T> = None | Some(value: T)

  /** A decoded value together with the bytes that follow it. */
  datatype Parsed<+T> = Fail | Got(value: T, rest: Bytes)

  const U32: nat := 0x1_0000_0000
  const U64: nat := 0x1_0000_0000_0000_0000

  function Pow256(width: nat): (r: nat)
    ensures r > 0
  {
    if width == 0 then 1 else 256 * Pow256(width - 1)
  }

  lemma Widths()
    ensures Pow256(1) == 256 && Pow256(4) == U32 && Pow256(8) == U64
  {
    assert Pow256(2) == 65536 && Pow256(3) == 0x100_0000;
    assert Pow256(5) == 256 * Pow256(4) && Pow256(6) == 256 * Pow256(5) && Pow256(7) == 256 * Pow256(6);
  }

  /** The low `width` bytes of `v`, most significant byte first. */
  function BigEndian(width: nat, v: nat): (bs: Bytes)
    ensures |bs| == width
  {
    if width == 0 then [] else BigEndian(width - 1, v / 256) + [v % 256]
  }

  /** The number a big-endian byte string denotes. */
  function Value(bs: Bytes): nat
  {
    if bs == [] then 0 else Value(bs[..|bs| - 1]) * 256 + bs[|bs| - 1]
  }

  lemma {:induction false} ValueOfBigEndian(width: nat, v: nat)
    requires v < Pow256(width)
    ensures Value(BigEndian(width, v)) == v
  {
    if width > 0 {
      var bs := BigEndian(width, v);
      assert bs[..width - 1] == BigEndian(width - 1, v / 256);
      ValueOfBigEndian(width - 1, v / 256);
    }
  }

  lemma {:induction false} ValueBound(bs: Bytes)
    ensures Value(bs) < Pow256(|bs|)
  {
    if bs != [] {
      ValueBound(bs[..|bs| - 1]);
    }
  }

  /** Decoding determines the bytes: two strings of one length with one value are equal. */
  lemma {:induction false} ValueInjective(a: Bytes, b: Bytes)
    requires |a| == |b| && Value(a) == Value(b)
    ensures a == b
  {
    if a != [] {
      var n := |a| - 1;
      assert a[n] == b[n] && Value(a[..n]) == Value(b[..n]);
      ValueInjective(a[..n], b[..n]);
      assert a == a[..n] + [a[n]] && b == b[..n] + [b[n]];
    }
  }

  function TakeNat(width: nat, s: Bytes): Parsed<nat>
  {
    if |s| < width then Fail else Got(Value(s[..width]), s[width..])
  }

  /** A byte string behind its 32-bit length.  The length is cast to 32 bits, so it wraps. */
  function LengthPrefixed(bs: Bytes): Bytes
  {
    BigEndian(4, |bs| % U32) + bs
  }

  function TakeBytes(s: Bytes): Parsed<Bytes>
  {
    match TakeNat(4, s)
    case Fail => Fail
    case Got(len, rest) => if |rest| < len then Fail else Got(rest[..len], rest[len..])
  }

  lemma NatRoundTrip(width: nat, v: nat, rest: Bytes)
    requires v < Pow256(width)
    ensures TakeNat(width, BigEndian(width, v) + rest) == Got(v, rest)
  {
    var s := BigEndian(width, v) + rest;
    assert s[..width] == BigEndian(width, v) && s[width..] == rest;
    ValueOfBigEndian(width, v);
  }

  lemma BytesRoundTrip(bs: Bytes, rest: Bytes)
    requires |bs| < U32
    ensures TakeBytes(LengthPrefixed(bs) + rest) == Got(bs, rest)
  {
    hide BigEndian, Value, Pow256;
    Widths();
    NatRoundTrip(4, |bs|, bs + rest);
    assert LengthPrefixed(bs) + rest == BigEndian(4, |bs|) + (bs + rest);
    assert (bs + rest)[..|bs|] == bs && (bs + rest)[|bs|..] == rest;
  }

  /** The wrapped length makes the string unreadable as itself: the round trip holds for
      exactly the strings shorter than 2^32 bytes. */
  lemma BytesRoundTripExactly(bs: Bytes)
    ensures TakeBytes(LengthPrefixed(bs)) == Got(bs, []) <==> |bs| < U32
  {
    Widths();
    NatRoundTrip(4, |bs| % U32, bs);
    if |bs| < U32 {
      assert LengthPrefixed(bs) + [] == LengthPrefixed(bs);
      BytesRoundTrip(bs, []);
    } else {
      assert |bs[..|bs| % U32]| < |bs|;
    }
  }

  /** Grows a buffer, one field at a time. */
  class Encoder {
    var buffer: Bytes

    constructor ()
      ensures buffer == []
    {
      buffer := [];
    }

    method WriteU8(value: nat)
      requires value < 256
      modifies this
      ensures buffer == old(buffer) + BigEndian(1, value)
    {
      assert BigEndian(1, value) == BigEndian(0, value / 256) + [value];
      buffer := buffer + [value];
    }

    method WriteU32(value: nat)
      requires value < U32
      modifies this
      ensures buffer == old(buffer) + BigEndian(4, value)
    {
      BigEndian4(value);
      buffer := buffer + [value / 0x100_0000 % 256];
      buffer := buffer + [value / 0x1_0000 % 256];
      buffer := buffer + [value / 0x100 % 256];
      buffer := buffer + [value % 256];
    }

    /** Shifts the value right by 8*i bits for i = 7 down to 0. */
    method WriteU64(value: nat)
      requires value < U64
      modifies this
      ensures buffer == old(buffer) + BigEndian(8, value)
    {
      var i := 8;
      assert ShiftedRight(value, 0) == value;
      hide ShiftedRight, BigEndian;
      while i > 0
        invariant 0 <= i <= 8
        invariant buffer == old(buffer) + BigEndian(8 - i, ShiftedRight(value, i))
      {
        i := i - 1;
        NextByte(8 - i, i, value);
        buffer := buffer + [ShiftedRight(value, i) % 256];
      }
    }

    method WriteBytes(bytes: Bytes)
      modifies this
      ensures buffer == old(buffer) + LengthPrefixed(bytes)
    {
      WriteU32(|bytes| % U32);
      buffer := buffer + bytes;
    }
  }

  /** `v` shifted right by `i` bytes. */
  function ShiftedRight(v: nat, i: nat): nat
  {
    if i == 0 then v else ShiftedRight(v / 256, i - 1)
  }

  /** One turn of the shifting loop appends the next less significant byte. */
  lemma NextByte(width: nat, i: nat, v: nat)
    requires width > 0
    ensures BigEndian(width, ShiftedRight(v, i))
         == BigEndian(width - 1, ShiftedRight(v, i + 1)) + [ShiftedRight(v, i) % 256]
  {
    ShiftAgain(v, i);
    hide ShiftedRight;
    var q := ShiftedRight(v, i);
    assert BigEndian(width, q) == BigEndian(width - 1, q / 256) + [q % 256];
  }

  lemma {:induction false} ShiftAgain(v: nat, i: nat)
    ensures ShiftedRight(v, i + 1) == ShiftedRight(v, i) / 256
  {
    if i > 0 {
      ShiftAgain(v / 256, i - 1);
    }
  }

  lemma BigEndian4(v: nat)
    ensures BigEndian(4, v) == [v / 0x100_0000 % 256, v / 0x1_0000 % 256,
                                v / 0x100 % 256, v % 256]
  {
    assert v / 256 / 256 == v / 0x1_0000;
    assert v / 0x1_0000 / 256 == v / 0x100_0000;
    assert BigEndian(4, v) == BigEndian(3, v / 256) + [v % 256];
    assert BigEndian(3, v / 256) == BigEndian(2, v / 0x1_0000) + [v / 256 % 256];
    assert BigEndian(2, v / 0x1_0000) == BigEndian(1, v / 0x100_0000) + [v / 0x1_0000 % 256];
    assert BigEndian(1, v / 0x100_0000) == BigEndian(0, v / 0x100_0000 / 256) + [v / 0x100_0000 % 256];
  }

  /** Reads fields at an advancing offset.  Once a read has failed, every later read fails. */
  class Decoder {
    const data: Bytes
    var offset: nat
    var failed: bool

    ghost predicate Valid()
      reads this
    {
      offset <= |data|
    }

    ghost function Rest(): Bytes
      requires Valid()
      reads this
    {
      data[offset..]
    }

    constructor (data: Bytes)
      ensures Valid() && !failed && this.data == data && Rest() == data
    {
      this.data := data;
      offset, failed := 0, false;
    }

    method ReadU8() returns (out: Option<nat>)
      requires Valid()
      modifies this
      ensures Valid()
      ensures var parse := TakeNat(1, old(Rest()));
              if old(failed) || parse.Fail? then out.None? && failed
              else out == Some(parse.value) && !failed && Rest() == parse.rest
    {
      if failed || offset + 1 > |data| {
        failed := true;
        return None;
      }
      assert Value(Rest()[..1][..0]) == 0;
      out := Some(data[offset]);
      offset := offset + 1;
    }

    method ReadU32() returns (out: Option<nat>)
      requires Valid()
      modifies this
      ensures Valid()
      ensures var parse := TakeNat(4, old(Rest()));
              if old(failed) || parse.Fail? then out.None? && failed
              else out == Some(parse.value) && !failed && Rest() == parse.rest
    {
      if failed || offset + 4 > |data| {
        failed := true;
        return None;
      }
      Value4(Rest()[..4]);
      var b0: nat, b1: nat, b2: nat, b3: nat :=
        data[offset], data[offset + 1], data[offset + 2], data[offset + 3];
      out := Some(b0 * 0x100_0000 + b1 * 0x1_0000 + b2 * 0x100 + b3);
      offset := offset + 4;
    }

    method ReadU64() returns (out: Option<nat>)
      requires Valid()
      modifies this
      ensures Valid()
      ensures var parse := TakeNat(8, old(Rest()));
              if old(failed) || parse.Fail? then out.None? && failed
              else out == Some(parse.value) && !failed && Rest() == parse.rest
    {
      if failed || offset + 8 > |data| {
        failed := true;
        return None;
      }
      var i: nat, acc: nat := 0, 0;
      while i < 8
        invariant 0 <= i <= 8
        invariant acc == Value(Rest()[..i])
      {
        assert Rest()[..i + 1][..i] == Rest()[..i];
        acc := acc * 256 + data[offset + i];
        i := i + 1;
      }
      out := Some(acc);
      offset := offset + 8;
    }

    method ReadBytes() returns (out: Option<Bytes>)
      requires Valid()
      modifies this
      ensures Valid()
      ensures var parse := TakeBytes(old(Rest()));
              if old(failed) || parse.Fail? then out.None? && failed
              else out == Some(parse.value) && !failed && Rest() == parse.rest
    {
      var len := ReadU32();
      if len.None? {
        return None;
      }
      if failed || offset + len.value > |data| {
        failed := true;
        return None;
      }
      assert Rest() == old(Rest())[4..] && Rest()[..len.value] == data[offset..offset + len.value];
      out := Some(data[offset..offset + len.value]);
      offset := offset + len.value;
    }

    method AtEnd() returns (r: bool)
      requires Valid()
      ensures r <==> !failed && Rest() == []
    {
      r := !failed && offset == |data|;
    }
  }

  lemma Value4(s: Bytes)
    requires |s| == 4
    ensures var b0: nat, b1: nat, b2: nat, b3: nat := s[0], s[1], s[2], s[3];
            Value(s) == b0 * 0x100_0000 + b1 * 0x1_0000 + b2 * 0x100 + b3
  {
    assert s[..3][..2] == s[..2] && s[..2][..1] == s[..1] && s[..1][..0] == [];
    assert Value(s[..1]) == Value(s[..1][..0]) * 256 + s[0];
    assert Value(s[..2]) == Value(s[..1]) * 256 + s[1];
    assert Value(s[..3]) == Value(s[..2]) * 256 + s[2];
  }
}
