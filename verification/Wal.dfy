/** Conversion of 32-bit words to numbers. */
module Word32 {

  function ToNat(w: bv32): (n: nat)
    ensures n < 0x1_0000_0000
  {
    w as int
  }

  lemma ToNatInjective(a: bv32, b: bv32)
    ensures ToNat(a) == ToNat(b) ==> a == b
  {
    Back(a);
    Back(b);
  }

  lemma Back(a: bv32)
    ensures (a as int) as bv32 == a
  {
  }
}

/** The write-ahead log: an append-only file of frames, each a length, a checksum and a
    payload.  Recovery reads frames until the first that is incomplete or whose checksum
    does not match. */
module Wal {
  import opened Codec
  import opened Word32
  import Crc

  /** The checksum as stored. */
  function Sum(payload: Bytes): (n: nat)
    ensures n < U32
  {
    ToNat(Crc.Checksum(payload))
  }

  lemma SumDetects(payload: Bytes, i: nat, b: Byte)
    requires i < |payload| && b != payload[i]
    ensures Sum(payload[i := b]) != Sum(payload)
  {
    hide Crc.Checksum, ToNat;
    Crc.OneByteChangesChecksum(payload, i, b);
    ToNatInjective(Crc.Checksum(payload[i := b]), Crc.Checksum(payload));
  }

  function Frame(payload: Bytes): Bytes
  {
    BigEndian(4, |payload| % U32) + BigEndian(4, Sum(payload)) + payload
  }

  /** The file after appending these records to an empty log. */
  function Log(records: seq<Bytes>): Bytes
  {
    if records == [] then [] else Frame(records[0]) + Log(records[1..])
  }

  /** The next record and the rest of the file, or Fail where recovery stops. */
  function ReadFrame(file: Bytes): (r: Parsed<Bytes>)
    ensures r.Got? ==> |r.rest| < |file|
  {
    match TakeNat(4, file)
    case Fail => Fail
    case Got(length, s1) =>
      match TakeNat(4, s1)
      case Fail => Fail
      case Got(stored, s2) =>
        if |s2| < length then Fail
        else if Sum(s2[..length]) != stored then Fail
        else Got(s2[..length], s2[length..])
  }

  function Recover(file: Bytes): seq<Bytes>
    decreases |file|
  {
    match ReadFrame(file)
    case Fail => []
    case Got(payload, rest) => [payload] + Recover(rest)
  }

  ghost predicate Fits(records: seq<Bytes>)
  {
    forall i | 0 <= i < |records| :: |records[i]| < U32
  }

  // ---- whole frames ----

  lemma FrameReads(payload: Bytes, rest: Bytes)
    requires |payload| < U32
    ensures ReadFrame(Frame(payload) + rest) == Got(payload, rest)
  {
    hide BigEndian, TakeNat, Pow256, Sum;
    var sum := Sum(payload);
    Widths();
    NatRoundTrip(4, |payload|, BigEndian(4, sum) + (payload + rest));
    NatRoundTrip(4, sum, payload + rest);
    assert Frame(payload) + rest == BigEndian(4, |payload|) + (BigEndian(4, sum) + (payload + rest));
    assert (payload + rest)[..|payload|] == payload && (payload + rest)[|payload|..] == rest;
  }

  lemma FrameHeader(payload: Bytes)
    requires |payload| < U32
    ensures |Frame(payload)| >= 8 && Frame(payload)[..4] == BigEndian(4, |payload|)
  {
    hide BigEndian, Sum;
  }

  /** A file that starts with a frame's length but is shorter than the frame does not read. */
  lemma ShortFails(payload: Bytes, file: Bytes)
    requires |payload| < U32 && 4 <= |file| < |Frame(payload)| && file[..4] == BigEndian(4, |payload|)
    ensures ReadFrame(file).Fail?
  {
    hide Sum, BigEndian, Value;
    Widths();
    ValueOfBigEndian(4, |payload|);
  }

  /** A frame cut anywhere inside does not read. */
  lemma TornFrameFails(payload: Bytes, n: nat)
    requires |payload| < U32 && n < |Frame(payload)|
    ensures ReadFrame(Frame(payload)[..n]).Fail?
  {
    FrameHeader(payload);
    var file := Frame(payload)[..n];
    if n < 4 {
      assert TakeNat(4, file).Fail?;
    } else {
      hide Frame, ReadFrame;
      assert file[..4] == Frame(payload)[..4];
      ShortFails(payload, file);
    }
  }

  // ---- recovery of a cut log ----

  /** How many leading records lie wholly within the first `n` bytes of the log. */
  function Whole(records: seq<Bytes>, n: nat): (k: nat)
    ensures k <= |records|
  {
    if records == [] || n < |Frame(records[0])| then 0
    else 1 + Whole(records[1..], n - |Frame(records[0])|)
  }

  /** `Whole` is the longest prefix: the first `k` records fit in `n` bytes exactly when `k`
      does not exceed it. */
  lemma {:induction false} WholeIsLongest(records: seq<Bytes>, n: nat, k: nat)
    requires k <= |records|
    ensures |Log(records[..k])| <= n <==> k <= Whole(records, n)
  {
    hide Frame;
    if k > 0 {
      var first := |Frame(records[0])|;
      assert records[..k][0] == records[0] && records[..k][1..] == records[1..][..k - 1];
      if n >= first {
        WholeIsLongest(records[1..], n - first, k - 1);
      }
    }
  }

  /** Cutting the log at any byte loses exactly the records that are not wholly before the
      cut. */
  lemma {:induction false} CutRecovers(records: seq<Bytes>, n: nat)
    requires Fits(records) && n <= |Log(records)|
    ensures Recover(Log(records)[..n]) == records[..Whole(records, n)]
  {
    hide Frame, ReadFrame;
    if records == [] {
      EmptyFails();
    } else {
      var frame, rest := Frame(records[0]), Log(records[1..]);
      if n < |frame| {
        TornFrameFails(records[0], n);
        assert Log(records)[..n] == frame[..n];
      } else {
        var m := n - |frame|;
        assert Log(records)[..n] == frame + rest[..m];
        FrameReads(records[0], rest[..m]);
        CutRecovers(records[1..], m);
        assert records[..Whole(records, n)] == [records[0]] + records[1..][..Whole(records[1..], m)];
      }
    }
  }

  lemma EmptyFails()
    ensures ReadFrame([]).Fail?
  {
  }

  // ---- corruption ----

  /** The byte of the log at offset `o` of record `j`'s checksum and payload. */
  ghost function Offset(records: seq<Bytes>, j: nat, o: nat): nat
    requires j < |records|
  {
    |Log(records[..j])| + 4 + o
  }

  lemma {:induction false} OffsetInLog(records: seq<Bytes>, j: nat, o: nat)
    requires j < |records| && o < 4 + |records[j]|
    ensures Offset(records, j, o) < |Log(records)|
  {
    hide Frame;
    FrameLength(records[0]);
    if j > 0 {
      assert records[..j][0] == records[0] && records[..j][1..] == records[1..][..j - 1];
      OffsetInLog(records[1..], j - 1, o);
    }
  }

  lemma FrameLength(payload: Bytes)
    ensures |Frame(payload)| == 8 + |payload|
  {
  }

  /** What reading does with any length, stored checksum and following bytes. */
  lemma ReadParts(length: nat, stored: Bytes, body: Bytes)
    requires length < U32 && |stored| == 4 && length <= |body|
    ensures var r := ReadFrame(BigEndian(4, length) + (stored + body));
            r == if Sum(body[..length]) == Value(stored) then Got(body[..length], body[length..]) else Fail
  {
    hide BigEndian, Pow256, Value, Sum;
    Widths();
    NatRoundTrip(4, length, stored + body);
    assert (stored + body)[..4] == stored && (stored + body)[4..] == body;
  }

  /** Where a changed byte lands. */
  lemma Splice(x: Bytes, y: Bytes, z: Bytes, o: nat, b: Byte)
    requires o < |y| + |z|
    ensures (x + (y + z))[|x| + o := b]
         == if o < |y| then x + (y[o := b] + z) else x + (y + z[o - |y| := b])
  {
  }

  /** A frame with one byte of its checksum or payload changed does not read. */
  lemma BadFrameFails(payload: Bytes, rest: Bytes, o: nat, b: Byte)
    requires |payload| < U32 && o < 4 + |payload| < |Frame(payload)| && b != Frame(payload)[4 + o]
    ensures ReadFrame((Frame(payload) + rest)[4 + o := b]).Fail?
  {
    hide BigEndian, ReadFrame, Value, Sum;
    var header, stored := BigEndian(4, |payload|), BigEndian(4, Sum(payload));
    Widths();
    ValueOfBigEndian(4, Sum(payload));
    assert Frame(payload) + rest == header + (stored + (payload + rest));
    Splice(header, stored, payload + rest, o, b);
    if o < 4 {
      assert b != stored[o];
      BadSumFails(payload, rest, stored, stored[o := b], o);
    } else {
      assert b != payload[o - 4];
      assert (payload + rest)[o - 4 := b] == payload[o - 4 := b] + rest;
      BadPayloadFails(payload, rest, stored, o - 4, b);
    }
  }

  lemma BadSumFails(payload: Bytes, rest: Bytes, stored: Bytes, stored': Bytes, o: nat)
    requires |payload| < U32 && |stored| == |stored'| == 4 && Value(stored) == Sum(payload)
    requires o < 4 && stored[o] != stored'[o]
    ensures ReadFrame(BigEndian(4, |payload|) + (stored' + (payload + rest))).Fail?
  {
    hide BigEndian, ReadFrame, Value, Sum;
    ReadParts(|payload|, stored', payload + rest);
    assert (payload + rest)[..|payload|] == payload;
    ValueDiffers(stored, stored', o);
  }

  lemma BadPayloadFails(payload: Bytes, rest: Bytes, stored: Bytes, i: nat, b: Byte)
    requires |payload| < U32 && |stored| == 4 && Value(stored) == Sum(payload)
    requires i < |payload| && b != payload[i]
    ensures ReadFrame(BigEndian(4, |payload|) + (stored + (payload[i := b] + rest))).Fail?
  {
    hide BigEndian, ReadFrame, Value, Sum;
    var payload' := payload[i := b];
    ReadParts(|payload|, stored, payload' + rest);
    assert (payload' + rest)[..|payload|] == payload';
    SumDetects(payload, i, b);
  }

  lemma ValueDiffers(a: Bytes, b: Bytes, o: nat)
    requires |a| == |b| && o < |a| && a[o] != b[o]
    ensures Value(a) != Value(b)
  {
    hide Value;
    if Value(a) == Value(b) {
      ValueInjective(a, b);
    }
  }

  /** Changing any one byte of record `j`'s checksum or payload makes recovery return exactly
      the records before it. */
  lemma {:induction false} CorruptionStops(records: seq<Bytes>, j: nat, o: nat, b: Byte)
    requires Fits(records) && j < |records| && o < 4 + |records[j]|
    requires Offset(records, j, o) < |Log(records)| && b != Log(records)[Offset(records, j, o)]
    ensures Recover(Log(records)[Offset(records, j, o) := b]) == records[..j]
  {
    hide Frame, ReadFrame;
    var at, frame, rest := Offset(records, j, o), Frame(records[0]), Log(records[1..]);
    FrameLength(records[0]);
    if j == 0 {
      assert Log(records[..0]) == [];
      BadFrameFails(records[0], rest, o, b);
    } else {
      assert records[..j][0] == records[0] && records[..j][1..] == records[1..][..j - 1];
      var at' := Offset(records[1..], j - 1, o);
      assert at == |frame| + at';
      assert Log(records)[at := b] == frame + rest[at' := b];
      FrameReads(records[0], rest[at' := b]);
      CorruptionStops(records[1..], j - 1, o, b);
      assert records[..j] == [records[0]] + records[1..][..j - 1];
    }
  }

  /** Whole records are recovered up to the first thing that does not read as a frame. */
  lemma {:induction false} RecoversUpTo(records: seq<Bytes>, tail: Bytes)
    requires Fits(records) && ReadFrame(tail).Fail?
    ensures Recover(Log(records) + tail) == records
  {
    hide ReadFrame, Frame;
    if records == [] {
      assert Log(records) + tail == tail;
    } else {
      var rest := Log(records[1..]) + tail;
      assert Log(records) + tail == Frame(records[0]) + rest;
      FrameReads(records[0], rest);
      RecoversUpTo(records[1..], tail);
    }
  }

  /** The log is never truncated, so a torn tail stays in front of later appends: whatever is
      appended is not recovered as long as it does not fill the torn record's length. */
  lemma TornTailHidesLaterRecords(records: seq<Bytes>, torn: Bytes, m: nat, more: Bytes)
    requires Fits(records) && |torn| < U32 && 4 <= m && m + |more| < |Frame(torn)|
    ensures Recover(Log(records) + (Frame(torn)[..m] + more)) == records
  {
    var tail := Frame(torn)[..m] + more;
    FrameHeader(torn);
    hide Frame, ReadFrame, Recover, Log;
    assert tail[..4] == Frame(torn)[..4];
    ShortFails(torn, tail);
    RecoversUpTo(records, tail);
  }

  /** What stands behind whole records is recovered as if it stood alone. */
  lemma {:induction false} RecoverBehind(records: seq<Bytes>, tail: Bytes)
    requires Fits(records)
    ensures Recover(Log(records) + tail) == records + Recover(tail)
  {
    hide ReadFrame, Frame;
    if records == [] {
      assert Log(records) + tail == tail && records + Recover(tail) == Recover(tail);
    } else {
      var rest := Log(records[1..]) + tail;
      assert Log(records) + tail == Frame(records[0]) + rest;
      FrameReads(records[0], rest);
      RecoverBehind(records[1..], tail);
      assert records + Recover(tail) == [records[0]] + (records[1..] + Recover(tail));
    }
  }

  /** Read from its start, the tail is long enough for the length it claims and its checksum
      matches. */
  predicate ReadsAsFrame(tail: Bytes)
  {
    |tail| >= 8 && |tail| >= 8 + Value(tail[..4]) && Sum(tail[8..8 + Value(tail[..4])]) == Value(tail[4..8])
  }

  /** Whatever follows the whole records, a torn frame of any length with later appends
      included, nothing more is recovered if and only if it does not read as a frame. */
  lemma TailHiddenExactly(records: seq<Bytes>, tail: Bytes)
    requires Fits(records)
    ensures Recover(Log(records) + tail) == records <==> !ReadsAsFrame(tail)
  {
    hide Log, Sum, Value, Frame, TakeNat;
    RecoverBehind(records, tail);
    ReadsExactly(tail);
    hide ReadFrame, ReadsAsFrame;
    assert Recover(tail) == [] <==> ReadFrame(tail).Fail?;
    assert |records + Recover(tail)| == |records| + |Recover(tail)|;
    assert Recover(tail) == [] ==> records + Recover(tail) == records;
  }

  lemma ReadsExactly(tail: Bytes)
    ensures ReadFrame(tail).Got? <==> ReadsAsFrame(tail)
  {
    hide Sum, Value;
    if |tail| >= 8 {
      assert tail[4..][..4] == tail[4..8] && tail[4..][4..] == tail[8..];
      var length := Value(tail[..4]);
      if |tail| >= 8 + length {
        assert tail[8..][..length] == tail[8..8 + length];
      }
    }
  }

  /** With less than the length on disk the next append can complete it: one byte of a torn
      frame and an empty record behind it read as an empty record. */
  lemma ShortTornTailMisread(torn: Bytes)
    requires 0 < |torn| < 0x100_0000
    ensures Frame(torn)[..1] == [0] && ReadsAsFrame(Frame(torn)[..1] + Frame([]))
  {
    EmptyFrame();
    SmallLength(torn);
    hide Frame, Sum;
    var tail := Frame(torn)[..1] + Frame([]);
    assert tail == [0, 0, 0, 0, 0, 0, 0, 0, 0];
    assert Value([0, 0, 0, 0]) == 0 by { Value4([0, 0, 0, 0]); }
    assert tail[..4] == [0, 0, 0, 0] && tail[4..8] == [0, 0, 0, 0] && tail[8..8] == [];
  }

  lemma EmptyFrame()
    ensures Sum([]) == 0 && Frame([]) == [0, 0, 0, 0, 0, 0, 0, 0]
  {
    assert Crc.Checksum([]) == Crc.Xor(Crc.ONES, Crc.ONES) == 0;
    assert Sum([]) == 0;
    BigEndian4(0);
    assert BigEndian(4, 0) == [0, 0, 0, 0];
  }

  lemma SmallLength(payload: Bytes)
    requires |payload| < 0x100_0000
    ensures |Frame(payload)| >= 8 && Frame(payload)[..1] == [0]
  {
    hide Sum;
    BigEndian4(|payload|);
    assert BigEndian(4, |payload|)[0] == 0;
  }

  // ---- the object ----

  /** The log file.  What the disk does is a parameter: whether the file opens and how many
      bytes of a write reach it. */
  class WriteAheadLog {
    var file: Bytes

    constructor (existing: Bytes)
      ensures file == existing
    {
      file := existing;
    }

    method Append(payload: Bytes, opens: bool, room: nat) returns (ok: bool)
      modifies this
      ensures ok <==> opens && |Frame(payload)| <= room
      ensures ok ==> file == old(file) + Frame(payload)
      ensures !ok ==> file == old(file) + Frame(payload)[..if opens then room else 0]
    {
      hide BigEndian, Crc.Checksum;
      if !opens {
        return false;
      }
      var table := Crc.InitTable();
      var crc := Crc.Crc32(table, payload);
      var enc := new Encoder();
      enc.WriteU32(|payload| % U32);
      enc.WriteU32(ToNat(crc));
      var frame := enc.buffer + payload;
      ok := |frame| <= room;
      file := file + (if ok then frame else frame[..room]);
    }

    /** Reads one frame at the decoder's offset; None where recovery stops. */
    static method ReadNext(dec: Decoder, table: array<bv32>) returns (r: Option<Bytes>)
      requires dec.Valid() && !dec.failed
      requires Crc.IsTable(table)
      modifies dec
      ensures dec.Valid()
      ensures var frame := ReadFrame(old(dec.Rest()));
              if frame.Fail? then r.None? else r == Some(frame.value) && !dec.failed && dec.Rest() == frame.rest
    {
      hide Value, Crc.Checksum, Crc.IsTable;
      var length := dec.ReadU32();
      if length.None? {
        return None;
      }
      var stored := dec.ReadU32();
      if stored.None? {
        return None;
      }
      if |dec.data| - dec.offset < length.value {
        return None;
      }
      var payload := dec.data[dec.offset..dec.offset + length.value];
      assert payload == dec.Rest()[..length.value];
      var actual := Crc.Crc32(table, payload);
      if ToNat(actual) != stored.value {
        return None;
      }
      dec.offset := dec.offset + length.value;
      r := Some(payload);
    }

    method RecoverRecords() returns (records: seq<Bytes>)
      ensures records == Recover(file)
    {
      records := [];
      var table := Crc.InitTable();
      var dec := new Decoder(file);
      assert ReadSoFar(file, records, dec.Rest());
      hide ReadFrame, Recover, Crc.IsTable, ReadSoFar;
      while true
        invariant dec.Valid() && !dec.failed && fresh(dec)
        invariant Crc.IsTable(table)
        invariant ReadSoFar(file, records, dec.Rest())
        decreases |dec.Rest()|
      {
        ReadOn(file, records, dec.Rest());
        var next := ReadNext(dec, table);
        if next.None? {
          return;
        }
        records := records + [next.value];
      }
    }
  }

  ghost predicate ReadSoFar(file: Bytes, records: seq<Bytes>, rest: Bytes)
  {
    Recover(file) == records + Recover(rest)
  }

  /** One turn of the recovery loop. */
  lemma ReadOn(file: Bytes, records: seq<Bytes>, rest: Bytes)
    requires ReadSoFar(file, records, rest)
    ensures var r := ReadFrame(rest);
            if r.Fail? then records == Recover(file) else ReadSoFar(file, records + [r.value], r.rest)
  {
    hide ReadFrame;
    var r := ReadFrame(rest);
    assert Recover(rest) == if r.Fail? then [] else [r.value] + Recover(r.rest);
  }
}
