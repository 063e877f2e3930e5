/** The byte formats, seen from the bytes: where each field lies, and which byte strings the
    decoders accept.  Round trips alone would hold of any layout shared by both sides, and of
    decoders that refuse what the encoders never write. */
module WireFormats {
  import opened Codec
  import opened Rpc
  import opened RaftServer
  import opened GitCodec
  import KeyValue
  import Wal

  // ---- numbers and strings ----

  /** Byte `i` of a big-endian number is its digit of that weight. */
  lemma {:induction false} BigEndianDigit(width: nat, v: nat, i: nat)
    requires i < width
    ensures BigEndian(width, v)[i] == v / Pow256(width - 1 - i) % 256
    decreases width
  {
    if i < width - 1 {
      BigEndianDigit(width - 1, v / 256, i);
      DivideTwice(v, Pow256(width - 2 - i));
    }
  }

  lemma DivideTwice(v: nat, p: nat)
    requires p > 0
    ensures v / 256 / p == v / (256 * p)
  {
    var q, r := v / 256, v % 256;
    var a, b := q / p, q % p;
    assert q == a * p + b && v == q * 256 + r;
    assert v == a * (256 * p) + (b * 256 + r);
    assert 0 <= b * 256 + r < 256 * p;
    DivisionIs(v, 256 * p, a, b * 256 + r);
  }

  lemma DivisionIs(v: nat, d: nat, q: nat, r: nat)
    requires d > 0 && v == q * d + r && r < d
    ensures v / d == q
  {
    var k := v / d;
    assert v == k * d + v % d;
    assert k < q ==> (k + 1) * d <= q * d;
    assert k > q ==> (q + 1) * d <= k * d;
  }

  /** Reading a number is undone by writing it. */
  lemma NatCanonical(width: nat, s: Bytes)
    requires width <= |s|
    ensures var v := Value(s[..width]); v < Pow256(width) && BigEndian(width, v) == s[..width]
  {
    var v := Value(s[..width]);
    ValueBound(s[..width]);
    ValueOfBigEndian(width, v);
    ValueInjective(BigEndian(width, v), s[..width]);
  }

  /** A string is read exactly where its length and its bytes stand. */
  lemma BytesCanonical(s: Bytes, bs: Bytes, rest: Bytes)
    ensures TakeBytes(s) == Got(bs, rest) <==> |bs| < U32 && s == LengthPrefixed(bs) + rest
  {
    hide BigEndian, Value;
    Widths();
    if |bs| < U32 && s == LengthPrefixed(bs) + rest {
      BytesRoundTrip(bs, rest);
    }
    if TakeBytes(s) == Got(bs, rest) {
      NatCanonical(4, s);
      assert s == s[..4] + (bs + rest);
    }
  }

  // ---- RPC ----

  lemma RequestLayout(r: Request)
    requires |r.name| < U32 && |r.payload| < U32
    ensures var s, n := SerializeRequest(r), |r.name|;
            |s| == 16 + n + |r.payload| && s[..8] == BigEndian(8, r.id) && s[8..12] == BigEndian(4, n) &&
            s[12..12 + n] == r.name && s[12 + n..16 + n] == BigEndian(4, |r.payload|) && s[16 + n..] == r.payload
  {
    hide BigEndian;
  }

  lemma ResponseLayout(r: Response)
    requires |r.payload| < U32 && |r.error| < U32
    ensures var s, n := SerializeResponse(r), |r.payload|;
            |s| == 17 + n + |r.error| && s[..8] == BigEndian(8, r.id) && s[8..9] == BigEndian(1, if r.ok then 1 else 0) &&
            s[9..13] == BigEndian(4, n) && s[13..13 + n] == r.payload && s[13 + n..17 + n] == BigEndian(4, |r.error|) &&
            s[17 + n..] == r.error
  {
    hide BigEndian;
  }

  /** A request parses if and only if it is the serialization of what it parses to. */
  lemma RequestParsesExactly(s: Bytes, r: Request)
    ensures ParseRequest(s) == Some(r) <==> r.id < U64 && |r.name| < U32 && |r.payload| < U32 && s == SerializeRequest(r)
  {
    hide BigEndian, Value, TakeBytes, LengthPrefixed, SerializeRequest;
    if r.id < U64 && |r.name| < U32 && |r.payload| < U32 && s == SerializeRequest(r) {
      RequestRoundTrip(r);
    }
    if ParseRequest(s) == Some(r) {
      Widths();
      NatCanonical(8, s);
      var s1 := s[8..];
      var s2 := TakeBytes(s1).rest;
      BytesCanonical(s1, r.name, s2);
      BytesCanonical(s2, r.payload, []);
      RequestPieces(r, s, s1, s2);
    }
  }

  lemma RequestPieces(r: Request, s: Bytes, s1: Bytes, s2: Bytes)
    requires s == BigEndian(8, r.id) + s1 && s1 == LengthPrefixed(r.name) + s2 && s2 == LengthPrefixed(r.payload) + []
    ensures s == SerializeRequest(r)
  {
    hide BigEndian, LengthPrefixed;
  }

  // ---- Raft ----

  /** A vote request or heartbeat: the term in eight bytes, the sender in four, nothing more. */
  lemma TermAndIdExactly(s: Bytes, term: nat, id: nat)
    ensures DecodeTermAndId(s) == Some((term, id)) <==> |s| == 12 && Value(s[..8]) == term && Value(s[8..]) == id
    ensures term < U64 && id < U32 ==> (DecodeTermAndId(s) == Some((term, id)) <==> s == EncodeTermAndId(term, id))
  {
    hide BigEndian, Value;
    Widths();
    if |s| == 12 {
      NatCanonical(8, s);
      NatCanonical(4, s[8..]);
      assert s[8..][..4] == s[8..] && s == s[..8] + s[8..];
    }
    if term < U64 && id < U32 {
      TermAndIdRoundTrip(term, id);
    }
    assert |s| >= 8 ==> |s[8..]| == |s| - 8;
    assert |s| >= 12 ==> s[8..][..4] == s[8..12];
  }

  /** A vote or acknowledgement: the term in eight bytes and one flag, any but zero meaning yes. */
  lemma AnswerExactly(s: Bytes, term: nat, yes: bool)
    ensures DecodeAnswer(s) == Some((term, yes)) <==> |s| == 9 && Value(s[..8]) == term && (s[8] != 0 <==> yes)
    ensures term < U64 ==> EncodeAnswer(term, yes) == BigEndian(8, term) + [if yes then 1 else 0]
  {
    hide BigEndian;
    if |s| >= 9 {
      OneByte(s[8..9]);
      assert s[8..][..1] == s[8..9];
    }
    OneDigit(if yes then 1 else 0);
  }

  lemma OneByte(s: Bytes)
    requires |s| == 1
    ensures Value(s) == s[0]
  {
    assert s[..0] == [];
  }

  lemma OneDigit(v: nat)
    requires v < 256
    ensures BigEndian(1, v) == [v]
  {
    assert BigEndian(0, v / 256) == [];
  }

  // ---- the log ----

  ghost predicate FrameAt(file: Bytes, payload: Bytes, rest: Bytes)
  {
    |payload| < U32 && |file| == 8 + |payload| + |rest| && file[..4] == BigEndian(4, |payload|) &&
    file[4..8] == BigEndian(4, Wal.Sum(payload)) && file[8..8 + |payload|] == payload && file[8 + |payload|..] == rest
  }

  /** A frame is read exactly where the length, the checksum and the payload of a record stand
      in this order. */
  lemma FrameReadsExactly(file: Bytes, payload: Bytes, rest: Bytes)
    ensures Wal.ReadFrame(file) == Got(payload, rest) <==> FrameAt(file, payload, rest)
  {
    hide FrameAt, Wal.ReadFrame;
    if FrameAt(file, payload, rest) {
      FrameIsRead(file, payload, rest);
    }
    if Wal.ReadFrame(file) == Got(payload, rest) {
      ReadIsFrame(file, payload, rest);
    }
  }

  lemma FrameIsRead(file: Bytes, payload: Bytes, rest: Bytes)
    requires FrameAt(file, payload, rest)
    ensures Wal.ReadFrame(file) == Got(payload, rest)
  {
    hide BigEndian, Wal.Sum, Wal.ReadFrame;
    Wal.FrameReads(payload, rest);
    assert file == file[..4] + file[4..8] + file[8..8 + |payload|] + file[8 + |payload|..];
    assert file == Wal.Frame(payload) + rest;
  }

  lemma ReadIsFrame(file: Bytes, payload: Bytes, rest: Bytes)
    requires Wal.ReadFrame(file) == Got(payload, rest)
    ensures FrameAt(file, payload, rest)
  {
    hide BigEndian, Value, Wal.Sum, Pow256;
    Widths();
    NatCanonical(4, file);
    NatCanonical(4, file[4..]);
    assert file[4..][..4] == file[4..8];
    var s2 := file[4..][4..];
    assert s2 == file[8..];
  }

  // ---- the key/value records ----

  ghost predicate IsRecord(record: Bytes)
  {
    exists op :: RecordOf(op, record)
  }

  /** The record of an operation whose strings fit their length fields. */
  ghost predicate RecordOf(op: KeyValue.Op, record: Bytes)
  {
    |op.key| < U32 && (op.Put? ==> |op.value| < U32) && KeyValue.Encode(op) == record
  }

  /** A record changes the map as the operation it encodes says, and nothing is changed by a
      record that encodes none. */
  lemma RecordAppliesExactly(data: KeyValue.Data, record: Bytes)
    ensures forall op | RecordOf(op, record) :: KeyValue.ApplyRecord(data, record) == KeyValue.Do(data, op)
    ensures !IsRecord(record) ==> KeyValue.ApplyRecord(data, record) == data
  {
    forall op | RecordOf(op, record)
      ensures KeyValue.ApplyRecord(data, record) == KeyValue.Do(data, op)
    {
      KeyValue.EncodedApplies(data, op);
    }
    if KeyValue.ApplyRecord(data, record) != data {
      NoRecordNoChange(data, record);
    }
  }

  lemma NoRecordNoChange(data: KeyValue.Data, record: Bytes)
    requires KeyValue.ApplyRecord(data, record) != data
    ensures IsRecord(record)
  {
    hide BigEndian, Value, TakeBytes, LengthPrefixed;
    Widths();
    NatCanonical(1, record);
    var kind, s1 := Value(record[..1]), record[1..];
    var key, s2 := TakeBytes(s1).value, TakeBytes(s1).rest;
    BytesCanonical(s1, key, s2);
    if kind == 0 {
      var value := TakeBytes(s2).value;
      BytesCanonical(s2, value, []);
      PutPieces(record, s1, s2, key, value);
      assert RecordOf(KeyValue.Put(key, value), record);
    } else {
      DeletePieces(record, s1, key);
      assert RecordOf(KeyValue.Delete(key), record);
    }
  }

  lemma PutPieces(record: Bytes, s1: Bytes, s2: Bytes, key: Bytes, value: Bytes)
    requires record == BigEndian(1, 0) + s1 && s1 == LengthPrefixed(key) + s2 && s2 == LengthPrefixed(value) + []
    ensures record == KeyValue.Encode(KeyValue.Put(key, value))
  {
    hide BigEndian, LengthPrefixed;
  }

  lemma DeletePieces(record: Bytes, s1: Bytes, key: Bytes)
    requires record == BigEndian(1, 1) + s1 && s1 == LengthPrefixed(key) + []
    ensures record == KeyValue.Encode(KeyValue.Delete(key))
  {
    hide BigEndian, LengthPrefixed;
  }

  /** A put starts with the byte 0, a deletion with 1. */
  lemma RecordKinds(op: KeyValue.Op)
    ensures KeyValue.Encode(op)[..1] == [if op.Put? then 0 else 1]
  {
    hide LengthPrefixed;
    OneDigit(if op.Put? then 0 else 1);
  }

  // ---- version store objects ----

  /** An entry is read exactly where its name, a flag and its 32-byte id stand; any flag but
      zero means a directory. */
  lemma EntryParsesExactly(s: Bytes, e: RawEntry, rest: Bytes)
    ensures TakeEntry(s) == Got(e, rest) <==>
              GoodEntry(e) && exists flag: Byte :: (flag != 0 <==> e.isDirectory) && s == EntryBytes(e, flag) + rest
    ensures SerializeEntry(e) == EntryBytes(e, if e.isDirectory then 1 else 0)
  {
    if TakeEntry(s) == Got(e, rest) {
      var s1 := TakeBytes(s).rest;
      BytesCanonical(s, e.name, s1);
      assert s1[1..] == e.id + rest;
      assert s1 == [s1[0]] + (e.id + rest);
      EntryPieces(s, e, s1[0], rest, s1);
    }
    if flag: Byte :| GoodEntry(e) && (flag != 0 <==> e.isDirectory) && s == EntryBytes(e, flag) + rest {
      var s1 := [flag] + (e.id + rest);
      EntryPieces(LengthPrefixed(e.name) + s1, e, flag, rest, s1);
      BytesCanonical(s, e.name, s1);
      assert s1[1..] == e.id + rest;
      IdRoundTrip(e.id, rest);
    }
  }

  function EntryBytes(e: RawEntry, flag: Byte): Bytes
  {
    LengthPrefixed(e.name) + [flag] + e.id
  }

  lemma EntryPieces(s: Bytes, e: RawEntry, flag: Byte, rest: Bytes, s1: Bytes)
    requires s == LengthPrefixed(e.name) + s1 && s1 == [flag] + (e.id + rest)
    ensures s == EntryBytes(e, flag) + rest
  {
    hide LengthPrefixed;
  }

  /** A commit: the tree's id, the number of parents, their ids, the author, the message. */
  lemma CommitLayout(c: RawCommit)
    requires |c.tree| == ID && |c.parents| < U32 && forall i | 0 <= i < |c.parents| :: |c.parents[i]| == ID
    ensures var s, n := SerializeCommit(c), |c.parents|;
            |s| >= 36 + 32 * n && s[..32] == c.tree && s[32..36] == BigEndian(4, n) &&
            (forall i | 0 <= i < n :: s[36 + 32 * i..68 + 32 * i] == c.parents[i]) &&
            s[36 + 32 * n..] == LengthPrefixed(c.author) + LengthPrefixed(c.message)
  {
    hide BigEndian, LengthPrefixed, SerializeIds;
    var s, ids, n := SerializeCommit(c), SerializeIds(c.parents), |c.parents|;
    IdsLayout(c.parents);
    assert s[36..36 + 32 * n] == ids;
    forall i | 0 <= i < n
      ensures s[36 + 32 * i..68 + 32 * i] == c.parents[i]
    {
      assert s[36 + 32 * i..68 + 32 * i] == s[36..36 + 32 * n][32 * i..32 * i + 32];
    }
  }

  lemma {:induction false} IdsLayout(ids: seq<Bytes>)
    requires forall i | 0 <= i < |ids| :: |ids[i]| == ID
    ensures |SerializeIds(ids)| == 32 * |ids|
    ensures forall i | 0 <= i < |ids| :: SerializeIds(ids)[32 * i..32 * i + 32] == ids[i]
  {
    if ids != [] {
      IdsLayout(ids[1..]);
      var s, more := SerializeIds(ids), SerializeIds(ids[1..]);
      forall i | 0 <= i < |ids|
        ensures s[32 * i..32 * i + 32] == ids[i]
      {
        if i > 0 {
          assert s[32 * i..32 * i + 32] == more[32 * (i - 1)..32 * (i - 1) + 32];
          assert ids[1..][i - 1] == ids[i];
        }
      }
    }
  }
}
