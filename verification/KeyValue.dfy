/** The key/value store: every change is logged before it is applied, and opening a store
    replays the log. */
module KeyValue {
  import opened Codec
  import Wal

  type Data = map<Bytes, Bytes>

  datatype Op = Put(key: Bytes, value: Bytes) | Delete(key: Bytes)

  /** What an operation means. */
  function Do(data: Data, op: Op): Data
  {
    match op
    case Put(k, v) => data[k := v]
    case Delete(k) => data - {k}
  }

  function Encode(op: Op): Bytes
  {
    match op
    case Put(k, v) => BigEndian(1, 0) + LengthPrefixed(k) + LengthPrefixed(v)
    case Delete(k) => BigEndian(1, 1) + LengthPrefixed(k)
  }

  /** Applies a recovered record; anything that does not decode is ignored. */
  function ApplyRecord(data: Data, record: Bytes): Data
  {
    match TakeNat(1, record)
    case Fail => data
    case Got(opType, s1) =>
      match TakeBytes(s1)
      case Fail => data
      case Got(key, s2) =>
        if opType == 0 then
          match TakeBytes(s2)
          case Fail => data
          case Got(value, s3) => if s3 == [] then data[key := value] else data
        else if opType == 1 then
          if s2 == [] then data - {key} else data
        else data
  }

  ghost predicate Fits(ops: seq<Op>)
  {
    forall i | 0 <= i < |ops| :: |Encode(ops[i])| < U32
  }

  lemma EncodedApplies(data: Data, op: Op)
    requires |op.key| < U32 && (op.Put? ==> |op.value| < U32)
    ensures ApplyRecord(data, Encode(op)) == Do(data, op)
  {
    hide BigEndian, TakeNat, TakeBytes, Pow256;
    Widths();
    match op
    case Put(k, v) =>
      var tail := LengthPrefixed(v) + [];
      NatRoundTrip(1, 0, LengthPrefixed(k) + tail);
      BytesRoundTrip(k, tail);
      BytesRoundTrip(v, []);
      assert Encode(op) == BigEndian(1, 0) + (LengthPrefixed(k) + tail);
    case Delete(k) =>
      NatRoundTrip(1, 1, LengthPrefixed(k) + []);
      BytesRoundTrip(k, []);
      assert Encode(op) == BigEndian(1, 1) + (LengthPrefixed(k) + []);
  }

  // ---- runs ----

  function After(ops: seq<Op>): Data
  {
    if ops == [] then map[] else Do(After(ops[..|ops| - 1]), ops[|ops| - 1])
  }

  function Replay(records: seq<Bytes>): Data
  {
    if records == [] then map[] else ApplyRecord(Replay(records[..|records| - 1]), records[|records| - 1])
  }

  function Encodings(ops: seq<Op>): (records: seq<Bytes>)
    ensures |records| == |ops| && forall i | 0 <= i < |ops| :: records[i] == Encode(ops[i])
  {
    seq(|ops|, i requires 0 <= i < |ops| => Encode(ops[i]))
  }

  function LogOf(ops: seq<Op>): Bytes
  {
    Wal.Log(Encodings(ops))
  }

  lemma {:induction false} ReplayIsAfter(ops: seq<Op>)
    requires Fits(ops)
    ensures Replay(Encodings(ops)) == After(ops)
  {
    hide ApplyRecord, Encode, Do;
    if ops == [] {
      assert Encodings(ops) == [];
    } else {
      var n := |ops| - 1;
      ReplayIsAfter(ops[..n]);
      assert Encodings(ops)[..n] == Encodings(ops[..n]);
      FieldsFit(ops[n]);
      EncodedApplies(After(ops[..n]), ops[n]);
    }
  }

  lemma FieldsFit(op: Op)
    requires |Encode(op)| < U32
    ensures |op.key| < U32 && (op.Put? ==> |op.value| < U32)
  {
  }

  /** How many operations are wholly on disk when the log is cut after `n` bytes. */
  function Durable(ops: seq<Op>, n: nat): (k: nat)
    ensures k <= |ops|
  {
    Wal.Whole(Encodings(ops), n)
  }

  /** Crash refinement: cut the log of any run at any byte; the reopened store holds exactly
      the map after the operations wholly on disk. */
  lemma CrashRefinement(ops: seq<Op>, n: nat)
    requires Fits(ops) && n <= |LogOf(ops)|
    ensures Replay(Wal.Recover(LogOf(ops)[..n])) == After(ops[..Durable(ops, n)])
  {
    hide Encode, Wal.Log, Wal.Recover, Wal.Whole;
    var k := Durable(ops, n);
    Wal.CutRecovers(Encodings(ops), n);
    assert Encodings(ops)[..k] == Encodings(ops[..k]);
    ReplayIsAfter(ops[..k]);
  }

  /** The operations kept are the longest prefix on disk. */
  lemma DurableIsLongest(ops: seq<Op>, n: nat, k: nat)
    requires k <= |ops|
    ensures |LogOf(ops[..k])| <= n <==> k <= Durable(ops, n)
  {
    assert Encodings(ops[..k]) == Encodings(ops)[..k];
    Wal.WholeIsLongest(Encodings(ops), n, k);
  }

  /** A damaged checksum or payload byte loses that operation and all later ones, and
      nothing before it. */
  lemma CorruptionKeepsEarlierOps(ops: seq<Op>, j: nat, o: nat, b: Byte)
    requires Fits(ops) && j < |ops| && o < 4 + |Encode(ops[j])|
    requires Wal.Offset(Encodings(ops), j, o) < |LogOf(ops)| && b != LogOf(ops)[Wal.Offset(Encodings(ops), j, o)]
    ensures Replay(Wal.Recover(LogOf(ops)[Wal.Offset(Encodings(ops), j, o) := b])) == After(ops[..j])
  {
    hide Encode, Wal.Log, Wal.Recover;
    Wal.CorruptionStops(Encodings(ops), j, o, b);
    assert Encodings(ops)[..j] == Encodings(ops[..j]);
    ReplayIsAfter(ops[..j]);
  }

  // ---- the object ----

  class KVStore {
    const wal: Wal.WriteAheadLog
    var data: Data
    ghost var history: seq<Op>

    /** The log holds exactly the operations done so far and the map is what they leave. */
    ghost predicate Valid()
      reads this, wal
    {
      wal.file == LogOf(history) && data == After(history)
    }

    /** Opens whatever a previous run left; after a run whose log is whole, the store goes on
        as if it had never been closed. */
    constructor (existing: Bytes, ghost was: seq<Op>)
      ensures fresh(wal) && wal.file == existing && data == Replay(Wal.Recover(existing))
      ensures Fits(was) && existing == LogOf(was) ==> Valid() && history == was
    {
      hide Wal.Recover, ApplyRecord, LogOf, After, Fits;
      wal := new Wal.WriteAheadLog(existing);
      data := map[];
      history := was;
      new;
      var records := wal.RecoverRecords();
      var i := 0;
      while i < |records|
        invariant 0 <= i <= |records|
        invariant fresh(wal) && wal.file == existing && data == Replay(records[..i]) && history == was
      {
        assert records[..i + 1][..i] == records[..i];
        data := ApplyRecord(data, records[i]);
        i := i + 1;
      }
      assert records[..i] == records;
      if Fits(was) && existing == LogOf(was) {
        WholeLogReplays(was);
      }
    }

    method PutKey(key: Bytes, value: Bytes, opens: bool, room: nat) returns (ok: bool)
      requires Valid()
      modifies this, wal
      ensures ok ==> Valid() && history == old(history) + [Put(key, value)]
      ensures !ok ==> data == old(data) && history == old(history) &&
                      exists m :: 0 <= m < |LogOf(history + [Put(key, value)])| && |LogOf(history)| <= m &&
                        wal.file == LogOf(history + [Put(key, value)])[..m]
    {
      hide Encode, LogOf, After, Wal.Frame;
      ok := wal.Append(Encode(Put(key, value)), opens, room);
      LogGrows(history, Put(key, value));
      if !ok {
        Wal.FrameLength(Encode(Put(key, value)));
        PartialAppend(history, Put(key, value), if opens then room else 0);
        return false;
      }
      AfterGrows(history, Put(key, value));
      data := data[key := value];
      history := history + [Put(key, value)];
    }

    method Remove(key: Bytes, opens: bool, room: nat) returns (ok: bool)
      requires Valid()
      modifies this, wal
      ensures ok ==> Valid() && history == old(history) + [Delete(key)]
      ensures !ok ==> data == old(data) && history == old(history) &&
                      exists m :: 0 <= m < |LogOf(history + [Delete(key)])| && |LogOf(history)| <= m &&
                        wal.file == LogOf(history + [Delete(key)])[..m]
    {
      hide Encode, LogOf, After, Wal.Frame;
      ok := wal.Append(Encode(Delete(key)), opens, room);
      LogGrows(history, Delete(key));
      if !ok {
        Wal.FrameLength(Encode(Delete(key)));
        PartialAppend(history, Delete(key), if opens then room else 0);
        return false;
      }
      AfterGrows(history, Delete(key));
      data := data - {key};
      history := history + [Delete(key)];
    }
  }

  lemma WholeLogReplays(ops: seq<Op>)
    requires Fits(ops)
    ensures Replay(Wal.Recover(LogOf(ops))) == After(ops)
  {
    hide Encode, Wal.Recover, LogOf, Fits, After, Replay;
    var n := |LogOf(ops)|;
    assert LogOf(ops)[..n] == LogOf(ops) && ops[..|ops|] == ops;
    CrashRefinement(ops, n);
    DurableIsLongest(ops, n, |ops|);
  }

  lemma {:induction false} LogAppend(records: seq<Bytes>, record: Bytes)
    ensures Wal.Log(records + [record]) == Wal.Log(records) + Wal.Frame(record)
  {
    hide Wal.Frame;
    if records == [] {
      assert [record][1..] == [] && records + [record] == [record];
      assert Wal.Log([record]) == Wal.Frame(record) + Wal.Log([]);
    } else {
      assert (records + [record])[1..] == records[1..] + [record];
      LogAppend(records[1..], record);
    }
  }

  lemma LogGrows(ops: seq<Op>, op: Op)
    ensures LogOf(ops + [op]) == LogOf(ops) + Wal.Frame(Encode(op))
  {
    hide Encode, Wal.Frame, Wal.Log;
    assert Encodings(ops + [op]) == Encodings(ops) + [Encode(op)];
    LogAppend(Encodings(ops), Encode(op));
  }

  lemma AfterGrows(ops: seq<Op>, op: Op)
    ensures After(ops + [op]) == Do(After(ops), op)
  {
    assert (ops + [op])[..|ops|] == ops;
  }

  lemma PartialAppend(ops: seq<Op>, op: Op, room: nat)
    requires LogOf(ops + [op]) == LogOf(ops) + Wal.Frame(Encode(op)) && room < |Wal.Frame(Encode(op))|
    ensures var m := |LogOf(ops)| + room;
            m < |LogOf(ops + [op])| && LogOf(ops) + Wal.Frame(Encode(op))[..room] == LogOf(ops + [op])[..m]
  {
    hide Encode, Wal.Frame, LogOf;
  }
}
