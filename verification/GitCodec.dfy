/** Trees and commits as bytes.  Serialization loses nothing, which is why an object's content
    may stand for the hash of its bytes. */
module GitCodec {
  import opened Codec

  /** A tree entry with its name and id as bytes. */
  datatype RawEntry = RawEntry(name: Bytes, isDirectory: bool, id: Bytes)

  datatype RawCommit = RawCommit(tree: Bytes, parents: seq<Bytes>, author: Bytes, message: Bytes)

  const ID: nat := 32

  predicate GoodEntry(e: RawEntry)
  {
    |e.name| < U32 && |e.id| == ID
  }

  function SerializeEntry(e: RawEntry): Bytes
  {
    LengthPrefixed(e.name) + [if e.isDirectory then 1 else 0] + e.id
  }

  function SerializeEntries(es: seq<RawEntry>): Bytes
  {
    if es == [] then [] else SerializeEntry(es[0]) + SerializeEntries(es[1..])
  }

  // ---- the order of entries ----

  /** Byte by byte, a prefix first. */
  predicate Before(a: Bytes, b: Bytes)
  {
    if b == [] then false else if a == [] then true
    else if a[0] != b[0] then a[0] < b[0]
    else Before(a[1..], b[1..])
  }

  ghost predicate BeforeAt(a: Bytes, b: Bytes, k: nat)
  {
    k <= |a| && k < |b| && a[..k] == b[..k] && (k == |a| || a[k] < b[k])
  }

  /** At the first byte where they differ `a` has the smaller one, or it ends there. */
  lemma {:induction false} BeforeMeans(a: Bytes, b: Bytes)
    ensures Before(a, b) <==> exists k: nat :: BeforeAt(a, b, k)
  {
    if a != [] && b != [] && a[0] == b[0] {
      BeforeMeans(a[1..], b[1..]);
      if k: nat :| BeforeAt(a, b, k) {
        assert k > 0;
        assert a[1..][..k - 1] == a[..k][1..] && b[1..][..k - 1] == b[..k][1..];
        assert BeforeAt(a[1..], b[1..], k - 1);
      }
      if k: nat :| BeforeAt(a[1..], b[1..], k) {
        assert a[..k + 1] == [a[0]] + a[1..][..k] && b[..k + 1] == [b[0]] + b[1..][..k];
        assert BeforeAt(a, b, k + 1);
      }
    } else {
      BeforeApart(a, b);
    }
  }

  lemma BeforeApart(a: Bytes, b: Bytes)
    requires a == [] || b == [] || a[0] != b[0]
    ensures Before(a, b) <==> BeforeAt(a, b, 0)
    ensures forall k: nat | BeforeAt(a, b, k) :: k == 0
  {
    forall k: nat | BeforeAt(a, b, k)
      ensures k == 0
    {
    }
  }

  /** Puts an entry behind all whose names do not come after its own. */
  function Place(es: seq<RawEntry>, e: RawEntry): (r: seq<RawEntry>)
    ensures |r| == |es| + 1 && multiset(r) == multiset(es) + multiset{e}
  {
    if es == [] then [e]
    else
      var n := |es| - 1;
      assert es == es[..n] + [es[n]];
      if Before(e.name, es[n].name) then Place(es[..n], e) + [es[n]] else es + [e]
  }

  function SortByName(es: seq<RawEntry>): (r: seq<RawEntry>)
    ensures |r| == |es| && multiset(r) == multiset(es)
  {
    if es == [] then []
    else
      var n := |es| - 1;
      assert es == es[..n] + [es[n]];
      Place(SortByName(es[..n]), es[n])
  }

  ghost predicate InOrder(es: seq<RawEntry>)
  {
    forall i, j | 0 <= i < j < |es| :: !Before(es[j].name, es[i].name)
  }

  lemma {:induction false} NotAfter(a: Bytes, b: Bytes, c: Bytes)
    ensures !(Before(a, b) && Before(b, a))
    ensures !Before(b, a) && !Before(c, b) ==> !Before(c, a)
  {
    if a != [] && b != [] && c != [] && a[0] == b[0] == c[0] {
      NotAfter(a[1..], b[1..], c[1..]);
    } else if a != [] && b != [] && a[0] == b[0] {
      NotAfter(a[1..], b[1..], a[1..]);
    }
  }

  lemma {:induction false} PlaceKeepsOrder(es: seq<RawEntry>, e: RawEntry)
    requires InOrder(es)
    ensures InOrder(Place(es, e))
  {
    hide Before;
    if es != [] {
      var n := |es| - 1;
      if Before(e.name, es[n].name) {
        PlaceKeepsOrder(es[..n], e);
        var r := Place(es[..n], e);
        forall i | 0 <= i < |r|
          ensures !Before(es[n].name, r[i].name)
        {
          assert r[i] in multiset(r);
          NotAfter(e.name, es[n].name, e.name);
        }
      } else {
        forall i | 0 <= i < |es|
          ensures !Before(e.name, es[i].name)
        {
          NotAfter(es[i].name, es[n].name, e.name);
        }
      }
    }
  }

  /** The entries as written: the same entries, in order of name. */
  lemma {:induction false} SortedInOrder(es: seq<RawEntry>)
    ensures InOrder(SortByName(es))
  {
    hide Before, Place;
    if es != [] {
      var n := |es| - 1;
      SortedInOrder(es[..n]);
      PlaceKeepsOrder(SortByName(es[..n]), es[n]);
    }
  }

  /** `serializeTree`: the count, then the entries sorted by name. */
  function SerializeTree(es: seq<RawEntry>): Bytes
  {
    BigEndian(4, |es| % U32) + SerializeEntries(SortByName(es))
  }

  function TakeId(s: Bytes): Parsed<Bytes>
  {
    if |s| < ID then Fail else Got(s[..ID], s[ID..])
  }

  /** Any flag but zero means a directory. */
  function TakeEntry(s: Bytes): Parsed<RawEntry>
  {
    match TakeBytes(s)
    case Fail => Fail
    case Got(name, s1) =>
      if s1 == [] then Fail
      else
        match TakeId(s1[1..])
        case Fail => Fail
        case Got(id, s2) => Got(RawEntry(name, s1[0] != 0, id), s2)
  }

  function TakeEntries(s: Bytes, count: nat): Parsed<seq<RawEntry>>
    decreases count
  {
    if count == 0 then Got([], s)
    else
      match TakeEntry(s)
      case Fail => Fail
      case Got(e, s1) =>
        match TakeEntries(s1, count - 1)
        case Fail => Fail
        case Got(es, s2) => Got([e] + es, s2)
  }

  function ParseTree(s: Bytes): Option<seq<RawEntry>>
  {
    match TakeNat(4, s)
    case Fail => None
    case Got(count, s1) =>
      match TakeEntries(s1, count)
      case Fail => None
      case Got(es, s2) => if s2 == [] then Some(es) else None
  }

  // ---- the parsing loop ----

  /** `parseTree`: reads the count, then that many entries, and must end at the end. */
  method ReadTree(content: Bytes) returns (r: Option<seq<RawEntry>>)
    ensures r == ParseTree(content)
  {
    hide TakeEntry, Value;
    if |content| < 4 {
      return None;
    }
    var count := Value(content[..4]);
    var rest, entries, i := content[4..], [], 0;
    ghost var whole := TakeEntries(rest, count);
    PrependNone(whole);
    while i < count
      invariant 0 <= i <= count
      invariant whole == Prepend(entries, TakeEntries(rest, count - i))
    {
      var next := TakeEntry(rest);
      if next.Fail? {
        return None;
      }
      PrependOne(entries, next.value, TakeEntries(next.rest, count - i - 1));
      entries, rest, i := entries + [next.value], next.rest, i + 1;
    }
    assert entries + [] == entries;
    r := if rest == [] then Some(entries) else None;
  }

  ghost function Prepend(es: seq<RawEntry>, p: Parsed<seq<RawEntry>>): Parsed<seq<RawEntry>>
  {
    match p
    case Fail => Fail
    case Got(more, rest) => Got(es + more, rest)
  }

  lemma PrependNone(p: Parsed<seq<RawEntry>>)
    ensures Prepend([], p) == p
  {
    if p.Got? {
      assert [] + p.value == p.value;
    }
  }

  lemma PrependOne(es: seq<RawEntry>, e: RawEntry, p: Parsed<seq<RawEntry>>)
    ensures Prepend(es, Prepend([e], p)) == Prepend(es + [e], p)
  {
    if p.Got? {
      assert es + ([e] + p.value) == es + [e] + p.value;
    }
  }

  // ---- round trips ----

  lemma IdRoundTrip(id: Bytes, rest: Bytes)
    requires |id| == ID
    ensures TakeId(id + rest) == Got(id, rest)
  {
    assert (id + rest)[..ID] == id && (id + rest)[ID..] == rest;
  }

  lemma EntryRoundTrip(e: RawEntry, rest: Bytes)
    requires GoodEntry(e)
    ensures TakeEntry(SerializeEntry(e) + rest) == Got(e, rest)
  {
    hide TakeBytes, LengthPrefixed, TakeId;
    var flag: Bytes := [if e.isDirectory then 1 else 0];
    var after := flag + (e.id + rest);
    assert SerializeEntry(e) + rest == LengthPrefixed(e.name) + after;
    BytesRoundTrip(e.name, after);
    assert after[1..] == e.id + rest;
    IdRoundTrip(e.id, rest);
  }

  lemma {:induction false} EntriesRoundTrip(es: seq<RawEntry>, rest: Bytes)
    requires forall i | 0 <= i < |es| :: GoodEntry(es[i])
    ensures TakeEntries(SerializeEntries(es) + rest, |es|) == Got(es, rest)
  {
    hide TakeEntry, SerializeEntry, SerializeEntries, GoodEntry;
    FirstEntry(es, rest);
    if es != [] {
      var more := SerializeEntries(es[1..]) + rest;
      EntryRoundTrip(es[0], more);
      EntriesRoundTrip(es[1..], rest);
      assert es == [es[0]] + es[1..];
    }
  }

  lemma {:induction false} FirstEntry(es: seq<RawEntry>, rest: Bytes)
    ensures SerializeEntries(es) + rest ==
              if es == [] then rest else SerializeEntry(es[0]) + (SerializeEntries(es[1..]) + rest)
  {
    hide SerializeEntry;
  }

  /** A serialized tree parses back to its entries in order of name. */
  lemma TreeRoundTrip(es: seq<RawEntry>)
    requires |es| < U32 && forall i | 0 <= i < |es| :: GoodEntry(es[i])
    ensures ParseTree(SerializeTree(es)) == Some(SortByName(es))
    ensures InOrder(SortByName(es)) && multiset(SortByName(es)) == multiset(es)
  {
    hide TakeNat, TakeEntries, SerializeEntries, BigEndian, Pow256, SortByName, InOrder, GoodEntry;
    var sorted := SortByName(es);
    SortedInOrder(es);
    Widths();
    NatRoundTrip(4, |es|, SerializeEntries(sorted));
    AllGood(es, sorted);
    EntriesRoundTrip(sorted, []);
    assert SerializeEntries(sorted) + [] == SerializeEntries(sorted);
  }

  lemma {:induction false} AllGood(es: seq<RawEntry>, sorted: seq<RawEntry>)
    requires multiset(sorted) == multiset(es) && forall i | 0 <= i < |es| :: GoodEntry(es[i])
    ensures forall i | 0 <= i < |sorted| :: GoodEntry(sorted[i])
  {
    hide GoodEntry;
    forall i | 0 <= i < |sorted|
      ensures GoodEntry(sorted[i])
    {
      assert sorted[i] in multiset(sorted);
      assert sorted[i] in es;
    }
  }

  /** Equal bytes mean the same entries, whatever order they were given in. */
  lemma TreeInjective(a: seq<RawEntry>, b: seq<RawEntry>)
    requires |a| < U32 && |b| < U32
    requires (forall i | 0 <= i < |a| :: GoodEntry(a[i])) && (forall i | 0 <= i < |b| :: GoodEntry(b[i]))
    requires SerializeTree(a) == SerializeTree(b)
    ensures multiset(a) == multiset(b)
  {
    hide ParseTree, SerializeTree, SortByName, InOrder;
    TreeRoundTrip(a);
    TreeRoundTrip(b);
  }

  // ---- commits ----

  function SerializeIds(ids: seq<Bytes>): Bytes
  {
    if ids == [] then [] else ids[0] + SerializeIds(ids[1..])
  }

  function SerializeCommit(c: RawCommit): Bytes
  {
    c.tree + BigEndian(4, |c.parents| % U32) + SerializeIds(c.parents) + LengthPrefixed(c.author) + LengthPrefixed(c.message)
  }

  function TakeIds(s: Bytes, count: nat): Parsed<seq<Bytes>>
    decreases count
  {
    if count == 0 then Got([], s)
    else
      match TakeId(s)
      case Fail => Fail
      case Got(id, s1) =>
        match TakeIds(s1, count - 1)
        case Fail => Fail
        case Got(ids, s2) => Got([id] + ids, s2)
  }

  function ParseCommit(s: Bytes): Option<RawCommit>
  {
    match TakeId(s)
    case Fail => None
    case Got(tree, s1) =>
      match TakeNat(4, s1)
      case Fail => None
      case Got(count, s2) =>
        match TakeIds(s2, count)
        case Fail => None
        case Got(parents, s3) =>
          match TakeBytes(s3)
          case Fail => None
          case Got(author, s4) =>
            match TakeBytes(s4)
            case Fail => None
            case Got(message, s5) => if s5 == [] then Some(RawCommit(tree, parents, author, message)) else None
  }

  lemma {:induction false} IdsRoundTrip(ids: seq<Bytes>, rest: Bytes)
    requires forall i | 0 <= i < |ids| :: |ids[i]| == ID
    ensures TakeIds(SerializeIds(ids) + rest, |ids|) == Got(ids, rest)
  {
    hide TakeId, SerializeIds;
    FirstId(ids, rest);
    if ids != [] {
      var more := SerializeIds(ids[1..]) + rest;
      IdRoundTrip(ids[0], more);
      IdsRoundTrip(ids[1..], rest);
      assert ids == [ids[0]] + ids[1..];
    }
  }

  lemma {:induction false} FirstId(ids: seq<Bytes>, rest: Bytes)
    ensures SerializeIds(ids) + rest == if ids == [] then rest else ids[0] + (SerializeIds(ids[1..]) + rest)
  {
  }

  /** A serialized commit parses back, every parent in order. */
  lemma CommitRoundTrip(c: RawCommit)
    requires |c.tree| == ID && |c.parents| < U32 && |c.author| < U32 && |c.message| < U32
    requires forall i | 0 <= i < |c.parents| :: |c.parents[i]| == ID
    ensures ParseCommit(SerializeCommit(c)) == Some(c)
  {
    hide TakeId, TakeNat, TakeIds, TakeBytes, SerializeIds, BigEndian, LengthPrefixed, Pow256;
    Widths();
    var s4 := LengthPrefixed(c.message) + [];
    var s3 := LengthPrefixed(c.author) + s4;
    var s2 := SerializeIds(c.parents) + s3;
    var s1 := BigEndian(4, |c.parents|) + s2;
    assert SerializeCommit(c) == c.tree + s1;
    IdRoundTrip(c.tree, s1);
    NatRoundTrip(4, |c.parents|, s2);
    IdsRoundTrip(c.parents, s3);
    BytesRoundTrip(c.author, s4);
    BytesRoundTrip(c.message, []);
  }
}
