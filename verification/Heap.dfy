/** The kernel heap.  Pages from the frame allocator become segments; each segment is tiled
    by blocks, a header and a payload each, linked in address order.  Everything here works
    on 32-bit addresses and sizes; a header takes 16 bytes and a segment's own fields 8. */
module HeapLayout {

  const U32: nat := 0x1_0000_0000
  const PAGE: nat := 4096
  const SEGMENT: nat := 8
  const HEADER: nat := 16
  const SPAN: nat := PAGE - SEGMENT

  datatype Block = Block(size: nat, used: bool)

  /** One segment: its page and its blocks in address order. */
  datatype Chain = Chain(page: nat, blocks: seq<Block>)

  /** A live payload. */
  datatype Payload = Payload(at: nat, size: nat)

  /** Rounds up to a multiple of 8 in 32-bit arithmetic: the sum wraps. */
  function AlignUp(value: nat): nat
  {
    (value + 7) % U32 / 8 * 8
  }

  /** The rounded size holds the request exactly when the sum does not wrap. */
  lemma AlignUpHolds(value: nat)
    requires value < U32
    ensures AlignUp(value) % 8 == 0
    ensures AlignUp(value) >= value <==> value <= U32 - 8
    ensures value > U32 - 8 ==> AlignUp(value) == 0
  {
  }

  // ---- tiling ----

  function Span(bs: seq<Block>): nat
  {
    if bs == [] then 0 else HEADER + bs[0].size + Span(bs[1..])
  }

  /** The payloads in use among blocks laid out from `at`. */
  function LiveFrom(at: nat, bs: seq<Block>): set<Payload>
    decreases |bs|
  {
    if bs == [] then {}
    else (if bs[0].used then {Payload(at + HEADER, bs[0].size)} else {}) +
         LiveFrom(at + HEADER + bs[0].size, bs[1..])
  }

  function UsedBytes(bs: seq<Block>): nat
  {
    if bs == [] then 0 else (if bs[0].used then bs[0].size else 0) + UsedBytes(bs[1..])
  }

  lemma {:induction false} Appended(at: nat, a: seq<Block>, z: seq<Block>)
    ensures Span(a + z) == Span(a) + Span(z)
    ensures UsedBytes(a + z) == UsedBytes(a) + UsedBytes(z)
    ensures LiveFrom(at, a + z) == LiveFrom(at, a) + LiveFrom(at + Span(a), z)
    decreases |a|
  {
    if a == [] {
      assert a + z == z;
    } else {
      assert (a + z)[1..] == a[1..] + z;
      Appended(at + HEADER + a[0].size, a[1..], z);
    }
  }

  lemma One(at: nat, b: Block)
    ensures Span([b]) == HEADER + b.size && UsedBytes([b]) == (if b.used then b.size else 0)
    ensures LiveFrom(at, [b]) == if b.used then {Payload(at + HEADER, b.size)} else {}
  {
    assert [b][1..] == [];
  }

  lemma {:induction false} LiveRange(at: nat, bs: seq<Block>, p: Payload)
    requires p in LiveFrom(at, bs)
    ensures at + HEADER <= p.at && p.at + p.size <= at + Span(bs)
    decreases |bs|
  {
    if p in LiveFrom(at + HEADER + bs[0].size, bs[1..]) {
      LiveRange(at + HEADER + bs[0].size, bs[1..], p);
    }
  }

  lemma {:induction false} UsedBound(bs: seq<Block>)
    ensures bs != [] ==> UsedBytes(bs) + HEADER <= Span(bs)
  {
    if bs != [] {
      UsedBound(bs[1..]);
    }
  }

  ghost predicate Rounded(bs: seq<Block>)
  {
    forall i | 0 <= i < |bs| :: bs[i].size % 8 == 0
  }

  /** No two neighbours are both free. */
  ghost predicate Settled(bs: seq<Block>)
  {
    forall i | 0 < i < |bs| :: bs[i - 1].used || bs[i].used
  }

  /** The blocks tile the page behind the segment's fields. */
  ghost predicate Tiled(c: Chain)
  {
    c.page % PAGE == 0 && 0 < c.page && c.page + PAGE <= U32 &&
    c.blocks != [] && Span(c.blocks) == SPAN && Rounded(c.blocks)
  }

  ghost predicate LaidOut(chains: seq<Chain>)
  {
    (forall i | 0 <= i < |chains| :: Tiled(chains[i])) &&
    (forall i, j | 0 <= i < j < |chains| :: chains[i].page != chains[j].page)
  }

  ghost predicate AllSettled(chains: seq<Chain>)
  {
    forall i | 0 <= i < |chains| :: Settled(chains[i].blocks)
  }

  function LiveIn(c: Chain): set<Payload>
  {
    LiveFrom(c.page + SEGMENT, c.blocks)
  }

  function Live(chains: seq<Chain>): set<Payload>
  {
    if chains == [] then {} else LiveIn(chains[0]) + Live(chains[1..])
  }

  function Used(chains: seq<Chain>): nat
  {
    if chains == [] then 0 else UsedBytes(chains[0].blocks) + Used(chains[1..])
  }

  // ---- what the layout guarantees ----

  lemma {:induction false} LiveWhere(chains: seq<Chain>, p: Payload)
    requires p in Live(chains)
    ensures exists i :: 0 <= i < |chains| && p in LiveIn(chains[i])
  {
    if p in LiveIn(chains[0]) {
    } else {
      LiveWhere(chains[1..], p);
      var i :| 0 <= i < |chains[1..]| && p in LiveIn(chains[1..][i]);
      assert chains[i + 1] == chains[1..][i];
    }
  }

  lemma {:induction false} LiveThere(chains: seq<Chain>, i: nat)
    requires i < |chains|
    ensures LiveIn(chains[i]) <= Live(chains)
  {
    if i > 0 {
      LiveThere(chains[1..], i - 1);
    }
  }

  ghost predicate Apart(p: Payload, q: Payload)
  {
    p.at + p.size + HEADER <= q.at || q.at + q.size + HEADER <= p.at
  }

  lemma {:induction false} ApartInChain(at: nat, bs: seq<Block>, p: Payload, q: Payload)
    requires p in LiveFrom(at, bs) && q in LiveFrom(at, bs) && p != q
    ensures Apart(p, q)
    decreases |bs|
  {
    var next := at + HEADER + bs[0].size;
    var first := Payload(at + HEADER, bs[0].size);
    if p != first && q != first {
      ApartInChain(next, bs[1..], p, q);
    } else {
      LiveRange(next, bs[1..], if p == first then q else p);
    }
  }

  lemma {:induction false} RoundedPayloads(at: nat, bs: seq<Block>, p: Payload)
    requires at % 8 == 0 && Rounded(bs) && p in LiveFrom(at, bs)
    ensures p.at % 8 == 0
    decreases |bs|
  {
    assert bs[0].size % 8 == 0;
    if p in LiveFrom(at + HEADER + bs[0].size, bs[1..]) {
      RoundedPayloads(at + HEADER + bs[0].size, bs[1..], p);
    }
  }

  lemma LivePlace(chains: seq<Chain>, p: Payload) returns (i: nat)
    requires LaidOut(chains) && p in Live(chains)
    ensures i < |chains| && p in LiveIn(chains[i]) && p.at % 8 == 0
    ensures chains[i].page % PAGE == 0 && chains[i].page + SEGMENT + HEADER <= p.at
    ensures p.at + p.size <= chains[i].page + PAGE
  {
    LiveWhere(chains, p);
    i :| i < |chains| && p in LiveIn(chains[i]);
    hide LiveFrom, Live, Span, Rounded;
    var c := chains[i];
    assert Tiled(c);
    PageAligned(c.page);
    LiveRange(c.page + SEGMENT, c.blocks, p);
    RoundedPayloads(c.page + SEGMENT, c.blocks, p);
  }

  /** Live payloads are 8-aligned, lie inside a heap page behind the segment's fields, and any
      two are separated by at least a header. */
  lemma {:induction false} LivePayloadsDisjoint(chains: seq<Chain>, p: Payload, q: Payload)
    requires LaidOut(chains) && p in Live(chains) && q in Live(chains)
    ensures p.at % 8 == 0
    ensures exists i :: 0 <= i < |chains| && chains[i].page + SEGMENT + HEADER <= p.at &&
                        p.at + p.size <= chains[i].page + PAGE
    ensures p != q ==> Apart(p, q)
  {
    hide LiveFrom, Tiled, Live;
    var i := LivePlace(chains, p);
    var j := LivePlace(chains, q);
    if p != q {
      if i == j {
        ApartInChain(chains[i].page + SEGMENT, chains[i].blocks, p, q);
      } else {
        assert chains[i].page != chains[j].page;
        PagesApart(chains[i].page, chains[j].page);
      }
    }
  }

  lemma PageAligned(page: nat)
    requires page % PAGE == 0
    ensures (page + SEGMENT) % 8 == 0
  {
    Eights(512 * (page / PAGE) + 1);
  }

  lemma Eights(n: nat)
    ensures 8 * n % 8 == 0
  {
  }

  lemma PagesApart(a: nat, b: nat)
    requires a % PAGE == 0 && b % PAGE == 0 && a != b
    ensures a + PAGE <= b || b + PAGE <= a
  {
  }

  lemma {:induction false} UsedIsLive(at: nat, bs: seq<Block>, k: nat)
    requires k < |bs| && bs[k].used
    ensures LiveFrom(at, bs) != {}
    decreases k
  {
    if k > 0 {
      UsedIsLive(at + HEADER + bs[0].size, bs[1..], k - 1);
    }
  }

  /** Nothing stays split: a heap with nothing live is one whole free block a page. */
  lemma {:induction false} EmptyHeapIsWhole(chains: seq<Chain>, i: nat)
    requires LaidOut(chains) && AllSettled(chains) && Live(chains) == {} && i < |chains|
    ensures chains[i].blocks == [Block(SPAN - HEADER, false)]
  {
    var c := chains[i];
    assert |c.blocks| > 1 ==> c.blocks[0].used || c.blocks[1].used;
    LiveThere(chains, i);
    forall k | 0 <= k < |c.blocks|
      ensures !c.blocks[k].used
    {
      if c.blocks[k].used {
        UsedIsLive(c.page + SEGMENT, c.blocks, k);
      }
    }
    assert |c.blocks| == 1;
    One(0, c.blocks[0]);
    assert c.blocks == [c.blocks[0]];
  }

  // ---- the counter never wraps ----

  lemma {:induction false} UsedAtMost(chains: seq<Chain>)
    requires LaidOut(chains)
    ensures Used(chains) <= (SPAN - HEADER) * |chains|
  {
    if chains != [] {
      UsedBound(chains[0].blocks);
      UsedAtMost(chains[1..]);
    }
  }

  lemma {:induction false} Pigeonhole(numbers: set<nat>, n: nat)
    requires n > 0 && forall x | x in numbers :: 0 < x < n
    ensures |numbers| < n
  {
    if n == 1 {
      assert numbers == {};
    } else {
      Pigeonhole(numbers - {n - 1}, n - 1);
    }
  }

  lemma {:induction false} PageNumbers(chains: seq<Chain>) returns (numbers: set<nat>)
    requires LaidOut(chains)
    ensures |numbers| == |chains|
    ensures forall x | x in numbers :: 0 < x < 0x10_0000
    ensures forall x | x in numbers :: exists i :: 0 <= i < |chains| && chains[i].page == x * PAGE
  {
    if chains == [] {
      numbers := {};
    } else {
      var rest := PageNumbers(chains[1..]);
      var x := chains[0].page / PAGE;
      assert chains[0].page == x * PAGE;
      forall i | 0 <= i < |chains[1..]|
        ensures chains[1..][i].page != x * PAGE
      {
        assert chains[i + 1].page != chains[0].page;
      }
      numbers := rest + {x};
      forall y | y in numbers
        ensures exists i :: 0 <= i < |chains| && chains[i].page == y * PAGE
      {
        if y == x {
          assert chains[0].page == y * PAGE;
        } else {
          var i :| 0 <= i < |chains[1..]| && chains[1..][i].page == y * PAGE;
          assert chains[i + 1].page == y * PAGE;
        }
      }
    }
  }

  lemma CounterFits(chains: seq<Chain>)
    requires LaidOut(chains)
    ensures Used(chains) < U32
  {
    UsedAtMost(chains);
    var numbers := PageNumbers(chains);
    Pigeonhole(numbers, 0x10_0000);
  }

  // ---- replacing the blocks of one chain ----

  ghost function WithBlocks(chains: seq<Chain>, c: nat, bs: seq<Block>): seq<Chain>
    requires c < |chains|
  {
    chains[c := Chain(chains[c].page, bs)]
  }

  lemma LaidOutWith(chains: seq<Chain>, c: nat, bs: seq<Block>)
    requires LaidOut(chains) && c < |chains| && bs != [] && Span(bs) == SPAN && Rounded(bs)
    ensures LaidOut(WithBlocks(chains, c, bs))
  {
    hide Span;
  }

  lemma {:induction false} LiveAround(chains: seq<Chain>, c: nat)
    requires c < |chains|
    ensures Live(chains) == Live(chains[..c]) + LiveIn(chains[c]) + Live(chains[c + 1..])
    ensures Used(chains) == Used(chains[..c]) + UsedBytes(chains[c].blocks) + Used(chains[c + 1..])
  {
    hide LiveIn;
    if c > 0 {
      assert chains[..c][0] == chains[0] && chains[..c][1..] == chains[1..][..c - 1];
      LiveAround(chains[1..], c - 1);
      assert chains[1..][c..] == chains[c + 1..];
    }
  }

  /** The chains other than `c`. */
  ghost function Others(chains: seq<Chain>, c: nat): set<Payload>
    requires c < |chains|
  {
    Live(chains[..c]) + Live(chains[c + 1..])
  }

  lemma LiveWith(chains: seq<Chain>, c: nat, bs: seq<Block>)
    requires c < |chains|
    ensures Live(WithBlocks(chains, c, bs)) == Others(chains, c) + LiveFrom(chains[c].page + SEGMENT, bs)
    ensures Used(WithBlocks(chains, c, bs)) + UsedBytes(chains[c].blocks) == Used(chains) + UsedBytes(bs)
    ensures Live(chains) == Others(chains, c) + LiveIn(chains[c])
  {
    var after := WithBlocks(chains, c, bs);
    LiveAround(chains, c);
    LiveAround(after, c);
    assert after[..c] == chains[..c] && after[c + 1..] == chains[c + 1..];
  }

  lemma OthersElsewhere(chains: seq<Chain>, c: nat, p: Payload)
    requires LaidOut(chains) && c < |chains| && p in Others(chains, c)
    ensures p.at + p.size <= chains[c].page || chains[c].page + PAGE + SEGMENT + HEADER <= p.at
  {
    hide Live, LaidOut;
    assert chains[..c] == chains[0..c] && chains[c + 1..] == chains[c + 1..|chains|];
    if p in Live(chains[..c]) {
      PartElsewhere(chains, 0, c, c, p);
    } else {
      PartElsewhere(chains, c + 1, |chains|, c, p);
    }
  }

  lemma PartElsewhere(chains: seq<Chain>, lo: nat, hi: nat, c: nat, p: Payload)
    requires LaidOut(chains) && c < |chains| && lo <= hi <= |chains| && !(lo <= c < hi) && p in Live(chains[lo..hi])
    ensures p.at + p.size <= chains[c].page || chains[c].page + PAGE + SEGMENT + HEADER <= p.at
  {
    var part := chains[lo..hi];
    assert LaidOut(part);
    hide Live, LiveIn, Tiled;
    var i := LivePlace(part, p);
    var d := chains[lo + i];
    assert d == part[i] && d.page != chains[c].page;
    assert Tiled(chains[c]);
    TiledPage(chains[c]);
    PagesApart(d.page, chains[c].page);
  }

  lemma TiledPage(c: Chain)
    requires Tiled(c)
    ensures c.page % PAGE == 0
  {
  }

  // ---- allocating and freeing within a chain ----

  function Merged(b: Block, n: Block): Block
  {
    Block(b.size + HEADER + n.size, b.used)
  }

  function Rest(b: Block, size: nat): Block
    requires b.size >= size + HEADER
  {
    Block(b.size - size - HEADER, false)
  }

  /** A free block cut to `size`, if the leftover is worth a block of its own. */
  function Cut(b: Block, size: nat): seq<Block>
    requires b.size >= size
  {
    if b.size - size < HEADER + 8 then [b] else [Block(size, b.used), Rest(b, size)]
  }

  function Taken(b: Block, size: nat): Block
    requires b.size >= size
  {
    Block(Cut(b, size)[0].size, true)
  }

  /** What becomes of a chain when a free block of it is allocated. */
  function Allocated(a: seq<Block>, b: Block, z: seq<Block>, size: nat): seq<Block>
    requires b.size >= size
  {
    a + ([Taken(b, size)] + Cut(b, size)[1..]) + z
  }

  /** What becomes of a chain when a used block of it is freed: both neighbours that are free
      are merged in. */
  function Freed(a: seq<Block>, b: Block, z: seq<Block>): seq<Block>
  {
    var free := Block(b.size, false);
    if z != [] && !z[0].used then JoinedLeft(a, Merged(free, z[0]), z[1..]) else JoinedLeft(a, free, z)
  }

  function JoinedLeft(a: seq<Block>, b: Block, z: seq<Block>): seq<Block>
  {
    if a != [] && !a[|a| - 1].used then a[..|a| - 1] + [Merged(a[|a| - 1], b)] + z else a + [b] + z
  }

  /** Freeing what was just allocated restores the chain, whatever size was asked for. */
  lemma FreeUndoesAlloc(a: seq<Block>, b: Block, z: seq<Block>, size: nat)
    requires !b.used && b.size >= size
    requires (a != [] ==> a[|a| - 1].used) && (z != [] ==> z[0].used)
    ensures Freed(a, Taken(b, size), Cut(b, size)[1..] + z) == a + [b] + z
  {
    var cut := Cut(b, size);
    if |cut| == 1 {
      assert cut[1..] + z == z;
      assert Block(Taken(b, size).size, false) == b;
    } else {
      assert (cut[1..] + z)[0] == Rest(b, size) && (cut[1..] + z)[1..] == z;
      assert Merged(Block(size, false), Rest(b, size)) == b;
    }
  }

  ghost predicate SettledEnds(a: seq<Block>, z: seq<Block>)
  {
    a != [] && z != [] ==> a[|a| - 1].used || z[0].used
  }

  lemma SettledAppend(a: seq<Block>, z: seq<Block>)
    ensures Settled(a + z) <==> Settled(a) && Settled(z) && SettledEnds(a, z)
  {
    var s := a + z;
    if Settled(s) {
      forall i | 0 < i < |a| ensures a[i - 1].used || a[i].used { assert s[i - 1] == a[i - 1] && s[i] == a[i]; }
      forall i | 0 < i < |z| ensures z[i - 1].used || z[i].used {
        assert s[|a| + i - 1] == z[i - 1] && s[|a| + i] == z[i];
      }
      assert a != [] && z != [] ==> s[|a| - 1] == a[|a| - 1] && s[|a|] == z[0];
    }
  }

  /** Three parts: what each piece of a chain contributes. */
  lemma Parts(at: nat, a: seq<Block>, m: seq<Block>, z: seq<Block>)
    ensures Span(a + m + z) == Span(a) + Span(m) + Span(z)
    ensures UsedBytes(a + m + z) == UsedBytes(a) + UsedBytes(m) + UsedBytes(z)
    ensures LiveFrom(at, a + m + z)
         == LiveFrom(at, a) + LiveFrom(at + Span(a), m) + LiveFrom(at + Span(a) + Span(m), z)
    ensures Settled(a + m + z) <==>
              Settled(a) && Settled(m) && Settled(z) && SettledEnds(a, m) && SettledEnds(a + m, z)
    ensures Rounded(a + m + z) <==> Rounded(a) && Rounded(m) && Rounded(z)
  {
    hide Span, UsedBytes, LiveFrom, Settled, SettledEnds, Rounded;
    Appended(at, a, m);
    Appended(at, a + m, z);
    SettledAppend(a, m);
    SettledAppend(a + m, z);
    RoundedAppend(a, m);
    RoundedAppend(a + m, z);
  }

  lemma RoundedAppend(a: seq<Block>, z: seq<Block>)
    ensures Rounded(a + z) <==> Rounded(a) && Rounded(z)
  {
    var s := a + z;
    if Rounded(s) {
      forall i | 0 <= i < |a| ensures a[i].size % 8 == 0 { assert s[i] == a[i]; }
      forall i | 0 <= i < |z| ensures z[i].size % 8 == 0 { assert s[|a| + i] == z[i]; }
    }
  }

  /** Allocation keeps the tiling, leaves no free neighbours and makes exactly the payload of
      the block taken live. */
  lemma AllocatedChain(at: nat, a: seq<Block>, b: Block, z: seq<Block>, size: nat)
    requires !b.used && b.size >= size && size % 8 == 0
    requires Settled(a + [b] + z) && Rounded(a + [b] + z)
    ensures var after := Allocated(a, b, z, size);
            Span(after) == Span(a + [b] + z) && Settled(after) && Rounded(after) &&
            LiveFrom(at, after) == LiveFrom(at, a + [b] + z) + {Payload(at + Span(a) + HEADER, Taken(b, size).size)} &&
            UsedBytes(after) == UsedBytes(a + [b] + z) + Taken(b, size).size
  {
    var taken, left := Taken(b, size), Cut(b, size)[1..];
    assert Rounded([b]) ==> ([b])[0].size % 8 == 0;
    hide LiveFrom, Span, UsedBytes, Settled, Rounded, SettledEnds;
    Parts(at, a, [b], z);
    Parts(at, a, [taken] + left, z);
    Pieces(at + Span(a), b, taken, left, size);
    SettledPieces(a, b, z, taken, left);
  }

  lemma Pieces(at: nat, b: Block, taken: Block, left: seq<Block>, size: nat)
    requires !b.used && b.size >= size && size % 8 == 0 && b.size % 8 == 0
    requires taken == Taken(b, size) && left == Cut(b, size)[1..]
    ensures Span([taken] + left) == Span([b])
    ensures LiveFrom(at, [taken] + left) == {Payload(at + HEADER, taken.size)} && LiveFrom(at, [b]) == {}
    ensures UsedBytes([taken] + left) == taken.size && UsedBytes([b]) == 0
    ensures Rounded([taken] + left) && |left| <= 1 && (left != [] ==> !left[0].used)
  {
    One(at, b);
    One(at, taken);
    if left == [] {
      assert [taken] + left == [taken];
    } else {
      assert left == [Rest(b, size)];
      One(at + HEADER + size, Rest(b, size));
      Appended(at, [taken], left);
    }
  }

  lemma SettledPieces(a: seq<Block>, b: Block, z: seq<Block>, taken: Block, left: seq<Block>)
    requires !b.used && taken.used && |left| <= 1 && (left != [] ==> !left[0].used)
    requires Settled(a) && Settled(z) && SettledEnds(a, [b]) && SettledEnds(a + [b], z)
    ensures Settled([taken] + left) && SettledEnds(a, [taken] + left) && SettledEnds(a + ([taken] + left), z)
  {
  }

  /** Merging a free block leftwards keeps everything but the free neighbours. */
  lemma JoinedLeftChain(at: nat, a: seq<Block>, b: Block, z: seq<Block>)
    requires !b.used && Settled(a) && Settled(z) && (z != [] ==> z[0].used)
    requires Rounded(a) && Rounded(z) && b.size % 8 == 0
    ensures var after := JoinedLeft(a, b, z);
            Span(after) == Span(a) + HEADER + b.size + Span(z) && Settled(after) && Rounded(after) &&
            LiveFrom(at, after) == LiveFrom(at, a) + LiveFrom(at + Span(a) + HEADER + b.size, z) &&
            UsedBytes(after) == UsedBytes(a) + UsedBytes(z)
  {
    if a != [] && !a[|a| - 1].used {
      var n := |a| - 1;
      var c := a[n];
      assert a == a[..n] + [c];
      SettledAppend(a[..n], [c]);
      RoundedAppend(a[..n], [c]);
      assert c.size % 8 == 0;
      hide LiveFrom, Span, UsedBytes, Settled, Rounded;
      Appended(at, a[..n], [c]);
      One(at + Span(a[..n]), c);
      Alone(at, a[..n], Merged(c, b), z);
    } else {
      hide LiveFrom, Span, UsedBytes, Settled, Rounded;
      Alone(at, a, b, z);
    }
  }

  lemma Alone(at: nat, a: seq<Block>, b: Block, z: seq<Block>)
    requires !b.used && Settled(a) && Settled(z) && (z != [] ==> z[0].used) && (a != [] ==> a[|a| - 1].used)
    requires Rounded(a) && Rounded(z) && b.size % 8 == 0
    ensures var after := a + [b] + z;
            Span(after) == Span(a) + HEADER + b.size + Span(z) && Settled(after) && Rounded(after) &&
            LiveFrom(at, after) == LiveFrom(at, a) + LiveFrom(at + Span(a) + HEADER + b.size, z) &&
            UsedBytes(after) == UsedBytes(a) + UsedBytes(z)
  {
    assert Settled([b]) && Rounded([b]);
    hide LiveFrom, Span, UsedBytes, Settled, Rounded;
    Parts(at, a, [b], z);
    One(at + Span(a), b);
  }

  /** Freeing keeps the tiling, leaves no free neighbours and takes exactly the freed payload
      out of the live ones. */
  lemma FreedChain(at: nat, a: seq<Block>, b: Block, z: seq<Block>)
    requires b.used && Settled(a + [b] + z) && Rounded(a + [b] + z)
    ensures var after, gone := Freed(a, b, z), Payload(at + Span(a) + HEADER, b.size);
            Span(after) == Span(a + [b] + z) && Settled(after) && Rounded(after) && after != [] &&
            LiveFrom(at, a + [b] + z) == LiveFrom(at, after) + {gone} && gone !in LiveFrom(at, after) &&
            UsedBytes(a + [b] + z) == UsedBytes(after) + b.size
  {
    hide *;
    UsedParts(at, a, b, z);
    FreedBoth(at, a, b, z);
    GoneFromBoth(at, a, b.size, z);
  }

  lemma UsedParts(at: nat, a: seq<Block>, b: Block, z: seq<Block>)
    requires b.used && Settled(a + [b] + z) && Rounded(a + [b] + z)
    ensures Settled(a) && Settled(z) && Rounded(a) && Rounded(z) && b.size % 8 == 0
    ensures Span(a + [b] + z) == Span(a) + HEADER + b.size + Span(z)
    ensures LiveFrom(at, a + [b] + z)
         == LiveFrom(at, a) + LiveFrom(at + Span(a) + HEADER + b.size, z) + {Payload(at + Span(a) + HEADER, b.size)}
    ensures UsedBytes(a + [b] + z) == UsedBytes(a) + UsedBytes(z) + b.size
  {
    assert Rounded([b]) ==> ([b])[0].size % 8 == 0;
    hide LiveFrom, Span, UsedBytes, Settled, Rounded, SettledEnds;
    Parts(at, a, [b], z);
    One(at + Span(a), b);
  }

  lemma FreedBoth(at: nat, a: seq<Block>, b: Block, z: seq<Block>)
    requires b.used && Settled(a) && Settled(z) && Rounded(a) && Rounded(z) && b.size % 8 == 0
    ensures var after := Freed(a, b, z);
            Span(after) == Span(a) + HEADER + b.size + Span(z) && Settled(after) && Rounded(after) && after != [] &&
            LiveFrom(at, after) == LiveFrom(at, a) + LiveFrom(at + Span(a) + HEADER + b.size, z) &&
            UsedBytes(after) == UsedBytes(a) + UsedBytes(z)
  {
    var free := Block(b.size, false);
    if z != [] && !z[0].used {
      assert z == [z[0]] + z[1..];
      SettledAppend([z[0]], z[1..]);
      RoundedAppend([z[0]], z[1..]);
      assert z[0].size % 8 == 0;
      hide LiveFrom, Span, UsedBytes, Settled, Rounded;
      var there := at + Span(a) + HEADER + b.size;
      One(there, z[0]);
      Appended(there, [z[0]], z[1..]);
      JoinedLeftChain(at, a, Merged(free, z[0]), z[1..]);
    } else {
      hide LiveFrom, Span, UsedBytes, Settled, Rounded;
      JoinedLeftChain(at, a, free, z);
    }
  }

  lemma GoneFromBoth(at: nat, a: seq<Block>, size: nat, z: seq<Block>)
    ensures forall p | p in LiveFrom(at, a) + LiveFrom(at + Span(a) + HEADER + size, z) ::
              p.at != at + Span(a) + HEADER
  {
    hide LiveFrom, Span;
    var there := at + Span(a) + HEADER + size;
    forall p | p in LiveFrom(at, a) + LiveFrom(there, z)
      ensures p.at != at + Span(a) + HEADER
    {
      if p in LiveFrom(at, a) {
        LiveRange(at, a, p);
      } else {
        LiveRange(there, z, p);
      }
    }
  }
}

/** Block headers in memory, linked by addresses; 0 is the null pointer. */
module HeapMemory {
  import opened HeapLayout

  datatype Header = Header(size: nat, used: bool, next: nat, prev: nat)

  datatype Segment = Segment(next: nat, firstBlock: nat)

  type Memory = map<nat, Header>

  /** `bs` stands in memory from `at`, its links agreeing: the first block points back to
      `prev` and the last on to `next`. */
  ghost predicate Drawn(mem: Memory, prev: nat, at: nat, bs: seq<Block>, next: nat)
    decreases |bs|
  {
    bs != [] ==>
      var after := at + HEADER + bs[0].size;
      at in mem &&
      mem[at] == Header(bs[0].size, bs[0].used, if |bs| == 1 then next else after, prev) &&
      Drawn(mem, at, after, bs[1..], next)
  }

  ghost predicate AllDrawn(mem: Memory, chains: seq<Chain>)
  {
    forall i | 0 <= i < |chains| :: Drawn(mem, 0, chains[i].page + SEGMENT, chains[i].blocks, 0)
  }

  /** The address of the last of `bs`, or `prev` if there is none. */
  function Last(prev: nat, at: nat, bs: seq<Block>): nat
    decreases |bs|
  {
    if bs == [] then prev else Last(at, at + HEADER + bs[0].size, bs[1..])
  }

  ghost predicate Agree(m: Memory, m': Memory, lo: nat, hi: nat)
  {
    forall a | lo <= a < hi :: (a in m <==> a in m') && (a in m ==> m[a] == m'[a])
  }

  lemma {:induction false} DrawnSame(m: Memory, m': Memory, prev: nat, at: nat, bs: seq<Block>, next: nat)
    requires Drawn(m, prev, at, bs, next) && Agree(m, m', at, at + Span(bs))
    ensures Drawn(m', prev, at, bs, next)
    decreases |bs|
  {
    if bs != [] {
      DrawnSame(m, m', at, at + HEADER + bs[0].size, bs[1..], next);
    }
  }

  lemma {:induction false} DrawnAppend(mem: Memory, prev: nat, at: nat, a: seq<Block>, z: seq<Block>, next: nat)
    requires z != []
    ensures Drawn(mem, prev, at, a + z, next) <==>
              Drawn(mem, prev, at, a, at + Span(a)) &&
              Drawn(mem, Last(prev, at, a), at + Span(a), z, next)
    decreases |a|
  {
    if a == [] {
      assert a + z == z;
    } else {
      var after := at + HEADER + a[0].size;
      assert (a + z)[1..] == a[1..] + z;
      DrawnAppend(mem, at, after, a[1..], z, next);
      if |a| == 1 {
        assert a[1..] == [] && Span(a) == HEADER + a[0].size;
      }
    }
  }

  lemma DrawnOne(mem: Memory, prev: nat, at: nat, b: Block, next: nat)
    ensures Drawn(mem, prev, at, [b], next) <==> at in mem && mem[at] == Header(b.size, b.used, next, prev)
  {
    assert [b][1..] == [];
  }

  /** What memory holds at one block and at the one behind it. */
  lemma Focus(mem: Memory, prev: nat, at: nat, a: seq<Block>, b: Block, z: seq<Block>)
    requires Drawn(mem, prev, at, a + [b] + z, 0)
    ensures var here := at + Span(a);
            var there := here + HEADER + b.size;
            here in mem && mem[here] == Header(b.size, b.used, if z == [] then 0 else there, Last(prev, at, a)) &&
            (z != [] ==> there in mem && mem[there].size == z[0].size && mem[there].used == z[0].used)
  {
    hide Last, Span;
    assert a + [b] + z == a + ([b] + z);
    DrawnAppend(mem, prev, at, a, [b] + z, 0);
    assert ([b] + z)[1..] == z;
  }

  /** Where the block before `s` is, seen from the block at `s`. */
  lemma {:induction false} FocusPrev(prev: nat, at: nat, a: seq<Block>, p: Block)
    ensures Last(prev, at, a + [p]) == at + Span(a)
    decreases |a|
  {
    if a == [] {
      assert a + [p] == [p] && [p][1..] == [];
    } else {
      assert (a + [p])[1..] == a[1..] + [p];
      FocusPrev(at, at + HEADER + a[0].size, a[1..], p);
    }
  }

  lemma LastIndependent(prev: nat, prev': nat, at: nat, bs: seq<Block>)
    requires bs != []
    ensures Last(prev, at, bs) == Last(prev', at, bs)
  {
  }

  lemma DrawnRest(m: Memory, m': Memory, prev: nat, prev': nat, at: nat, z: seq<Block>, next: nat)
    requires z != [] && Drawn(m, prev, at, z, next) && at in m'
    requires m'[at] == m[at].(prev := prev') && Agree(m, m', at + 1, at + Span(z))
    ensures Drawn(m', prev', at, z, next)
  {
    DrawnSame(m, m', at, at + HEADER + z[0].size, z[1..], next);
  }

  /** Replaces a run of blocks by another that fills the same bytes. */
  lemma Redraw(m: Memory, m': Memory, prev: nat, at: nat, a: seq<Block>, mid: seq<Block>, mid': seq<Block>, z: seq<Block>)
    requires mid != [] && mid' != [] && Span(mid) == Span(mid')
    requires Drawn(m, prev, at, a + mid + z, 0) && Agree(m, m', at, at + Span(a))
    requires var s := at + Span(a);
             var e := s + Span(mid);
             Drawn(m', Last(prev, at, a), s, mid', if z == [] then 0 else e) &&
             (z != [] ==> e in m && e in m' && m'[e] == m[e].(prev := Last(0, s, mid')) &&
                          Agree(m, m', e + 1, e + Span(z)))
    ensures Drawn(m', prev, at, a + mid' + z, 0)
  {
    hide Drawn, Last, Span;
    var s := at + Span(a);
    var p := Last(prev, at, a);
    assert a + mid + z == a + (mid + z) && a + mid' + z == a + (mid' + z);
    DrawnAppend(m, prev, at, a, mid + z, 0);
    DrawnSame(m, m', prev, at, a, s);
    DrawnAppend(m', prev, at, a, mid' + z, 0);
    if z == [] {
      assert mid' + z == mid';
    } else {
      DrawnAppend(m, p, s, mid, z, 0);
      DrawnAppend(m', p, s, mid', z, 0);
      LastIndependent(0, p, s, mid');
      DrawnRest(m, m', Last(p, s, mid), Last(p, s, mid'), s + Span(mid), z, 0);
    }
  }

  /** Changing one page's chain leaves the others drawn. */
  lemma RedrawAll(m: Memory, m': Memory, chains: seq<Chain>, c: nat, bs: seq<Block>)
    requires LaidOut(chains) && AllDrawn(m, chains) && c < |chains|
    requires Drawn(m', 0, chains[c].page + SEGMENT, bs, 0)
    requires Agree(m, m', 0, chains[c].page) && Agree(m, m', chains[c].page + PAGE, U32)
    ensures AllDrawn(m', WithBlocks(chains, c, bs))
  {
    hide Drawn, Span, Rounded;
    var after := WithBlocks(chains, c, bs);
    forall i | 0 <= i < |after|
      ensures Drawn(m', 0, after[i].page + SEGMENT, after[i].blocks, 0)
    {
      if i != c {
        var d := chains[i];
        assert Tiled(d) && Tiled(chains[c]) && d.page != chains[c].page;
        PagesApart(d.page, chains[c].page);
        DrawnSame(m, m', 0, d.page + SEGMENT, d.blocks, 0);
      }
    }
  }

  // ---- the three pointer updates ----

  /** `if (next != nullptr) next->prev = block`. */
  function Relink(mem: Memory, next: nat, block: nat): Memory
    requires next != 0 ==> next in mem
  {
    if next != 0 then mem[next := mem[next].(prev := block)] else mem
  }

  function Mark(mem: Memory, block: nat, used: bool): Memory
    requires block in mem
  {
    mem[block := mem[block].(used := used)]
  }

  lemma MarkDrawn(mem: Memory, at: nat, a: seq<Block>, b: Block, z: seq<Block>, used: bool)
    requires Drawn(mem, 0, at, a + [b] + z, 0)
    ensures var block := at + Span(a);
            block in mem && Drawn(Mark(mem, block, used), 0, at, a + [Block(b.size, used)] + z, 0)
  {
    hide Drawn, Last, Span;
    var s := at + Span(a);
    Focus(mem, 0, at, a, b, z);
    var mem' := Mark(mem, s, used);
    var b' := Block(b.size, used);
    One(0, b);
    One(0, b');
    DrawnOne(mem', Last(0, at, a), s, b', if z == [] then 0 else s + Span([b]));
    LastOfOne(s, b');
    if z != [] {
      BehindPoints(mem, at, a, b, z);
    }
    Redraw(mem, mem', 0, at, a, [b], [b'], z);
  }

  /** The block behind `b` points back to it. */
  lemma BehindPoints(mem: Memory, at: nat, a: seq<Block>, b: Block, z: seq<Block>)
    requires z != [] && Drawn(mem, 0, at, a + [b] + z, 0)
    ensures var here := at + Span(a);
            var there := here + HEADER + b.size;
            there in mem && mem[there].prev == here
  {
    hide Last, Span;
    assert a + [b] + z == a + ([b] + z);
    DrawnAppend(mem, 0, at, a, [b] + z, 0);
    assert ([b] + z)[1..] == z;
  }

  function Absorb(mem: Memory, block: nat): Memory
    requires block in mem && mem[block].next in mem
    requires var next := mem[mem[block].next].next; next != 0 ==> next in mem
  {
    var next := mem[block].next;
    var grown := mem[block := mem[block].(size := mem[block].size + HEADER + mem[next].size, next := mem[next].next)];
    Relink(grown, grown[block].next, block)
  }

  ghost predicate CanAbsorb(mem: Memory, block: nat)
  {
    block in mem && mem[block].next in mem &&
    var next := mem[mem[block].next].next; next != 0 ==> next in mem
  }

  lemma AbsorbEffect(mem: Memory, s: nat, lo: nat, hi: nat)
    requires CanAbsorb(mem, s) && s < mem[s].next
    requires var next := mem[mem[s].next].next; next == 0 || next == mem[s].next + HEADER + mem[mem[s].next].size
    ensures var mem' := Absorb(mem, s);
            var n := mem[s].next;
            var e := n + HEADER + mem[n].size;
            s in mem' && mem'[s] == Header(mem[s].size + HEADER + mem[n].size, mem[s].used, mem[n].next, mem[s].prev) &&
            (mem[n].next == e ==> e in mem' && mem'[e] == mem[e].(prev := s)) &&
            Agree(mem, mem', lo, s) && Agree(mem, mem', e + 1, hi) && (mem[n].next == 0 ==> Agree(mem, mem', e, hi))
  {
  }

  lemma AbsorbDrawn(mem: Memory, at: nat, a: seq<Block>, b: Block, n: Block, z: seq<Block>)
    requires at > 0 && Drawn(mem, 0, at, a + [b, n] + z, 0)
    ensures CanAbsorb(mem, at + Span(a))
    ensures Drawn(Absorb(mem, at + Span(a)), 0, at, a + [Merged(b, n)] + z, 0)
  {
    hide Drawn, Last, Span, Absorb, Agree;
    var s := at + Span(a);
    assert a + [b, n] + z == a + [b] + ([n] + z) == (a + [b]) + [n] + z;
    Focus(mem, 0, at, a, b, [n] + z);
    Appended(0, a, [b]);
    Appended(0, [b], [n]);
    assert [b] + [n] == [b, n];
    One(0, b);
    One(0, n);
    Focus(mem, 0, at, a + [b], n, z);
    var b' := Merged(b, n);
    var mem' := Absorb(mem, s);
    One(0, b');
    AbsorbEffect(mem, s, at, s + Span([b']) + Span(z));
    DrawnOne(mem', Last(0, at, a), s, b', if z == [] then 0 else s + Span([b, n]));
    LastOfOne(s, b');
    Redraw(mem, mem', 0, at, a, [b, n], [b'], z);
  }

  lemma LastOfOne(at: nat, b: Block)
    ensures forall prev :: Last(prev, at, [b]) == at
  {
    assert [b][1..] == [];
  }

  function Split(mem: Memory, block: nat, size: nat): Memory
    requires block in mem && mem[block].size >= size + HEADER && (mem[block].next != 0 ==> mem[block].next in mem)
  {
    var remaining := mem[block].size - size;
    var newBlock := block + HEADER + size;
    var made := mem[newBlock := Header(remaining - HEADER, false, mem[block].next, block)];
    var linked := Relink(made, mem[block].next, newBlock);
    linked[block := mem[block].(next := newBlock, size := size)]
  }

  lemma SplitEffect(mem: Memory, s: nat, size: nat, lo: nat, hi: nat)
    requires s in mem && mem[s].size >= size + HEADER && (mem[s].next != 0 ==> mem[s].next in mem)
    requires mem[s].next == 0 || mem[s].next == s + HEADER + mem[s].size
    ensures var mem' := Split(mem, s, size);
            var n := s + HEADER + size;
            var e := s + HEADER + mem[s].size;
            s in mem' && mem'[s] == Header(size, mem[s].used, n, mem[s].prev) &&
            n in mem' && mem'[n] == Header(mem[s].size - size - HEADER, false, mem[s].next, s) &&
            (mem[s].next == e ==> e in mem' && mem'[e] == mem[e].(prev := n)) &&
            Agree(mem, mem', lo, s) && Agree(mem, mem', e + 1, hi) && (mem[s].next == 0 ==> Agree(mem, mem', e, hi))
  {
  }

  lemma SplitDrawn(mem: Memory, at: nat, a: seq<Block>, b: Block, z: seq<Block>, size: nat)
    requires at > 0 && Drawn(mem, 0, at, a + [b] + z, 0) && b.size >= size + HEADER
    ensures var s := at + Span(a);
            s in mem && mem[s].size == b.size && (mem[s].next != 0 ==> mem[s].next in mem) &&
            Drawn(Split(mem, s, size), 0, at, a + [Block(size, b.used), Rest(b, size)] + z, 0)
  {
    hide Drawn, Last, Span, Split, Agree;
    var s := at + Span(a);
    Focus(mem, 0, at, a, b, z);
    var mem', b1, b2 := Split(mem, s, size), Block(size, b.used), Rest(b, size);
    One(0, b);
    One(0, b1);
    One(0, b2);
    Appended(0, [b1], [b2]);
    assert [b1] + [b2] == [b1, b2];
    SplitEffect(mem, s, size, at, s + Span([b]) + Span(z));
    var p, e := Last(0, at, a), if z == [] then 0 else s + Span([b]);
    DrawnAppend(mem', p, s, [b1], [b2], e);
    DrawnOne(mem', p, s, b1, s + Span([b1]));
    LastOfOne(s, b1);
    DrawnOne(mem', s, s + Span([b1]), b2, e);
    FocusPrev(0, s, [b1], b2);
    Redraw(mem, mem', 0, at, a, [b], [b1, b2], z);
  }
}
