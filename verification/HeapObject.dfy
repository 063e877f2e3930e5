/** `kmalloc` and `kfree` over the headers in memory. */
module KernelHeap {
  import opened HeapLayout
  import opened HeapMemory

  /** The segment list in memory, newest first. */
  ghost predicate Listed(segs: map<nat, Segment>, head: nat, chains: seq<Chain>)
    decreases |chains|
  {
    if chains == [] then head == 0
    else head == chains[0].page && head in segs && segs[head].firstBlock == head + SEGMENT &&
         Listed(segs, segs[head].next, chains[1..])
  }

  lemma {:induction false} ListedMore(segs: map<nat, Segment>, head: nat, chains: seq<Chain>, page: nat, s: Segment)
    requires Listed(segs, head, chains) && forall i | 0 <= i < |chains| :: chains[i].page != page
    ensures Listed(segs[page := s], head, chains)
    decreases |chains|
  {
    if chains != [] {
      assert chains[0].page != page;
      forall i | 0 <= i < |chains[1..]| ensures chains[1..][i].page != page { assert chains[i + 1].page != page; }
      ListedMore(segs, segs[head].next, chains[1..], page, s);
    }
  }

  lemma {:induction false} ListedWith(segs: map<nat, Segment>, head: nat, chains: seq<Chain>, c: nat, bs: seq<Block>)
    requires Listed(segs, head, chains) && c < |chains|
    ensures Listed(segs, head, WithBlocks(chains, c, bs))
    decreases |chains|
  {
    var after := WithBlocks(chains, c, bs);
    if c > 0 {
      assert after[1..] == WithBlocks(chains[1..], c - 1, bs);
      ListedWith(segs, segs[head].next, chains[1..], c - 1, bs);
    } else {
      assert after[1..] == chains[1..];
    }
  }

  /** No block of the run can hold `size` bytes. */
  ghost predicate NoFit(bs: seq<Block>, size: nat)
  {
    forall k | 0 <= k < |bs| :: bs[k].used || bs[k].size < size
  }

  ghost predicate NoFitAnywhere(chains: seq<Chain>, size: nat)
  {
    forall c | 0 <= c < |chains| :: NoFit(chains[c].blocks, size)
  }

  ghost predicate BlockAt(chains: seq<Chain>, c: nat, k: nat, block: nat)
  {
    c < |chains| && k < |chains[c].blocks| && block == chains[c].page + SEGMENT + Span(chains[c].blocks[..k])
  }

  ghost predicate IsBlock(chains: seq<Chain>, block: nat)
  {
    exists c: nat, k: nat :: BlockAt(chains, c, k, block)
  }

  /** What the frame allocator can answer: no page, or one the heap does not hold. */
  ghost predicate FreshPage(chains: seq<Chain>, page: nat)
  {
    page % PAGE == 0 && page + PAGE <= U32 && forall i | 0 <= i < |chains| :: chains[i].page != page
  }

  class Heap {
    var mem: Memory
    var segs: map<nat, Segment>
    var segments: nat
    var bytesAllocated: nat
    ghost var chains: seq<Chain>

    ghost predicate Laid()
      reads this
    {
      LaidIn(mem, segs, segments, chains)
    }

    /** Blocks tile each page exactly, links agree, no two neighbours are both free, and the
        counter is the sum of the used sizes. */
    ghost predicate Valid()
      reads this
    {
      Laid() && AllSettled(chains) && bytesAllocated == Used(chains)
    }

    constructor ()
      ensures Valid() && Live(chains) == {}
    {
      mem, segs, segments, bytesAllocated := map[], map[], 0, 0;
      chains := [];
    }

    /** Merges the block behind `block` into it. */
    method AbsorbNext(block: nat, ghost c: nat, ghost a: seq<Block>, ghost b: Block, ghost n: Block, ghost z: seq<Block>)
      requires Laid() && c < |chains| && chains[c].blocks == a + [b, n] + z
      requires block == chains[c].page + SEGMENT + Span(a)
      modifies this`mem, this`chains
      ensures Laid() && chains == WithBlocks(old(chains), c, a + [Merged(b, n)] + z)
    {
      hide LaidIn, Span;
      AbsorbLaid(mem, segs, segments, chains, c, a, b, n, z);
      var next := mem[block].next;
      mem := mem[block := mem[block].(size := mem[block].size + HEADER + mem[next].size, next := mem[next].next)];
      if mem[block].next != 0 {
        var n2 := mem[block].next;
        mem := mem[n2 := mem[n2].(prev := block)];
      }
      chains := WithBlocks(chains, c, a + [Merged(b, n)] + z);
    }

    /** Cuts a free block to `size` when the leftover can hold a block of its own. */
    method SplitIfWorthwhile(block: nat, size: nat, ghost c: nat, ghost a: seq<Block>, ghost b: Block, ghost z: seq<Block>)
      requires Laid() && c < |chains| && chains[c].blocks == a + [b] + z
      requires block == chains[c].page + SEGMENT + Span(a) && b.size >= size && size % 8 == 0
      modifies this`mem, this`chains
      ensures Laid() && chains == WithBlocks(old(chains), c, a + Cut(b, size) + z)
    {
      hide LaidIn, Span;
      BlockDrawn(mem, segs, segments, chains, c, a, b, z);
      var remaining := mem[block].size - size;
      if remaining < HEADER + 8 {
        assert chains[c] == Chain(chains[c].page, a + Cut(b, size) + z);
        return;
      }
      SplitLaid(mem, segs, segments, chains, c, a, b, z, size);
      var newBlock := block + HEADER + size;
      var was := mem[block];
      mem := mem[newBlock := Header(remaining - HEADER, false, was.next, block)];
      if was.next != 0 {
        mem := mem[was.next := mem[was.next].(prev := newBlock)];
      }
      mem := mem[block := was.(next := newBlock, size := size)];
      chains := WithBlocks(chains, c, a + Cut(b, size) + z);
    }

    method SetUsed(block: nat, used: bool, ghost c: nat, ghost a: seq<Block>, ghost b: Block, ghost z: seq<Block>)
      requires Laid() && c < |chains| && chains[c].blocks == a + [b] + z
      requires block == chains[c].page + SEGMENT + Span(a)
      modifies this`mem, this`chains
      ensures Laid() && chains == WithBlocks(old(chains), c, a + [Block(b.size, used)] + z)
    {
      hide LaidIn, Span;
      MarkLaid(mem, segs, segments, chains, c, a, b, z, used);
      mem := mem[block := mem[block].(used := used)];
      chains := WithBlocks(chains, c, a + [Block(b.size, used)] + z);
    }

    method CoalesceNext(block: nat, ghost c: nat, ghost a: seq<Block>, ghost b: Block, ghost z: seq<Block>)
      returns (ghost m: Block, ghost rest: seq<Block>)
      requires Laid() && c < |chains| && chains[c].blocks == a + [b] + z
      requires block == chains[c].page + SEGMENT + Span(a)
      modifies this`mem, this`chains
      ensures Laid() && chains == WithBlocks(old(chains), c, a + [m] + rest)
      ensures if z != [] && !z[0].used then m == Merged(b, z[0]) && rest == z[1..] else m == b && rest == z
    {
      hide LaidIn, Span;
      m, rest := b, z;
      BlockDrawn(mem, segs, segments, chains, c, a, b, z);
      var next := mem[block].next;
      if next != 0 && !mem[next].used {
        assert a + [b] + z == a + [b, z[0]] + z[1..];
        AbsorbNext(block, c, a, b, z[0], z[1..]);
        m, rest := Merged(b, z[0]), z[1..];
      } else {
        assert chains[c] == Chain(chains[c].page, a + [m] + rest);
      }
    }

    method CoalescePrev(block: nat, ghost c: nat, ghost a: seq<Block>, ghost b: Block, ghost z: seq<Block>)
      requires Laid() && c < |chains| && chains[c].blocks == a + [b] + z
      requires block == chains[c].page + SEGMENT + Span(a)
      modifies this`mem, this`chains
      ensures Laid() && chains == WithBlocks(old(chains), c, JoinedLeft(a, b, z))
    {
      hide LaidIn, Span;
      ChainFacts(mem, segs, segments, chains, c);
      PrevIn(mem, chains[c].page + SEGMENT, a, b, z);
      var prev := mem[block].prev;
      if prev != 0 && !mem[prev].used {
        ghost var n := |a| - 1;
        assert a + [b] + z == a[..n] + [a[n], b] + z;
        AbsorbNext(prev, c, a[..n], a[n], b, z);
      } else {
        assert chains[c] == Chain(chains[c].page, JoinedLeft(a, b, z));
      }
    }

    /** The first block of one segment, in address order, that is free and large enough. */
    method FindInSegment(first: nat, size: nat, ghost c: nat) returns (block: nat, ghost k: nat)
      requires Laid() && c < |chains| && first == chains[c].page + SEGMENT
      ensures block == 0 ==> NoFit(chains[c].blocks, size)
      ensures block != 0 ==> BlockAt(chains, c, k, block) && !chains[c].blocks[k].used &&
                             chains[c].blocks[k].size >= size && NoFit(chains[c].blocks[..k], size)
    {
      ghost var bs := chains[c].blocks;
      assert Span(bs[..0]) == 0;
      ChainFacts(mem, segs, segments, chains, c);
      block, k := first, 0;
      hide LaidIn, Span;
      while block != 0
        invariant k <= |bs| && (k < |bs| ==> block == first + Span(bs[..k])) && (k == |bs| <==> block == 0)
        invariant NoFit(bs[..k], size)
        decreases |bs| - k
      {
        ghost var a, b, z := bs[..k], bs[k], bs[k + 1..];
        assert bs == a + [b] + z && bs[..k + 1] == a + [b];
        BlockDrawn(mem, segs, segments, chains, c, a, b, z);
        if !mem[block].used && mem[block].size >= size {
          return;
        }
        SpanSnoc(a, b);
        block, k := mem[block].next, k + 1;
      }
      assert bs[..k] == bs;
    }

    /** First fit over the segments, newest first. */
    method FindFreeBlock(size: nat) returns (block: nat, ghost c: nat, ghost k: nat)
      requires Laid()
      ensures block == 0 ==> NoFitAnywhere(chains, size)
      ensures block != 0 ==> BlockAt(chains, c, k, block) && !chains[c].blocks[k].used &&
                             chains[c].blocks[k].size >= size && NoFit(chains[c].blocks[..k], size) &&
                             NoFitAnywhere(chains[..c], size)
    {
      var segment := segments;
      block, c, k := 0, 0, 0;
      assert chains[0..] == chains;
      hide NoFit;
      while segment != 0
        invariant c <= |chains| && Listed(segs, segment, chains[c..])
        invariant block == 0 && NoFitAnywhere(chains[..c], size)
        decreases |chains| - c
      {
        block, k := FindInSegment(segs[segment].firstBlock, size, c);
        if block != 0 {
          return;
        }
        assert chains[c..][1..] == chains[c + 1..];
        segment, c := segs[segment].next, c + 1;
      }
      ListedEnd(segs, chains[c..]);
      assert chains[..c] == chains;
    }

    /** Makes one free block of a fresh page. */
    method GrowHeap(page: nat) returns (ok: bool)
      requires Valid() && FreshPage(chains, page)
      modifies this`mem, this`segs, this`segments, this`chains
      ensures Valid() && (ok <==> page != 0)
      ensures chains == if ok then [Chain(page, [Block(SPAN - HEADER, false)])] + old(chains) else old(chains)
      ensures Live(chains) == old(Live(chains))
    {
      if page == 0 {
        return false;
      }
      ghost var chain := Chain(page, [Block(SPAN - HEADER, false)]);
      GrownLaid(mem, segs, segments, chains, page);
      GrownSettled(chains, page);
      hide LaidIn;
      var block := page + SEGMENT;
      mem := mem[block := Header(PAGE - SEGMENT - HEADER, false, 0, 0)];
      segs := segs[page := Segment(segments, block)];
      segments := page;
      chains := [chain] + chains;
      ok := true;
    }

    /** `page` is what the frame allocator answers if it is asked. */
    method KMalloc(size: nat, page: nat) returns (p: nat)
      requires Valid() && size < U32 && FreshPage(chains, page)
      modifies this
      ensures Valid()
      ensures p == 0 <==> size == 0 || (NoFitAnywhere(old(chains), AlignUp(size)) && (page == 0 || AlignUp(size) > SPAN - HEADER))
      ensures p == 0 ==> Live(chains) == old(Live(chains)) && bytesAllocated == old(bytesAllocated)
      ensures p == 0 ==> chains == if size == 0 || page == 0 then old(chains)
                                   else [Chain(page, [Block(SPAN - HEADER, false)])] + old(chains)
      ensures p != 0 ==> p >= HEADER && p - HEADER in mem && mem[p - HEADER].size >= AlignUp(size)
      ensures p != 0 ==> Payload(p, mem[p - HEADER].size) !in old(Live(chains)) &&
                         Live(chains) == old(Live(chains)) + {Payload(p, mem[p - HEADER].size)}
      ensures p != 0 && size <= U32 - 8 ==> mem[p - HEADER].size >= size
      ensures p != 0 ==> mem[p - HEADER].size < AlignUp(size) + HEADER + 8
    {
      if size == 0 {
        return 0;
      }
      hide LaidIn, NoFitAnywhere, NoFit, AllSettled, AlignUp, Live, Used, FreshPage;
      var aligned := AlignUp(size);
      AlignUpHolds(size);
      var block, c, k := FindFreeBlock(aligned);
      if block == 0 {
        var grown := GrowHeap(page);
        if !grown {
          return 0;
        }
        GrownFits(old(chains), page, aligned);
        block, c, k := FindFreeBlock(aligned);
        if block == 0 {
          return 0;
        }
        FoundFits(chains, c, k, block, aligned);
      } else {
        FoundFits(chains, c, k, block, aligned);
      }
      p := Take(block, aligned, c, k);
    }

    /** Splits, marks and counts the block found. */
    method Take(block: nat, size: nat, ghost c: nat, ghost k: nat) returns (p: nat)
      requires Valid() && BlockAt(chains, c, k, block) && size % 8 == 0
      requires !chains[c].blocks[k].used && chains[c].blocks[k].size >= size
      modifies this
      ensures Valid() && p == block + HEADER && block in mem && size <= mem[block].size < size + HEADER + 8
      ensures Payload(p, mem[block].size) !in old(Live(chains))
      ensures Live(chains) == old(Live(chains)) + {Payload(p, mem[block].size)}
    {
      hide LaidIn, LaidOut, AllSettled, Live, Used, Span, Allocated;
      LaidParts(mem, segs, segments, chains);
      ghost var bs := chains[c].blocks;
      ghost var a, b, z := bs[..k], bs[k], bs[k + 1..];
      assert bs == a + [b] + z;
      ghost var cut := Cut(b, size);
      TakenHeap(chains, c, a, b, z, size);
      SplitIfWorthwhile(block, size, c, a, b, z);
      assert a + cut + z == a + [cut[0]] + (cut[1..] + z);
      SetUsed(block, true, c, a, cut[0], cut[1..] + z);
      AllocatedIs(a, b, z, size);
      Overwrite(old(chains), c, a + cut + z, Allocated(a, b, z, size));
      BlockDrawn(mem, segs, segments, chains, c, a, Taken(b, size), cut[1..] + z);
      bytesAllocated := (bytesAllocated + mem[block].size) % U32;
      p := block + HEADER;
    }

    /** Frees a payload.  The pointer is null or belongs to a block of the heap; the source
        checks nothing else. */
    method KFree(p: nat)
      requires Valid() && (p != 0 ==> p >= HEADER && IsBlock(chains, p - HEADER))
      modifies this
      ensures Valid()
      ensures p == 0 || (p - HEADER in old(mem) && !old(mem)[p - HEADER].used) ==> unchanged(this)
      ensures p != 0 ==> p - HEADER in old(mem)
      ensures p != 0 && old(mem)[p - HEADER].used ==>
                var gone := Payload(p, old(mem)[p - HEADER].size);
                gone in old(Live(chains)) && Live(chains) == old(Live(chains)) - {gone} &&
                bytesAllocated == old(bytesAllocated) - gone.size
    {
      hide LaidIn, LaidOut, AllSettled, Live, Used, Span, Freed;
      if p == 0 {
        return;
      }
      var block := p - HEADER;
      ghost var c: nat, k: nat :| BlockAt(chains, c, k, block);
      ghost var bs := chains[c].blocks;
      ghost var a, b, z := bs[..k], bs[k], bs[k + 1..];
      assert bs == a + [b] + z;
      BlockDrawn(mem, segs, segments, chains, c, a, b, z);
      if !mem[block].used {
        return;
      }
      LaidParts(mem, segs, segments, chains);
      FreedHeap(chains, c, a, b, z);
      bytesAllocated := (bytesAllocated + U32 - mem[block].size) % U32;
      SetUsed(block, false, c, a, b, z);
      ghost var m, rest := CoalesceNext(block, c, a, Block(b.size, false), z);
      CoalescePrev(block, c, a, m, rest);
      FreedIs(a, b, z);
      Overwrite(old(chains), c, a + [Block(b.size, false)] + z, a + [m] + rest);
      Overwrite(old(chains), c, a + [m] + rest, Freed(a, b, z));
    }
  }

  lemma {:induction false} LaidParts(mem: Memory, segs: map<nat, Segment>, segments: nat, chains: seq<Chain>)
    requires LaidIn(mem, segs, segments, chains)
    ensures LaidOut(chains)
  {
  }

  lemma {:induction false} Overwrite(chains: seq<Chain>, c: nat, once: seq<Block>, twice: seq<Block>)
    requires c < |chains|
    ensures WithBlocks(WithBlocks(chains, c, once), c, twice) == WithBlocks(chains, c, twice)
  {
  }

  lemma {:induction false} AllocatedIs(a: seq<Block>, b: Block, z: seq<Block>, size: nat)
    requires b.size >= size
    ensures a + [Taken(b, size)] + (Cut(b, size)[1..] + z) == Allocated(a, b, z, size)
  {
  }

  lemma {:induction false} FreedIs(a: seq<Block>, b: Block, z: seq<Block>)
    ensures var free := Block(b.size, false);
            Freed(a, b, z) ==
              if z != [] && !z[0].used then JoinedLeft(a, Merged(free, z[0]), z[1..]) else JoinedLeft(a, free, z)
  {
  }

  lemma {:induction false} SpanSnoc(a: seq<Block>, b: Block)
    ensures Span(a + [b]) == Span(a) + HEADER + b.size
  {
    hide Span;
    Appended(0, a, [b]);
    One(0, b);
  }

  lemma {:induction false} ListedEnd(segs: map<nat, Segment>, rest: seq<Chain>)
    requires Listed(segs, 0, rest) && forall i | 0 <= i < |rest| :: rest[i].page > 0
    ensures rest == []
  {
  }

  // ---- growing ----

  lemma {:induction false} GrownLaid(mem: Memory, segs: map<nat, Segment>, segments: nat, chains: seq<Chain>, page: nat)
    requires LaidIn(mem, segs, segments, chains) && FreshPage(chains, page) && page != 0
    ensures LaidIn(mem[page + SEGMENT := Header(SPAN - HEADER, false, 0, 0)], segs[page := Segment(segments, page + SEGMENT)], page,
                   [Chain(page, [Block(SPAN - HEADER, false)])] + chains)
  {
    var b := Block(SPAN - HEADER, false);
    var chain := Chain(page, [b]);
    var mem', segs' := mem[page + SEGMENT := Header(SPAN - HEADER, false, 0, 0)], segs[page := Segment(segments, page + SEGMENT)];
    var after := [chain] + chains;
    One(0, b);
    assert Tiled(chain);
    DrawnOne(mem', 0, page + SEGMENT, b, 0);
    hide Drawn, Span, Tiled;
    assert LaidOut(after);
    assert after[1..] == chains;
    ListedMore(segs, segments, chains, page, Segment(segments, page + SEGMENT));
    GrownDrawn(mem, mem', chains, page, chain);
  }

  lemma {:induction false} GrownDrawn(mem: Memory, mem': Memory, chains: seq<Chain>, page: nat, chain: Chain)
    requires LaidOut(chains) && AllDrawn(mem, chains) && FreshPage(chains, page) && chain.page == page
    requires Drawn(mem', 0, page + SEGMENT, chain.blocks, 0) && Agree(mem, mem', 0, page) && Agree(mem, mem', page + PAGE, U32)
    ensures AllDrawn(mem', [chain] + chains)
  {
    hide Drawn, Span, Rounded;
    var after := [chain] + chains;
    forall i | 0 <= i < |after|
      ensures Drawn(mem', 0, after[i].page + SEGMENT, after[i].blocks, 0)
    {
      if i > 0 {
        var d := chains[i - 1];
        assert after[i] == d && Tiled(d) && d.page != page;
        PagesApart(d.page, page);
        DrawnSame(mem, mem', 0, d.page + SEGMENT, d.blocks, 0);
      }
    }
  }

  lemma {:induction false} GrownSettled(chains: seq<Chain>, page: nat)
    requires AllSettled(chains)
    ensures var after := [Chain(page, [Block(SPAN - HEADER, false)])] + chains;
            AllSettled(after) && Live(after) == Live(chains) && Used(after) == Used(chains)
  {
    var b := Block(SPAN - HEADER, false);
    var after := [Chain(page, [b])] + chains;
    One(page + SEGMENT, b);
    assert after[1..] == chains;
    hide LiveFrom, UsedBytes;
    forall i | 0 <= i < |after|
      ensures Settled(after[i].blocks)
    {
      if i > 0 {
        assert after[i] == chains[i - 1];
      }
    }
  }

  /** A fresh page holds exactly the requests of at most one page less its headers. */
  lemma {:induction false} GrownFits(chains: seq<Chain>, page: nat, size: nat)
    requires NoFitAnywhere(chains, size)
    ensures NoFitAnywhere([Chain(page, [Block(SPAN - HEADER, false)])] + chains, size) <==> size > SPAN - HEADER
  {
    var after := [Chain(page, [Block(SPAN - HEADER, false)])] + chains;
    assert NoFit(after[0].blocks, size) ==> after[0].blocks[0].size < size;
    if size > SPAN - HEADER {
      forall i | 0 <= i < |after|
        ensures NoFit(after[i].blocks, size)
      {
        if i > 0 {
          assert after[i] == chains[i - 1];
        }
      }
    } else {
      assert !NoFit(after[0].blocks, size);
    }
  }

  lemma {:induction false} FoundFits(chains: seq<Chain>, c: nat, k: nat, block: nat, size: nat)
    requires BlockAt(chains, c, k, block) && !chains[c].blocks[k].used && chains[c].blocks[k].size >= size
    ensures !NoFitAnywhere(chains, size)
  {
    assert !NoFit(chains[c].blocks, size);
  }

  // ---- allocating and freeing in one chain, seen over the whole heap ----

  /** Replacing one chain by another good one. */
  lemma {:induction false} HeapReplaced(chains: seq<Chain>, c: nat, bs: seq<Block>)
    requires LaidOut(chains) && AllSettled(chains) && c < |chains|
    requires bs != [] && Span(bs) == SPAN && Rounded(bs) && Settled(bs)
    ensures var after := WithBlocks(chains, c, bs);
            LaidOut(after) && AllSettled(after) &&
            Live(after) == Others(chains, c) + LiveFrom(chains[c].page + SEGMENT, bs) &&
            Used(after) + UsedBytes(chains[c].blocks) == Used(chains) + UsedBytes(bs) &&
            Live(chains) == Others(chains, c) + LiveFrom(chains[c].page + SEGMENT, chains[c].blocks) &&
            Used(after) < U32 && Used(chains) < U32
  {
    var after := WithBlocks(chains, c, bs);
    assert AllSettled(after);
    assert LiveIn(chains[c]) == LiveFrom(chains[c].page + SEGMENT, chains[c].blocks);
    hide *;
    LaidOutWith(chains, c, bs);
    LiveWith(chains, c, bs);
    CounterFits(chains);
    CounterFits(after);
  }

  lemma {:induction false} SettledFacts(chains: seq<Chain>, c: nat)
    requires LaidOut(chains) && AllSettled(chains) && c < |chains|
    ensures Settled(chains[c].blocks) && Rounded(chains[c].blocks) && Span(chains[c].blocks) == SPAN
  {
    assert Tiled(chains[c]);
  }

  lemma {:induction false} TakenHeap(chains: seq<Chain>, c: nat, a: seq<Block>, b: Block, z: seq<Block>, size: nat)
    requires LaidOut(chains) && AllSettled(chains) && c < |chains|
    requires chains[c].blocks == a + [b] + z && !b.used && b.size >= size && size % 8 == 0
    ensures var after := WithBlocks(chains, c, Allocated(a, b, z, size));
            var p := Payload(chains[c].page + SEGMENT + Span(a) + HEADER, Taken(b, size).size);
            AllSettled(after) && Live(after) == Live(chains) + {p} && p !in Live(chains) &&
            Used(after) == Used(chains) + p.size < U32
  {
    var at, bs := chains[c].page + SEGMENT, Allocated(a, b, z, size);
    assert bs != [];
    hide LaidOut, AllSettled, LiveFrom, Span, UsedBytes, Settled, Rounded, Live, Used, Allocated, Taken, Others, WithBlocks;
    SettledFacts(chains, c);
    AllocatedChain(at, a, b, z, size);
    HeapReplaced(chains, c, bs);
    NotYetLive(chains, c, a, b, z, Taken(b, size).size);
  }

  /** A payload behind `a` lies in the page of its chain. */
  lemma {:induction false} NotElsewhere(chains: seq<Chain>, c: nat, a: seq<Block>, b: Block, z: seq<Block>, size: nat)
    requires LaidOut(chains) && c < |chains| && chains[c].blocks == a + [b] + z
    ensures Payload(chains[c].page + SEGMENT + Span(a) + HEADER, size) !in Others(chains, c)
  {
    assert Tiled(chains[c]);
    InPage(a, b, z);
    hide LaidOut, Span, Others, Tiled;
    var p := Payload(chains[c].page + SEGMENT + Span(a) + HEADER, size);
    if p in Others(chains, c) {
      OthersElsewhere(chains, c, p);
    }
  }

  lemma {:induction false} NotYetLive(chains: seq<Chain>, c: nat, a: seq<Block>, b: Block, z: seq<Block>, size: nat)
    requires LaidOut(chains) && c < |chains| && chains[c].blocks == a + [b] + z && !b.used
    ensures Payload(chains[c].page + SEGMENT + Span(a) + HEADER, size) !in Live(chains)
  {
    var at := chains[c].page + SEGMENT;
    hide LaidOut, LiveFrom, Span, Live, Others;
    NotElsewhere(chains, c, a, b, z, size);
    FreeParts(at, a, b, z);
    GoneFromBoth(at, a, b.size, z);
    LiveWith(chains, c, chains[c].blocks);
  }

  lemma {:induction false} FreeParts(at: nat, a: seq<Block>, b: Block, z: seq<Block>)
    requires !b.used
    ensures LiveFrom(at, a + [b] + z) == LiveFrom(at, a) + LiveFrom(at + Span(a) + HEADER + b.size, z)
  {
    hide LiveFrom, Span, UsedBytes, Settled, Rounded, SettledEnds;
    Parts(at, a, [b], z);
    One(at + Span(a), b);
  }

  lemma {:induction false} FreedHeap(chains: seq<Chain>, c: nat, a: seq<Block>, b: Block, z: seq<Block>)
    requires LaidOut(chains) && AllSettled(chains) && c < |chains|
    requires chains[c].blocks == a + [b] + z && b.used
    ensures var after := WithBlocks(chains, c, Freed(a, b, z));
            var gone := Payload(chains[c].page + SEGMENT + Span(a) + HEADER, b.size);
            AllSettled(after) && gone in Live(chains) && Live(after) == Live(chains) - {gone} &&
            Used(chains) == Used(after) + gone.size && Used(chains) < U32
  {
    hide LaidOut, AllSettled, LiveFrom, Span, UsedBytes, Settled, Rounded, Live, Used, Freed, Others, WithBlocks;
    SettledFacts(chains, c);
    FreedChain(chains[c].page + SEGMENT, a, b, z);
    HeapReplaced(chains, c, Freed(a, b, z));
    NotElsewhere(chains, c, a, b, z, b.size);
  }

  lemma {:induction false} InPage(a: seq<Block>, b: Block, z: seq<Block>)
    ensures Span(a) + HEADER + b.size <= Span(a + [b] + z)
  {
    hide Span;
    SpanParts(a, [b], z);
    One(0, b);
  }

  /** Every live payload may be freed. */
  lemma {:induction false} LiveIsBlock(chains: seq<Chain>, p: Payload)
    requires p in Live(chains)
    ensures p.at >= HEADER && IsBlock(chains, p.at - HEADER)
  {
    LiveWhere(chains, p);
    var c :| 0 <= c < |chains| && p in LiveIn(chains[c]);
    var k := LiveIndex(chains[c].page + SEGMENT, chains[c].blocks, p);
    assert BlockAt(chains, c, k, p.at - HEADER);
  }

  lemma {:induction false} LiveIndex(at: nat, bs: seq<Block>, p: Payload) returns (k: nat)
    requires p in LiveFrom(at, bs)
    ensures k < |bs| && p.at == at + Span(bs[..k]) + HEADER
    decreases |bs|
  {
    if bs[0].used && p == Payload(at + HEADER, bs[0].size) {
      k := 0;
    } else {
      var j := LiveIndex(at + HEADER + bs[0].size, bs[1..], p);
      k := j + 1;
      assert bs[..k][1..] == bs[1..][..j];
    }
  }

  ghost predicate LaidIn(mem: Memory, segs: map<nat, Segment>, segments: nat, chains: seq<Chain>)
  {
    LaidOut(chains) && AllDrawn(mem, chains) && Listed(segs, segments, chains)
  }

  // ---- the pointer updates keep every page drawn ----

  /** What memory holds at a block and at the one behind it. */
  lemma {:induction false} BlockDrawn(mem: Memory, segs: map<nat, Segment>, segments: nat, chains: seq<Chain>, c: nat,
                   a: seq<Block>, b: Block, z: seq<Block>)
    requires LaidIn(mem, segs, segments, chains) && c < |chains| && chains[c].blocks == a + [b] + z
    ensures var block := chains[c].page + SEGMENT + Span(a);
            block in mem && mem[block].size == b.size && mem[block].used == b.used &&
            if z == [] then mem[block].next == 0
            else mem[block].next == block + HEADER + b.size && mem[block].next in mem && mem[mem[block].next].used == z[0].used
  {
    hide Drawn, Last, Span, LaidIn;
    ChainFacts(mem, segs, segments, chains, c);
    Focus(mem, 0, chains[c].page + SEGMENT, a, b, z);
  }

  /** And at the one before it. */
  lemma {:induction false} PrevIn(mem: Memory, at: nat, a: seq<Block>, b: Block, z: seq<Block>)
    requires at > 0 && Drawn(mem, 0, at, a + [b] + z, 0)
    ensures var block := at + Span(a);
            block in mem &&
            if a == [] then mem[block].prev == 0
            else mem[block].prev == at + Span(a[..|a| - 1]) && mem[block].prev > 0 &&
                 mem[block].prev in mem && mem[mem[block].prev].used == a[|a| - 1].used
  {
    hide *;
    Focus(mem, 0, at, a, b, z);
    LastOfNone(0, at);
    var rest := [b] + z;
    assert a + [b] + z == a + rest;
    FocusLast(mem, at, a, rest, a + [b] + z);
  }

  /** The last of a run of blocks, seen from behind it. */
  lemma {:induction false} FocusLast(mem: Memory, at: nat, a: seq<Block>, z: seq<Block>, bs: seq<Block>)
    requires bs == a + z && Drawn(mem, 0, at, bs, 0)
    ensures a != [] ==>
      var prev := at + Span(a[..|a| - 1]);
      Last(0, at, a) == prev && prev in mem && mem[prev].used == a[|a| - 1].used
  {
    hide Drawn, Last, Span;
    if a != [] {
      var n := |a| - 1;
      assert a == a[..n] + [a[n]];
      FocusPrev(0, at, a[..n], a[n]);
      Focus(mem, 0, at, a[..n], a[n], z);
    }
  }

  lemma {:induction false} LastOfNone(prev: nat, at: nat)
    ensures Last(prev, at, []) == prev
  {
  }

  lemma {:induction false} ChainReplaced(mem: Memory, mem': Memory, segs: map<nat, Segment>, segments: nat, chains: seq<Chain>, c: nat,
                      bs: seq<Block>)
    requires LaidIn(mem, segs, segments, chains) && c < |chains|
    requires Drawn(mem', 0, chains[c].page + SEGMENT, bs, 0)
    requires bs != [] && Span(bs) == SPAN && Rounded(bs)
    requires Agree(mem, mem', 0, chains[c].page + SEGMENT) && Agree(mem, mem', chains[c].page + PAGE, U32)
    ensures LaidIn(mem', segs, segments, WithBlocks(chains, c, bs))
  {
    hide Drawn, Span, AllDrawn, LaidOut, Listed, Rounded;
    assert Agree(mem, mem', 0, chains[c].page);
    RedrawAll(mem, mem', chains, c, bs);
    LaidOutWith(chains, c, bs);
    ListedWith(segs, segments, chains, c, bs);
  }

  lemma {:induction false} ChainFacts(mem: Memory, segs: map<nat, Segment>, segments: nat, chains: seq<Chain>, c: nat)
    requires LaidIn(mem, segs, segments, chains) && c < |chains|
    ensures Drawn(mem, 0, chains[c].page + SEGMENT, chains[c].blocks, 0)
    ensures Span(chains[c].blocks) == SPAN && Rounded(chains[c].blocks) && chains[c].blocks != []
  {
    assert Tiled(chains[c]);
  }

  lemma {:induction false} AbsorbLaid(mem: Memory, segs: map<nat, Segment>, segments: nat, chains: seq<Chain>, c: nat,
                   a: seq<Block>, b: Block, n: Block, z: seq<Block>)
    requires LaidIn(mem, segs, segments, chains) && c < |chains| && chains[c].blocks == a + [b, n] + z
    ensures var block := chains[c].page + SEGMENT + Span(a);
            CanAbsorb(mem, block) &&
            LaidIn(Absorb(mem, block), segs, segments, WithBlocks(chains, c, a + [Merged(b, n)] + z))
  {
    hide Drawn, Span, LaidIn, Rounded, Agree, Absorb, Split, WithBlocks, Merged, Rest;
    var at := chains[c].page + SEGMENT;
    ChainFacts(mem, segs, segments, chains, c);
    AbsorbDrawn(mem, at, a, b, n, z);
    AbsorbAgree(mem, at, a, b, n, z);
    MergedShape(a, b, n, z);
    ChainReplaced(mem, Absorb(mem, at + Span(a)), segs, segments, chains, c, a + [Merged(b, n)] + z);
  }

  lemma {:induction false} MergedShape(a: seq<Block>, b: Block, n: Block, z: seq<Block>)
    requires Rounded(a + [b, n] + z)
    ensures var after := a + [Merged(b, n)] + z;
            Span(after) == Span(a + [b, n] + z) && Rounded(after) && after != []
  {
    hide *;
    SpanParts(a, [b, n], z);
    SpanParts(a, [Merged(b, n)], z);
    MergedSpan(b, n);
  }

  lemma {:induction false} SplitLaid(mem: Memory, segs: map<nat, Segment>, segments: nat, chains: seq<Chain>, c: nat,
                  a: seq<Block>, b: Block, z: seq<Block>, size: nat)
    requires LaidIn(mem, segs, segments, chains) && c < |chains| && chains[c].blocks == a + [b] + z
    requires b.size >= size + HEADER && size % 8 == 0
    ensures var block := chains[c].page + SEGMENT + Span(a);
            block in mem && mem[block].size == b.size && (mem[block].next != 0 ==> mem[block].next in mem) &&
            LaidIn(Split(mem, block, size), segs, segments, WithBlocks(chains, c, a + [Block(size, b.used), Rest(b, size)] + z))
  {
    hide Drawn, Span, LaidIn, Rounded, Agree, Absorb, Split, WithBlocks, Merged, Rest;
    var at := chains[c].page + SEGMENT;
    ChainFacts(mem, segs, segments, chains, c);
    SplitDrawn(mem, at, a, b, z, size);
    SplitAgree(mem, at, a, b, z, size);
    SplitShape(a, b, z, size);
    ChainReplaced(mem, Split(mem, at + Span(a), size), segs, segments, chains, c, a + [Block(size, b.used), Rest(b, size)] + z);
  }

  lemma {:induction false} SplitShape(a: seq<Block>, b: Block, z: seq<Block>, size: nat)
    requires b.size >= size + HEADER && size % 8 == 0 && Rounded(a + [b] + z)
    ensures var after := a + [Block(size, b.used), Rest(b, size)] + z;
            Span(after) == Span(a + [b] + z) && Rounded(after) && after != []
  {
    hide *;
    SpanParts(a, [b], z);
    SpanParts(a, [Block(size, b.used), Rest(b, size)], z);
    SplitSpan(b, size);
  }

  lemma {:induction false} MarkLaid(mem: Memory, segs: map<nat, Segment>, segments: nat, chains: seq<Chain>, c: nat,
                 a: seq<Block>, b: Block, z: seq<Block>, used: bool)
    requires LaidIn(mem, segs, segments, chains) && c < |chains| && chains[c].blocks == a + [b] + z
    ensures var block := chains[c].page + SEGMENT + Span(a);
            block in mem &&
            LaidIn(Mark(mem, block, used), segs, segments, WithBlocks(chains, c, a + [Block(b.size, used)] + z))
  {
    var at := chains[c].page + SEGMENT;
    hide Drawn, Span, LaidIn, LiveFrom, Rounded, Settled, SettledEnds, UsedBytes, Mark, Agree;
    ChainFacts(mem, segs, segments, chains, c);
    SpanParts(a, [b], z);
    SpanParts(a, [Block(b.size, used)], z);
    MarkSpan(b, used);
    MarkDrawn(mem, at, a, b, z, used);
    MarkAgree(mem, at + Span(a), used, at, at + SPAN);
    ChainReplaced(mem, Mark(mem, at + Span(a), used), segs, segments, chains, c, a + [Block(b.size, used)] + z);
  }

  lemma {:induction false} MarkAgree(mem: Memory, block: nat, used: bool, lo: nat, hi: nat)
    requires block in mem && lo <= block < hi
    ensures Agree(mem, Mark(mem, block, used), 0, lo) && Agree(mem, Mark(mem, block, used), hi, U32)
  {
  }

  lemma {:induction false} SpanParts(a: seq<Block>, m: seq<Block>, z: seq<Block>)
    ensures Span(a + m + z) == Span(a) + Span(m) + Span(z)
    ensures Rounded(a + m + z) <==> Rounded(a) && Rounded(m) && Rounded(z)
  {
    hide *;
    Parts(0, a, m, z);
  }

  lemma {:induction false} MarkSpan(b: Block, used: bool)
    ensures Span([Block(b.size, used)]) == Span([b]) == HEADER + b.size
    ensures Rounded([b]) ==> Rounded([Block(b.size, used)])
  {
    One(0, b);
    One(0, Block(b.size, used));
    assert Rounded([b]) ==> ([b])[0].size % 8 == 0;
  }

  lemma {:induction false} SplitSpan(b: Block, size: nat)
    requires b.size >= size + HEADER && size % 8 == 0
    ensures Span([Block(size, b.used), Rest(b, size)]) == Span([b]) == HEADER + b.size
    ensures Rounded([b]) ==> Rounded([Block(size, b.used), Rest(b, size)])
  {
    One(0, b);
    MergedSpan(Block(size, b.used), Rest(b, size));
    assert Rounded([b]) ==> ([b])[0].size % 8 == 0;
  }

  lemma {:induction false} MergedSpan(b: Block, n: Block)
    ensures Span([b, n]) == Span([Merged(b, n)]) == 2 * HEADER + b.size + n.size
    ensures Rounded([b, n]) ==> Rounded([Merged(b, n)])
  {
    One(0, b);
    One(0, n);
    One(0, Merged(b, n));
    Appended(0, [b], [n]);
    assert [b] + [n] == [b, n];
    assert Rounded([b, n]) ==> [b, n][0].size % 8 == 0 && [b, n][1].size % 8 == 0;
  }

  /** The merge writes nothing outside the chain. */
  lemma {:induction false} AbsorbAgree(mem: Memory, at: nat, a: seq<Block>, b: Block, n: Block, z: seq<Block>)
    requires at >= SEGMENT && Drawn(mem, 0, at, a + [b, n] + z, 0) && CanAbsorb(mem, at + Span(a))
    ensures var mem' := Absorb(mem, at + Span(a));
            Agree(mem, mem', 0, at) && Agree(mem, mem', at + Span(a + [b, n] + z), U32)
  {
    hide Drawn, Last, Span, Absorb;
    assert a + [b, n] + z == a + [b] + ([n] + z) == (a + [b]) + [n] + z;
    Focus(mem, 0, at, a, b, [n] + z);
    Appended(0, a, [b]);
    One(0, b);
    Focus(mem, 0, at, a + [b], n, z);
    SpanParts(a, [b, n], z);
    MergedSpan(b, n);
    SpanPositive(z);
    AbsorbEffect(mem, at + Span(a), 0, U32);
  }

  /** Nor does the split. */
  lemma {:induction false} SplitAgree(mem: Memory, at: nat, a: seq<Block>, b: Block, z: seq<Block>, size: nat)
    requires at >= SEGMENT && Drawn(mem, 0, at, a + [b] + z, 0) && b.size >= size + HEADER
    ensures var s := at + Span(a);
            s in mem && mem[s].size == b.size && (mem[s].next != 0 ==> mem[s].next in mem) &&
            var mem' := Split(mem, s, size);
            Agree(mem, mem', 0, at) && Agree(mem, mem', at + Span(a + [b] + z), U32)
  {
    hide Drawn, Last, Span, Split;
    Focus(mem, 0, at, a, b, z);
    SpanParts(a, [b], z);
    One(0, b);
    SpanPositive(z);
    SplitEffect(mem, at + Span(a), size, 0, U32);
  }

  lemma {:induction false} SpanPositive(z: seq<Block>)
    ensures z != [] ==> Span(z) > 0
  {
  }
}
