/** Building a user task's memory: pages filled, mapped in order, and undone on failure. */
module Loading {
  import opened Codec
  import opened Frames
  import opened PageTables
  import opened AddressSpaces
  import Elf

  const USER_CODE: nat := 0x0100_0000
  const USER_STACK_PAGE: nat := USER_CODE + PAGE_SIZE

  /** One page to fill and map. */
  datatype Job = Job(vaddr: nat, bytes: Bytes, writable: bool)

  function Zeros(n: nat): (bs: Bytes)
    ensures |bs| == n
  {
    seq(n, i => 0)
  }

  /** `bytes` followed by zeros up to a whole page. */
  function Padded(bytes: Bytes): (page: Bytes)
    requires |bytes| <= PAGE_SIZE
    ensures |page| == PAGE_SIZE
  {
    bytes + Zeros(PAGE_SIZE - |bytes|)
  }

  /** What a private address means after mapping `pages[k]` for `jobs[k]`, in order: the last
      job for that page wins. */
  function Lookup(jobs: seq<Job>, pages: seq<nat>, vaddr: nat): Option<Entry>
    requires |jobs| == |pages|
  {
    if jobs == [] then None
    else
      var n := |jobs| - 1;
      if Way(vaddr) == Way(jobs[n].vaddr) then Some(Entry(pages[n], jobs[n].writable))
      else Lookup(jobs[..n], pages[..n], vaddr)
  }

  /** Exactly the jobs' pages are mapped, each holding its job's bytes. */
  ghost predicate Loaded(mem: Memory, d: nat, jobs: seq<Job>, pages: seq<nat>)
  {
    |jobs| == |pages| &&
    (forall k | 0 <= k < |pages| :: pages[k] in mem && mem[pages[k]] == Data(jobs[k].bytes)) &&
    (forall v: nat | PdeIndex(v) >= KERNEL_TABLES :: Translate(mem, d, v) == Lookup(jobs, pages, v))
  }

  function SetOf(pages: seq<nat>): set<nat>
  {
    set p | p in pages
  }

  /** A space under construction: on top of `base`, exactly its own frames and `pages` are
      taken, and nothing in `base` was touched. */
  ghost predicate Building(mem0: Memory, mem: Memory, base: multiset<nat>, taken: multiset<nat>, kernelTables: seq<nat>,
                           d: nat, pages: seq<nat>)
  {
    GoodSpace(mem, d, kernelTables, SetOf(pages)) && Untouched(mem0, mem, base) &&
    taken == base + Space(mem, d) + multiset(pages)
  }

  // ---- steps of the construction ----

  lemma {:induction false} LookupSnoc(jobs: seq<Job>, pages: seq<nat>, job: Job, f: nat, v: nat)
    requires |jobs| == |pages|
    ensures Lookup(jobs + [job], pages + [f], v) ==
              if Way(v) == Way(job.vaddr) then Some(Entry(f, job.writable)) else Lookup(jobs, pages, v)
  {
    hide Way;
    assert (jobs + [job])[..|jobs|] == jobs && (pages + [f])[..|pages|] == pages;
  }

  lemma {:induction false} PagesUntouched(m: Memory, m': Memory, frames: multiset<nat>, pages: seq<nat>, jobs: seq<Job>)
    requires |jobs| == |pages| && Untouched(m, m', frames) && multiset(pages) <= frames
    requires forall k | 0 <= k < |pages| :: pages[k] in m && m[pages[k]] == Data(jobs[k].bytes)
    ensures forall k | 0 <= k < |pages| :: pages[k] in m' && m'[pages[k]] == Data(jobs[k].bytes)
  {
    forall k | 0 <= k < |pages|
      ensures pages[k] in m' && m'[pages[k]] == Data(jobs[k].bytes)
    {
      assert pages[k] in multiset(pages);
    }
  }

  lemma {:induction false} UntouchedLess(m: Memory, m': Memory, more: multiset<nat>, fewer: multiset<nat>)
    requires Untouched(m, m', more) && fewer <= more
    ensures Untouched(m, m', fewer)
  {
    forall f | f in fewer
      ensures f in more
    {
      assert fewer[f] <= more[f];
    }
  }

  lemma {:induction false} PagesSnoc(pages: seq<nat>, f: nat)
    ensures SetOf(pages + [f]) == SetOf(pages) + {f} && multiset(pages + [f]) == multiset(pages) + multiset{f}
  {
  }

  // ---- the work ----

  /** A fresh frame holding `bytes`; 0, and nothing changed, if there is none. */
  method PutPage(paging: Paging, bytes: Bytes) returns (f: nat)
    requires paging.Valid()
    modifies paging, paging.frames, paging.frames.bitmap
    ensures paging.Valid()
    ensures f == 0 ==> paging.mem == old(paging.mem) && paging.frames.Taken() == old(paging.frames.Taken())
    ensures f == 0 ==> paging.frames.FreePages() == 0
    ensures f != 0 ==> old(paging.frames.Taken())[f] == 0 && paging.mem == old(paging.mem)[f := Data(bytes)] &&
                       paging.frames.Taken() == old(paging.frames.Taken()) + multiset{f}
  {
    hide FrameAllocator.Taken, FrameAllocator.Valid;
    f := paging.frames.AllocPage();
    if f == 0 {
      return;
    }
    paging.mem := paging.mem[f := Data(bytes)];
  }

  /** A page-aligned address under the first private table. */
  predicate Placed(vaddr: nat)
  {
    vaddr % PAGE_SIZE == 0 && PdeIndex(vaddr) == KERNEL_TABLES
  }

  /** Maps one of the pages held.  This fails only when the table is still missing and no
      frame is free. */
  method MapHeld(paging: Paging, d: nat, job: Job, f: nat, ghost mem0: Memory, ghost base: multiset<nat>,
                 ghost jobs: seq<Job>, ghost pages: seq<nat>, ghost held: seq<nat>, ghost has: bool) returns (ok: bool)
    requires paging.Valid() && Placed(job.vaddr) && Compact(paging.mem, d, has)
    requires Building(mem0, paging.mem, base, paging.frames.Taken(), paging.kernelTables, d, held)
    requires multiset(pages + [f]) <= multiset(held)
    requires Loaded(paging.mem, d, jobs, pages) && f in paging.mem && paging.mem[f] == Data(job.bytes)
    modifies paging, paging.frames, paging.frames.bitmap
    ensures paging.Valid()
    ensures Building(mem0, paging.mem, base, paging.frames.Taken(), paging.kernelTables, d, held)
    ensures Untouched(old(paging.mem), paging.mem, multiset(held))
    ensures ok ==> Loaded(paging.mem, d, jobs + [job], pages + [f])
    ensures Compact(paging.mem, d, ok)
    ensures !ok ==> !has && paging.frames.FreePages() == 0
  {
    hide FrameAllocator.Taken, FrameAllocator.Valid, GoodSpace, Space, Untouched, Translate, Lookup, Way, SetOf, Loaded;
    ghost var was, taken := paging.mem, paging.frames.Taken();
    assert job.vaddr < ENTRIES * TABLE_SPAN;
    hide PdeIndex;
    ok := paging.MapUserPage(d, job.vaddr, f, job.writable, SetOf(held));
    MappedStill(mem0, was, paging.mem, base, taken, paging.frames.Taken(), d, held);
    if ok {
      HeldIn(pages, f, held);
      assert SetOf(held) + {f} == SetOf(held);
      MappedLoaded(was, paging.mem, multiset(held), d, jobs, pages, job, f);
    }
  }

  lemma {:induction false} HeldIn(pages: seq<nat>, f: nat, held: seq<nat>)
    requires multiset(pages + [f]) <= multiset(held)
    ensures f in SetOf(held)
  {
    assert (pages + [f])[|pages|] == f;
    assert f in multiset(pages + [f]);
    assert multiset(pages + [f])[f] <= multiset(held)[f];
  }

  lemma {:induction false} MappedStill(mem0: Memory, m: Memory, m': Memory, base: multiset<nat>, taken: multiset<nat>,
                                       taken': multiset<nat>, d: nat, pages: seq<nat>)
    requires Untouched(mem0, m, base) && Untouched(m, m', taken - Space(m, d))
    requires taken == base + Space(m, d) + multiset(pages) && taken' + Space(m, d) == taken + Space(m', d)
    ensures Untouched(mem0, m', base) && taken' == base + Space(m', d) + multiset(pages)
    ensures Untouched(m, m', multiset(pages))
  {
    hide Space, Untouched;
    var s := Space(m, d);
    assert taken - s == base + multiset(pages);
    UntouchedLess(m, m', taken - s, base);
    UntouchedLess(m, m', taken - s, multiset(pages));
    UntouchedTwice(mem0, m, m', base);
    forall x
      ensures taken'[x] == (base + Space(m', d) + multiset(pages))[x]
    {
      assert (taken' + s)[x] == (taken + Space(m', d))[x];
    }
  }

  lemma {:induction false} MappedLoaded(m: Memory, m': Memory, held: multiset<nat>, d: nat,
                                        jobs: seq<Job>, pages: seq<nat>, job: Job, f: nat)
    requires Loaded(m, d, jobs, pages) && f in m && m[f] == Data(job.bytes)
    requires Untouched(m, m', held) && multiset(pages + [f]) <= held
    requires forall v: nat :: Translate(m', d, v) ==
               if Way(v) == Way(job.vaddr) then Some(Entry(f, job.writable)) else Translate(m, d, v)
    ensures Loaded(m', d, jobs + [job], pages + [f])
  {
    hide Untouched, Translate, Way, PdeIndex, Lookup;
    var all, work := pages + [f], jobs + [job];
    PagesUntouched(m, m', held, all, work);
    forall v: nat | PdeIndex(v) >= KERNEL_TABLES
      ensures Translate(m', d, v) == Lookup(work, all, v)
    {
      LookupSnoc(jobs, pages, job, f, v);
    }
  }

  /** Frees pages one by one. */
  method FreeAll(paging: Paging, pages: seq<nat>, ghost base: multiset<nat>)
    requires paging.Valid() && paging.frames.Taken() == base + multiset(pages)
    modifies paging.frames, paging.frames.bitmap
    ensures paging.Valid() && paging.frames.Taken() == base
  {
    hide FrameAllocator.Taken, FrameAllocator.Valid;
    var i := 0;
    assert pages[0..] == pages;
    while i < |pages|
      invariant 0 <= i <= |pages|
      invariant paging.Valid() && paging.frames.Taken() == base + multiset(pages[i..])
    {
      assert pages[i..] == [pages[i]] + pages[i + 1..];
      paging.frames.FreePage(pages[i]);
      OneLess(base, pages[i], multiset(pages[i + 1..]));
      i := i + 1;
    }
    assert pages[i..] == [];
  }

  /** Gives back everything gathered so far. */
  method Rollback(paging: Paging, d: nat, pages: seq<nat>, ghost mem0: Memory, ghost base: multiset<nat>)
    requires paging.Valid() && Building(mem0, paging.mem, base, paging.frames.Taken(), paging.kernelTables, d, pages)
    modifies paging, paging.frames, paging.frames.bitmap
    ensures paging.Valid() && paging.frames.Taken() == base && Untouched(mem0, paging.mem, base)
  {
    hide FrameAllocator.Taken, FrameAllocator.Valid, Space, Untouched;
    ghost var s, was := Space(paging.mem, d), paging.mem;
    assert d in s by { DirectoryInSpace(paging.mem, d); }
    hide GoodSpace;
    paging.frames.TakenOnce(d);
    FreeAll(paging, pages, base + s);
    assert base + s - s == base;
    paging.DestroySpace(d, SetOf(pages));
    UntouchedTwice(mem0, was, paging.mem, base);
  }

  lemma {:induction false} DirectoryInSpace(mem: Memory, d: nat)
    requires IsDirectory(mem, d)
    ensures d in Space(mem, d)
  {
    hide TablesFrom;
  }

  /** How many frames a construction has taken, seen from what is free. */
  lemma {:induction false} HeldCount(paging: Paging, mem0: Memory, base: multiset<nat>, d: nat, pages: seq<nat>, has: bool)
    requires paging.Valid() && Compact(paging.mem, d, has)
    requires Building(mem0, paging.mem, base, paging.frames.Taken(), paging.kernelTables, d, pages)
    ensures PAGE_COUNT - paging.frames.reservedPages - |base| == paging.frames.FreePages() + |pages| + if has then 2 else 1
  {
    hide FrameAllocator.Taken, FrameAllocator.Valid, Space, GoodSpace, Untouched;
    paging.frames.FreeCount();
    CompactSize(paging.mem, d, has);
  }

  // ---- flat binaries ----

  datatype Build = Build(space: nat, code: nat, stack: nat)

  function FlatJobs(code: Bytes): seq<Job>
    requires |code| <= PAGE_SIZE
  {
    [Job(USER_CODE, Padded(code), true), Job(USER_STACK_PAGE, Zeros(PAGE_SIZE), true)]
  }

  /** The pages are filled: nothing is mapped yet. */
  lemma {:induction false} FlatStart(m: Memory, mem0: Memory, base: multiset<nat>, taken: multiset<nat>, kernelTables: seq<nat>,
                                     d: nat, c: nat, s: nat, code: Bytes)
    requires |code| <= PAGE_SIZE && GoodSpace(m, d, kernelTables, {}) && Space(m, d) == multiset{d} && Compact(m, d, false)
    requires Untouched(mem0, m, base) && taken == base + multiset{c} + multiset{s} + multiset{d}
    requires base[c] == 0 && base[s] == 0 && c != s && c != d && s != d
    requires forall v: nat | PdeIndex(v) >= KERNEL_TABLES :: Translate(m, d, v).None?
    ensures var m' := m[s := Data(Zeros(PAGE_SIZE))][c := Data(Padded(code))];
            Building(mem0, m', base, taken, kernelTables, d, [c, s]) && Compact(m', d, false) && Loaded(m', d, [], []) &&
            c in m' && m'[c] == Data(Padded(code)) && s in m' && m'[s] == Data(Zeros(PAGE_SIZE))
  {
    var m1 := m[s := Data(Zeros(PAGE_SIZE))];
    var m' := m1[c := Data(Padded(code))];
    hide Translate, PdeIndex, TablesFrom, Padded, Zeros;
    assert Space(m', d) == multiset{d};
    assert GoodSpace(m', d, kernelTables, {});
    assert SetOf([c, s]) == {c, s};
    assert multiset([c, s]) == multiset{c} + multiset{s};
    assert GoodSpace(m', d, kernelTables, {c, s});
    UntouchedElsewhere(m, s, Data(Zeros(PAGE_SIZE)), base);
    UntouchedElsewhere(m1, c, Data(Padded(code)), base);
  }

  /** The frames are taken and nothing is filled yet. */
  ghost predicate FlatFrames(mem0: Memory, m: Memory, base: multiset<nat>, taken: multiset<nat>, kernelTables: seq<nat>, b: Build)
  {
    GoodSpace(m, b.space, kernelTables, {}) && Space(m, b.space) == multiset{b.space} && Compact(m, b.space, false) &&
    Untouched(mem0, m, base) && taken == base + multiset{b.code} + multiset{b.stack} + multiset{b.space} &&
    base[b.code] == 0 && base[b.stack] == 0 && b.code != b.stack && b.code != b.space && b.stack != b.space &&
    b.code != 0 && b.stack != 0 &&
    forall v: nat | PdeIndex(v) >= KERNEL_TABLES :: Translate(m, b.space, v).None?
  }

  lemma {:induction false} GiveBack(base: multiset<nat>, c: nat)
    ensures base + multiset{c} - multiset{c} == base
  {
  }

  lemma {:induction false} GiveBackTwo(base: multiset<nat>, c: nat, s: nat)
    ensures base + multiset{c} + multiset{s} - multiset{c} - multiset{s} == base
  {
  }

  lemma {:induction false} StillFree(base: multiset<nat>, c: nat, s: nat)
    ensures base <= base + multiset{c} + multiset{s}
    ensures (base + multiset{c})[s] == 0 ==> base[s] == 0 && c != s
    ensures forall d | (base + multiset{c} + multiset{s})[d] == 0 :: base[d] == 0 && d != c && d != s
  {
  }

  /** Two fresh frames, or none and nothing changed. */
  method TakeTwo(paging: Paging) returns (c: nat, s: nat)
    requires paging.Valid()
    modifies paging.frames, paging.frames.bitmap
    ensures paging.Valid() && (c == 0 <==> s == 0)
    ensures c == 0 ==> paging.frames.Taken() == old(paging.frames.Taken()) && old(paging.frames.FreePages()) < 2
    ensures c != 0 ==> paging.frames.Taken() == old(paging.frames.Taken()) + multiset{c} + multiset{s}
    ensures c != 0 ==> old(paging.frames.Taken())[c] == 0 && old(paging.frames.Taken())[s] == 0 && c != s
    ensures c != 0 ==> paging.frames.FreePages() == old(paging.frames.FreePages()) - 2
  {
    hide FrameAllocator.Taken, FrameAllocator.Valid;
    ghost var base := paging.frames.Taken();
    c := paging.frames.AllocPage();
    if c == 0 {
      return 0, 0;
    }
    s := paging.frames.AllocPage();
    if s == 0 {
      paging.frames.FreePage(c);
      GiveBack(base, c);
      return 0, 0;
    }
    StillFree(base, c, s);
  }

  method TakeFlat(paging: Paging) returns (b: Option<Build>)
    requires paging.Valid()
    modifies paging, paging.frames, paging.frames.bitmap
    ensures paging.Valid()
    ensures b.None? ==> paging.frames.Taken() == old(paging.frames.Taken()) && paging.mem == old(paging.mem)
    ensures b.None? ==> old(paging.frames.FreePages()) < 3
    ensures b.Some? ==> FlatFrames(old(paging.mem), paging.mem, old(paging.frames.Taken()), paging.frames.Taken(),
                                   paging.kernelTables, b.value)
  {
    hide FrameAllocator.Taken, FrameAllocator.Valid, GoodSpace, Space, Untouched, Compact, PdeIndex, Translate;
    ghost var base := paging.frames.Taken();
    var codePage, stackPage := TakeTwo(paging);
    if codePage == 0 {
      return None;
    }
    ghost var both := paging.frames.Taken();
    var space := paging.CreateSpace();
    if space == 0 {
      paging.frames.FreePage(codePage);
      paging.frames.FreePage(stackPage);
      GiveBackTwo(base, codePage, stackPage);
      return None;
    }
    StillFree(base, codePage, stackPage);
    UntouchedLess(old(paging.mem), paging.mem, both, base);
    b := Some(Build(space, codePage, stackPage));
  }

  /** Fills the two pages. */
  method FillFlat(paging: Paging, b: Build, code: Bytes, ghost mem0: Memory, ghost base: multiset<nat>)
    requires paging.Valid() && |code| <= PAGE_SIZE
    requires FlatFrames(mem0, paging.mem, base, paging.frames.Taken(), paging.kernelTables, b)
    modifies paging`mem
    ensures paging.Valid() && Compact(paging.mem, b.space, false)
    ensures Building(mem0, paging.mem, base, paging.frames.Taken(), paging.kernelTables, b.space, [b.code, b.stack])
    ensures Loaded(paging.mem, b.space, [], [])
    ensures b.code in paging.mem && paging.mem[b.code] == Data(Padded(code))
    ensures b.stack in paging.mem && paging.mem[b.stack] == Data(Zeros(PAGE_SIZE))
  {
    hide FrameAllocator.Taken, FrameAllocator.Valid, Untouched, Loaded, Compact, Building, GoodSpace, Space, PdeIndex, Translate, Zeros, Padded;
    FlatStart(paging.mem, mem0, base, paging.frames.Taken(), paging.kernelTables, b.space, b.code, b.stack, code);
    paging.mem := paging.mem[b.stack := Data(Zeros(PAGE_SIZE))];
    paging.mem := paging.mem[b.code := Data(Padded(code))];
  }

  /** Maps the two pages; fails only when the table finds no free frame. */
  method MapFlat(paging: Paging, b: Build, code: Bytes, ghost mem0: Memory, ghost base: multiset<nat>) returns (ok: bool)
    requires paging.Valid() && |code| <= PAGE_SIZE && Compact(paging.mem, b.space, false)
    requires Building(mem0, paging.mem, base, paging.frames.Taken(), paging.kernelTables, b.space, [b.code, b.stack])
    requires Loaded(paging.mem, b.space, [], [])
    requires b.code in paging.mem && paging.mem[b.code] == Data(Padded(code))
    requires b.stack in paging.mem && paging.mem[b.stack] == Data(Zeros(PAGE_SIZE))
    modifies paging, paging.frames, paging.frames.bitmap
    ensures paging.Valid() && Compact(paging.mem, b.space, ok)
    ensures Building(mem0, paging.mem, base, paging.frames.Taken(), paging.kernelTables, b.space, [b.code, b.stack])
    ensures ok ==> Loaded(paging.mem, b.space, FlatJobs(code), [b.code, b.stack])
    ensures !ok ==> paging.frames.FreePages() == 0
  {
    hide *;
    FlatPlaced();
    FlatJobsAre(code);
    ghost var pages, was := [b.code, b.stack], paging.mem;
    var first, second := Job(USER_CODE, Padded(code), true), Job(USER_STACK_PAGE, Zeros(PAGE_SIZE), true);
    assert [] + [b.code] == [b.code] && multiset([b.code]) <= multiset(pages) && [] + [first] == [first];
    ok := MapHeld(paging, b.space, first, b.code, mem0, base, [], [], pages, false);
    if ok {
      assert [b.code] + [b.stack] == pages && [first] + [second] == [first, second];
      HeldStill(was, paging.mem, pages, 1);
      ok := MapHeld(paging, b.space, second, b.stack, mem0, base, [first], [b.code], pages, true);
    }
  }

  lemma {:induction false} FlatJobsAre(code: Bytes)
    requires |code| <= PAGE_SIZE
    ensures FlatJobs(code) == [Job(USER_CODE, Padded(code), true), Job(USER_STACK_PAGE, Zeros(PAGE_SIZE), true)]
  {
  }

  lemma {:induction false} FlatPlaced()
    ensures Placed(USER_CODE) && Placed(USER_STACK_PAGE)
  {
  }

  lemma {:induction false} HeldStill(m: Memory, m': Memory, held: seq<nat>, k: nat)
    requires k < |held| && Untouched(m, m', multiset(held))
    ensures (held[k] in m <==> held[k] in m') && (held[k] in m ==> m[held[k]] == m'[held[k]])
  {
    assert held[k] in multiset(held);
  }

  /** Takes a code page, a stack page, a directory and a table, or nothing.  It fails exactly
      when fewer than four frames are free. */
  method BuildFlat(paging: Paging, code: Bytes) returns (b: Option<Build>)
    requires paging.Valid() && |code| <= PAGE_SIZE
    modifies paging, paging.frames, paging.frames.bitmap
    ensures paging.Valid()
    ensures b.None? ==> paging.frames.Taken() == old(paging.frames.Taken()) &&
                        Untouched(old(paging.mem), paging.mem, old(paging.frames.Taken()))
    ensures b.None? <==> old(paging.frames.FreePages()) < 4
    ensures b.Some? ==> Building(old(paging.mem), paging.mem, old(paging.frames.Taken()), paging.frames.Taken(),
                                 paging.kernelTables, b.value.space, [b.value.code, b.value.stack])
    ensures b.Some? ==> Loaded(paging.mem, b.value.space, FlatJobs(code), [b.value.code, b.value.stack])
    ensures b.Some? ==> b.value.code != 0 && b.value.stack != 0
  {
    hide FrameAllocator.Taken, FrameAllocator.Valid, Untouched, Loaded, Compact, Building, FlatJobs, GoodSpace, Space, PdeIndex;
    ghost var mem0, base := paging.mem, paging.frames.Taken();
    UntouchedSame(mem0, base);
    paging.frames.FreeCount();
    b := TakeFlat(paging);
    if b.None? {
      return;
    }
    FillFlat(paging, b.value, code, mem0, base);
    var ok := MapFlat(paging, b.value, code, mem0, base);
    HeldCount(paging, mem0, base, b.value.space, [b.value.code, b.value.stack], ok);
    paging.frames.FreeCount();
    if !ok {
      Rollback(paging, b.value.space, [b.value.code, b.value.stack], mem0, base);
      return None;
    }
  }
}
