/** Loading a planned ELF image into a fresh address space. */
module ElfLoading {
  import opened Codec
  import opened Frames
  import opened PageTables
  import opened AddressSpaces
  import opened Loading
  import opened Elf

  ghost predicate InFile(s: Segment, image: Bytes)
  {
    s.offset + s.fileSize <= |image|
  }

  ghost predicate AllInFile(segments: seq<Segment>, image: Bytes)
  {
    forall i | 0 <= i < |segments| :: InFile(segments[i], image)
  }

  /** The bytes of a segment's page `p`: file bytes while there are any, then zeros. */
  function PageBytes(image: Bytes, s: Segment, p: nat): (page: Bytes)
    requires s.offset + s.fileSize <= |image|
    ensures |page| == PAGE
  {
    var start := p * PAGE;
    if start < s.fileSize then
      var available := s.fileSize - start;
      var copied := if available < PAGE then available else PAGE;
      Padded(image[s.offset + start..s.offset + start + copied])
    else Zeros(PAGE)
  }

  function PageJob(image: Bytes, s: Segment, p: nat): Job
    requires s.offset + s.fileSize <= |image|
  {
    Job(s.vaddr + p * PAGE, PageBytes(image, s, p), s.writable)
  }

  /** The first `n` pages of a segment. */
  function SegmentJobs(image: Bytes, s: Segment, n: nat): (jobs: seq<Job>)
    requires s.offset + s.fileSize <= |image|
    ensures |jobs| == n
  {
    if n == 0 then [] else SegmentJobs(image, s, n - 1) + [PageJob(image, s, n - 1)]
  }

  ghost function PlanJobs(image: Bytes, segments: seq<Segment>): (jobs: seq<Job>)
    requires AllInFile(segments, image)
    ensures |jobs| == TotalPages(segments)
  {
    if segments == [] then []
    else
      var n := |segments| - 1;
      assert InFile(segments[n], image);
      PlanJobs(image, segments[..n]) + SegmentJobs(image, segments[n], PagesFor(segments[n]))
  }

  function StackJob(): Job
  {
    Job(STACK_PAGE, Zeros(PAGE), true)
  }

  // ---- placement ----

  lemma {:induction false} PagePlaced(s: Segment, p: nat, imageSize: nat)
    requires Fits(s, imageSize) && p < PagesFor(s)
    ensures Placed(s.vaddr + p * PAGE)
  {
    assert p * PAGE <= s.memSize;
    assert (s.vaddr + p * PAGE) % PAGE == 0 by { Whole(s.vaddr, p); }
    assert BASE <= s.vaddr + p * PAGE <= WINDOW_END;
    InFirstTable(s.vaddr + p * PAGE);
  }

  lemma Whole(v: nat, p: nat)
    requires v % PAGE == 0
    ensures (v + p * PAGE) % PAGE == 0
  {
  }

  lemma InFirstTable(v: nat)
    requires BASE <= v <= WINDOW_END
    ensures PdeIndex(v) == KERNEL_TABLES
  {
  }

  lemma StackPlaced()
    ensures Placed(STACK_PAGE)
  {
  }

  // ---- the loader ----

  /** Takes, fills and maps one more page. */
  method AddPage(paging: Paging, d: nat, job: Job, pages: seq<nat>, ghost mem0: Memory, ghost base: multiset<nat>,
                 ghost jobs: seq<Job>, ghost has: bool) returns (ok: bool, pages': seq<nat>)
    requires paging.Valid() && Placed(job.vaddr) && Compact(paging.mem, d, has)
    requires Building(mem0, paging.mem, base, paging.frames.Taken(), paging.kernelTables, d, pages)
    requires Loaded(paging.mem, d, jobs, pages)
    modifies paging, paging.frames, paging.frames.bitmap
    ensures paging.Valid()
    ensures Building(mem0, paging.mem, base, paging.frames.Taken(), paging.kernelTables, d, pages')
    ensures ok ==> Loaded(paging.mem, d, jobs + [job], pages') && Compact(paging.mem, d, true)
    ensures ok ==> |pages'| == |pages| + 1 && pages' == pages + [pages'[|pages|]] && pages'[|pages|] != 0
    ensures !ok ==> PAGE_COUNT - paging.frames.reservedPages - |base| <= |pages| + 2
  {
    hide FrameAllocator.Taken, FrameAllocator.Valid, Building, Loaded, Compact, Placed;
    ghost var was, taken := paging.mem, paging.frames.Taken();
    pages' := pages;
    HeldCount(paging, mem0, base, d, pages, has);
    var f := PutPage(paging, job.bytes);
    if f == 0 {
      HeldCount(paging, mem0, base, d, pages, has);
      return false, pages;
    }
    PutStill(mem0, was, base, taken, paging.kernelTables, d, pages, jobs, f, job.bytes, has);
    pages' := pages + [f];
    ok := MapHeld(paging, d, job, f, mem0, base, jobs, pages, pages', has);
    HeldCount(paging, mem0, base, d, pages', ok);
  }

  /** Filling a fresh frame disturbs nothing built so far. */
  lemma {:induction false} PutStill(mem0: Memory, m: Memory, base: multiset<nat>, taken: multiset<nat>, kernelTables: seq<nat>, d: nat,
                                    pages: seq<nat>, jobs: seq<Job>, f: nat, bytes: Bytes, has: bool)
    requires Building(mem0, m, base, taken, kernelTables, d, pages) && Loaded(m, d, jobs, pages) && Compact(m, d, has)
    requires taken[f] == 0
    ensures var m' := m[f := Data(bytes)];
            Building(mem0, m', base, taken + multiset{f}, kernelTables, d, pages + [f]) && Loaded(m', d, jobs, pages) &&
            Compact(m', d, has)
  {
    var m' := m[f := Data(bytes)];
    hide Untouched, GoodSpace, Space, SetOf, Loaded, Compact;
    SpaceIsDirectory(m, d, kernelTables, SetOf(pages));
    UntouchedElsewhere(m, f, Data(bytes), taken);
    UntouchedLess(m, m', taken, Space(m, d));
    UntouchedLess(m, m', taken, base);
    UntouchedTwice(mem0, m, m', base);
    SpaceSame(m, m', d, kernelTables, SetOf(pages));
    PagesSnoc(pages, f);
    MorePages(m', d, kernelTables, SetOf(pages), SetOf(pages + [f]));
    UntouchedLess(m, m', taken, multiset(pages));
    LoadedStill(m, m', d, kernelTables, pages, jobs);
    assert d in taken;
    CompactStill(m, m', d, has);
  }

  lemma {:induction false} SpaceIsDirectory(m: Memory, d: nat, kernelTables: seq<nat>, pages: set<nat>)
    requires GoodSpace(m, d, kernelTables, pages)
    ensures d in m && d in Space(m, d)
  {
    DirectoryInSpace(m, d);
  }

  lemma {:induction false} CompactStill(m: Memory, m': Memory, d: nat, has: bool)
    requires Compact(m, d, has) && d in m' && m'[d] == m[d]
    ensures Compact(m', d, has)
  {
  }

  lemma {:induction false} LoadedStill(m: Memory, m': Memory, d: nat, kernelTables: seq<nat>, pages: seq<nat>, jobs: seq<Job>)
    requires GoodSpace(m, d, kernelTables, SetOf(pages)) && Loaded(m, d, jobs, pages)
    requires Untouched(m, m', Space(m, d)) && Untouched(m, m', multiset(pages))
    ensures Loaded(m', d, jobs, pages)
  {
    hide Untouched, GoodSpace, Space, SetOf, Translate, PdeIndex, Lookup;
    PagesUntouched(m, m', multiset(pages), pages, jobs);
    forall v: nat | PdeIndex(v) >= KERNEL_TABLES
      ensures Translate(m', d, v) == Translate(m, d, v)
    {
      SameTranslation(m, m', d, kernelTables, SetOf(pages), v);
    }
  }

  lemma {:induction false} MorePages(m: Memory, d: nat, kernelTables: seq<nat>, pages: set<nat>, more: set<nat>)
    requires GoodSpace(m, d, kernelTables, pages) && pages <= more
    ensures GoodSpace(m, d, kernelTables, more)
  {
  }

  lemma {:induction false} SameTranslation(m: Memory, m': Memory, d: nat, kernelTables: seq<nat>, pages: set<nat>, v: nat)
    requires GoodSpace(m, d, kernelTables, pages) && Untouched(m, m', Space(m, d)) && PdeIndex(v) >= KERNEL_TABLES
    ensures Translate(m', d, v) == Translate(m, d, v)
  {
    hide TablesFrom, PdeIndex, PteIndex;
    assert d in Space(m, d);
    if PdeIndex(v) in m[d].tables {
      TableCounted(m[d].tables, KERNEL_TABLES, PdeIndex(v));
      assert m[d].tables[PdeIndex(v)] in Space(m, d);
    }
  }

  /** Loads the pages of one segment. */
  method LoadSegment(paging: Paging, d: nat, image: Bytes, s: Segment, start: seq<nat>, ghost mem0: Memory, ghost base: multiset<nat>,
                     ghost jobs: seq<Job>, ghost has: bool) returns (ok: bool, pages: seq<nat>)
    requires paging.Valid() && Fits(s, |image|) && Compact(paging.mem, d, has) && |start| + PagesFor(s) <= MAX_PAGES
    requires Building(mem0, paging.mem, base, paging.frames.Taken(), paging.kernelTables, d, start)
    requires Loaded(paging.mem, d, jobs, start)
    modifies paging, paging.frames, paging.frames.bitmap
    ensures paging.Valid()
    ensures Building(mem0, paging.mem, base, paging.frames.Taken(), paging.kernelTables, d, pages)
    ensures ok ==> Loaded(paging.mem, d, jobs + SegmentJobs(image, s, PagesFor(s)), pages) && Compact(paging.mem, d, true)
    ensures ok ==> |pages| == |start| + PagesFor(s)
    ensures !ok ==> PAGE_COUNT - paging.frames.reservedPages - |base| < |start| + PagesFor(s) + 2
  {
    hide FrameAllocator.Taken, FrameAllocator.Valid, Building, Loaded, Compact, Placed, PageJob, PagesFor, SetOf;
    pages := start;
    var p := 0;
    assert jobs + SegmentJobs(image, s, 0) == jobs;
    while p < PagesFor(s)
      invariant 0 <= p <= PagesFor(s) && |pages| == |start| + p
      invariant paging.Valid()
      invariant Building(mem0, paging.mem, base, paging.frames.Taken(), paging.kernelTables, d, pages)
      invariant Loaded(paging.mem, d, jobs + SegmentJobs(image, s, p), pages)
      invariant Compact(paging.mem, d, has || p > 0)
    {
      assert |pages| < MAX_PAGES;
      PagePlaced(s, p, |image|);
      var job := PageJob(image, s, p);
      assert job.vaddr == s.vaddr + p * PAGE by { JobIs(image, s, p); }
      ok, pages := AddPage(paging, d, job, pages, mem0, base, jobs + SegmentJobs(image, s, p), has || p > 0);
      if !ok {
        return;
      }
      assert jobs + SegmentJobs(image, s, p) + [job] == jobs + SegmentJobs(image, s, p + 1);
      p := p + 1;
    }
    ok := true;
  }

  lemma {:induction false} JobIs(image: Bytes, s: Segment, p: nat)
    requires s.offset + s.fileSize <= |image|
    ensures PageJob(image, s, p) == Job(s.vaddr + p * PAGE, PageBytes(image, s, p), s.writable)
  {
  }

  /** Loads every segment of a plan, one after the other. */
  method LoadSegments(paging: Paging, d: nat, image: Bytes, plan: Plan, ghost mem0: Memory, ghost base: multiset<nat>)
    returns (ok: bool, pages: seq<nat>)
    requires paging.Valid() && GoodPlan(plan, |image|) && AllInFile(plan.segments, image) && Compact(paging.mem, d, false)
    requires Building(mem0, paging.mem, base, paging.frames.Taken(), paging.kernelTables, d, [])
    requires Loaded(paging.mem, d, [], [])
    modifies paging, paging.frames, paging.frames.bitmap
    ensures paging.Valid()
    ensures Building(mem0, paging.mem, base, paging.frames.Taken(), paging.kernelTables, d, pages)
    ensures ok ==> Loaded(paging.mem, d, PlanJobs(image, plan.segments), pages) && Compact(paging.mem, d, true)
    ensures ok ==> |pages| == TotalPages(plan.segments)
    ensures !ok ==> PAGE_COUNT - paging.frames.reservedPages - |base| < TotalPages(plan.segments) + 2
  {
    var segments := plan.segments;
    hide FrameAllocator.Taken, FrameAllocator.Valid, Building, Loaded, Compact, PagesFor, TotalPages, SegmentJobs, PlanJobs, Fits, Disjoint;
    pages := [];
    var s := 0;
    NoJobs(image, segments);
    while s < |segments|
      invariant 0 <= s <= |segments| && |pages| == TotalPages(segments[..s])
      invariant paging.Valid()
      invariant Building(mem0, paging.mem, base, paging.frames.Taken(), paging.kernelTables, d, pages)
      invariant Loaded(paging.mem, d, PlanJobs(image, segments[..s]), pages)
      invariant Compact(paging.mem, d, s > 0)
    {
      MoreJobs(image, segments, s);
      ok, pages := LoadSegment(paging, d, image, segments[s], pages, mem0, base, PlanJobs(image, segments[..s]), s > 0);
      if !ok {
        return;
      }
      s := s + 1;
    }
    assert segments[..s] == segments;
    ok := true;
  }

  lemma {:induction false} NoJobs(image: Bytes, segments: seq<Segment>)
    requires AllInFile(segments, image)
    ensures PlanJobs(image, segments[..0]) == [] && TotalPages(segments[..0]) == 0
  {
  }

  lemma {:induction false} MoreJobs(image: Bytes, segments: seq<Segment>, s: nat)
    requires s < |segments| && AllInFile(segments, image) && TotalPages(segments) <= MAX_PAGES
    ensures InFile(segments[s], image)
    ensures PlanJobs(image, segments[..s + 1]) == PlanJobs(image, segments[..s]) + SegmentJobs(image, segments[s], PagesFor(segments[s]))
    ensures TotalPages(segments[..s + 1]) == TotalPages(segments[..s]) + PagesFor(segments[s]) <= TotalPages(segments)
  {
    assert segments[..s + 1][..s] == segments[..s] && segments[..s + 1][s] == segments[s];
    TotalGrows(segments, s + 1);
    hide PagesFor, SegmentJobs;
  }

  datatype ElfBuild = ElfBuild(space: nat, pages: seq<nat>, stack: nat)

  /** Builds the whole address space, or leaves every frame as it was.  Besides its pages the
      image needs a directory, a table and a stack page; it fails exactly when there are not
      that many free frames. */
  method BuildElf(paging: Paging, image: Bytes, plan: Plan) returns (b: Option<ElfBuild>)
    requires paging.Valid() && GoodPlan(plan, |image|) && AllInFile(plan.segments, image)
    modifies paging, paging.frames, paging.frames.bitmap
    ensures paging.Valid()
    ensures b.None? ==> paging.frames.Taken() == old(paging.frames.Taken()) &&
                        Untouched(old(paging.mem), paging.mem, old(paging.frames.Taken()))
    ensures b.None? <==> old(paging.frames.FreePages()) < TotalPages(plan.segments) + 3
    ensures b.Some? ==> Building(old(paging.mem), paging.mem, old(paging.frames.Taken()), paging.frames.Taken(),
                                 paging.kernelTables, b.value.space, b.value.pages + [b.value.stack])
    ensures b.Some? ==> Loaded(paging.mem, b.value.space, PlanJobs(image, plan.segments) + [StackJob()],
                               b.value.pages + [b.value.stack])
    ensures b.Some? ==> b.value.stack != 0
  {
    hide FrameAllocator.Taken, FrameAllocator.Valid, Building, Loaded, Compact, TotalPages, PlanJobs, Untouched, GoodPlan, AllInFile,
         Placed, StackJob, GoodSpace, Space, PdeIndex;
    ghost var mem0, base, total := paging.mem, paging.frames.Taken(), TotalPages(plan.segments);
    UntouchedSame(mem0, base);
    paging.frames.FreeCount();
    var space := paging.CreateSpace();
    if space == 0 {
      return None;
    }
    EmptyBuild(mem0, paging.mem, base, paging.frames.Taken(), paging.kernelTables, space);
    var ok, pages := LoadSegments(paging, space, image, plan, mem0, base);
    if !ok {
      Rollback(paging, space, pages, mem0, base);
      return None;
    }
    StackIs();
    var all;
    ok, all := AddPage(paging, space, StackJob(), pages, mem0, base, PlanJobs(image, plan.segments), true);
    if !ok {
      Rollback(paging, space, all, mem0, base);
      return None;
    }
    HeldCount(paging, mem0, base, space, all, true);
    paging.frames.FreeCount();
    b := Some(ElfBuild(space, pages, all[|pages|]));
  }

  lemma StackIs()
    ensures StackJob().vaddr == STACK_PAGE && Placed(STACK_PAGE)
  {
    StackPlaced();
  }

  lemma {:induction false} EmptyBuild(mem0: Memory, m: Memory, base: multiset<nat>, taken: multiset<nat>, kernelTables: seq<nat>, d: nat)
    requires GoodSpace(m, d, kernelTables, {}) && Space(m, d) == multiset{d} && Untouched(mem0, m, base)
    requires taken == base + multiset{d}
    requires forall v: nat | PdeIndex(v) >= KERNEL_TABLES :: Translate(m, d, v).None?
    ensures Building(mem0, m, base, taken, kernelTables, d, []) && Loaded(m, d, [], [])
  {
    hide GoodSpace, Untouched, Translate, PdeIndex;
    assert SetOf([]) == {};
    var none: seq<nat> := [];
    assert multiset(none) == multiset{};
  }

  // ---- what the task then sees ----

  /** The byte a task reads at a virtual address. */
  function ReadByte(mem: Memory, d: nat, v: nat): Option<Byte>
  {
    match Translate(mem, d, v)
    case None => None
    case Some(e) =>
      if e.frame in mem && mem[e.frame].Data? && v % PAGE < |mem[e.frame].bytes| then Some(mem[e.frame].bytes[v % PAGE]) else None
  }

  /** The last job for a page decides. */
  lemma {:induction false} LookupAt(jobs: seq<Job>, pages: seq<nat>, k: nat, v: nat)
    requires |jobs| == |pages| && k < |jobs| && Way(v) == Way(jobs[k].vaddr)
    requires forall j | k < j < |jobs| :: Way(jobs[j].vaddr) != Way(v)
    ensures Lookup(jobs, pages, v) == Some(Entry(pages[k], jobs[k].writable))
    decreases |jobs|
  {
    hide Way;
    var n := |jobs| - 1;
    if k < n {
      LookupAt(jobs[..n], pages[..n], k, v);
    }
  }

  lemma {:induction false} SegmentJobAt(image: Bytes, s: Segment, n: nat, p: nat)
    requires s.offset + s.fileSize <= |image| && p < n
    ensures SegmentJobs(image, s, n)[p] == PageJob(image, s, p)
  {
    hide PageJob;
    if p < n - 1 {
      SegmentJobAt(image, s, n - 1, p);
    }
  }

  /** Page `p` of segment `i` is the job at `TotalPages(segments[..i]) + p`. */
  lemma {:induction false} PlanJobAt(image: Bytes, segments: seq<Segment>, i: nat, p: nat)
    requires AllInFile(segments, image) && i < |segments| && p < PagesFor(segments[i])
    ensures InFile(segments[i], image)
    ensures TotalPages(segments[..i]) + p < |PlanJobs(image, segments)|
    ensures PlanJobs(image, segments)[TotalPages(segments[..i]) + p] == PageJob(image, segments[i], p)
    decreases |segments|
  {
    var n := |segments| - 1;
    hide PageJob, PagesFor;
    assert InFile(segments[i], image);
    if i == n {
      SegmentJobAt(image, segments[n], PagesFor(segments[n]), p);
    } else {
      assert segments[..n][..i] == segments[..i];
      PlanJobAt(image, segments[..n], i, p);
    }
  }

  /** Every job is some page of some segment. */
  lemma {:induction false} PlanJobWhere(image: Bytes, segments: seq<Segment>, k: nat) returns (i: nat, p: nat)
    requires AllInFile(segments, image) && k < TotalPages(segments)
    ensures i < |segments| && p < PagesFor(segments[i]) && k == TotalPages(segments[..i]) + p
    decreases |segments|
  {
    var n := |segments| - 1;
    hide PagesFor;
    if k >= TotalPages(segments[..n]) {
      i, p := n, k - TotalPages(segments[..n]);
    } else {
      i, p := PlanJobWhere(image, segments[..n], k);
      assert segments[..n][..i] == segments[..i];
    }
  }

  /** Pages under the first private table are told apart by their entry. */
  lemma WayIsPage(v: nat, w: nat)
    requires BASE <= v <= WINDOW_END && BASE <= w <= WINDOW_END && Way(v) == Way(w) && v % PAGE == 0 && w % PAGE == 0
    ensures v == w
  {
    WayIndex(v);
    WayIndex(w);
  }

  lemma WayIndex(v: nat)
    requires BASE <= v <= WINDOW_END
    ensures Way(v).1 == v / PAGE - BASE / PAGE
  {
  }

  lemma WayOfOffset(v: nat, o: nat)
    requires v % PAGE == 0 && o < PAGE
    ensures Way(v + o) == Way(v) && (v + o) % PAGE == o && PdeIndex(v + o) == PdeIndex(v)
  {
    assert (v + o) / PAGE == v / PAGE;
    assert (v + o) / TABLE_SPAN == v / TABLE_SPAN by { SameSpan(v, o); }
  }

  lemma SameSpan(v: nat, o: nat)
    requires v % PAGE == 0 && o < PAGE
    ensures (v + o) / TABLE_SPAN == v / TABLE_SPAN
  {
    var n := v / PAGE;
    assert TABLE_SPAN == PAGE * 1024;
    assert v == PAGE * n;
    var q, r := n / 1024, n % 1024;
    assert v == TABLE_SPAN * q + PAGE * r && PAGE * r + o < TABLE_SPAN;
  }

  lemma {:induction false} PageInside(s: Segment, p: nat)
    requires p < PagesFor(s)
    ensures s.memSize > 0 ==> s.vaddr + p * PAGE < RoundUp(s.vaddr + s.memSize)
    ensures s.memSize == 0 ==> p == 0
  {
    assert s.memSize > 0 ==> p * PAGE < s.memSize;
    RoundsUp(s.vaddr + s.memSize);
  }

  lemma RoundsUp(n: nat)
    ensures n <= RoundUp(n)
  {
  }

  /** The address of a page of a segment. */
  function PageAddress(segments: seq<Segment>, i: nat, p: nat): nat
    requires i < |segments|
  {
    segments[i].vaddr + p * PAGE
  }

  /** Only an empty segment can stand on another's page, and then on its first. */
  lemma {:induction false} SamePage(segments: seq<Segment>, imageSize: nat, i: nat, p: nat, j: nat, q: nat)
    requires AllFit(segments, imageSize) && i < |segments| && j < |segments| && segments[i].memSize > 0
    requires p < PagesFor(segments[i]) && q < PagesFor(segments[j])
    requires PageAddress(segments, i, p) == PageAddress(segments, j, q)
    ensures i == j ==> p == q
    ensures i != j ==> segments[j].memSize == 0 && p == 0 && q == 0 && segments[i].vaddr == segments[j].vaddr
  {
    hide RoundUp, PagesFor;
    PageInside(segments[i], p);
    PageInside(segments[j], q);
    if i != j {
      if segments[j].memSize == 0 {
        EmptyRange(segments[j], imageSize);
      }
      assert Disjoint(segments[i], segments[j]) || Disjoint(segments[j], segments[i]);
    }
  }

  lemma {:induction false} EmptyRange(s: Segment, imageSize: nat)
    requires Fits(s, imageSize) && s.memSize == 0
    ensures RoundUp(s.vaddr + s.memSize) == s.vaddr && PagesFor(s) == 1
  {
  }

  lemma {:induction false} PageInWindow(s: Segment, p: nat, imageSize: nat)
    requires Fits(s, imageSize) && p < PagesFor(s)
    ensures BASE <= s.vaddr + p * PAGE <= STACK_PAGE && (s.vaddr + p * PAGE) % PAGE == 0
    ensures s.memSize > 0 ==> s.vaddr + p * PAGE < STACK_PAGE
  {
    assert p * PAGE <= s.memSize && (s.memSize > 0 ==> p * PAGE < s.memSize);
    Whole(s.vaddr, p);
  }

  // ---- the page that wins ----

  /** No later segment has a page at this address. */
  ghost predicate Topmost(segments: seq<Segment>, i: nat, p: nat)
    requires i < |segments|
  {
    forall j: nat, q: nat | j < |segments| && q < PagesFor(segments[j]) && PageAddress(segments, j, q) == PageAddress(segments, i, p) :: j <= i
  }

  /** A later empty segment stands at the same address. */
  ghost predicate Hidden(segments: seq<Segment>, i: nat)
    requires i < |segments|
  {
    exists j :: i < j < |segments| && segments[j].memSize == 0 && segments[j].vaddr == segments[i].vaddr
  }

  lemma {:induction false} NotHiddenIsTopmost(segments: seq<Segment>, imageSize: nat, i: nat, p: nat)
    requires AllFit(segments, imageSize) && i < |segments| && segments[i].memSize > 0 && p < PagesFor(segments[i])
    requires p > 0 || !Hidden(segments, i)
    ensures Topmost(segments, i, p)
  {
    hide PagesFor, AllFit, PageAddress;
    forall j: nat, q: nat | j < |segments| && q < PagesFor(segments[j]) && PageAddress(segments, j, q) == PageAddress(segments, i, p)
      ensures j <= i
    {
      SamePage(segments, imageSize, i, p, j, q);
    }
  }

  /** The last empty segment at the address of a hidden one is on top. */
  lemma {:induction false} TopEmpty(segments: seq<Segment>, imageSize: nat, i: nat, from: nat) returns (j: nat)
    requires AllFit(segments, imageSize) && i < from < |segments| && segments[i].memSize > 0
    requires segments[from].memSize == 0 && segments[from].vaddr == segments[i].vaddr
    ensures i < j < |segments| && segments[j].memSize == 0 && segments[j].vaddr == segments[i].vaddr && Topmost(segments, j, 0)
    decreases |segments| - from
  {
    if next :| from < next < |segments| && segments[next].memSize == 0 && segments[next].vaddr == segments[i].vaddr {
      j := TopEmpty(segments, imageSize, i, next);
    } else {
      j := from;
      forall k: nat, q: nat | k < |segments| && q < PagesFor(segments[k]) && PageAddress(segments, k, q) == PageAddress(segments, j, 0)
        ensures k <= j
      {
        assert PageAddress(segments, i, 0) == PageAddress(segments, k, q);
        SamePage(segments, imageSize, i, 0, k, q);
      }
    }
  }

  /** Jobs of earlier segments come earlier. */
  lemma {:induction false} EarlierJobs(segments: seq<Segment>, i: nat, j: nat, q: nat)
    requires j < i <= |segments| && q < PagesFor(segments[j])
    ensures TotalPages(segments[..j]) + q < TotalPages(segments[..i])
  {
    hide PagesFor;
    assert segments[..i][..j + 1] == segments[..j + 1];
    TotalGrows(segments[..i], j + 1);
    assert segments[..j + 1][..j] == segments[..j] && segments[..j + 1][j] == segments[j];
  }

  /** No later page of the image, nor the stack, takes the place of a topmost page. */
  lemma {:induction false} NotReplaced(image: Bytes, segments: seq<Segment>, i: nat, p: nat, j: nat)
    requires AllFit(segments, |image|) && AllInFile(segments, image)
    requires i < |segments| && p < PagesFor(segments[i]) && Topmost(segments, i, p) && PageAddress(segments, i, p) < STACK_PAGE
    requires TotalPages(segments[..i]) + p < j <= TotalPages(segments)
    ensures Way((PlanJobs(image, segments) + [StackJob()])[j].vaddr) != Way(PageAddress(segments, i, p))
  {
    hide PagesFor, Way, TotalPages, PlanJobs, StackJob, RoundUp, Fits, PageJob;
    assert Fits(segments[i], |image|);
    PageInWindow(segments[i], p, |image|);
    var v := PageAddress(segments, i, p);
    if j == TotalPages(segments) {
      StackApart(v);
    } else {
      var i', p' := PlanJobWhere(image, segments, j);
      assert Fits(segments[i'], |image|);
      PlanJobAt(image, segments, i', p');
      PageInWindow(segments[i'], p', |image|);
      if i' < i {
        EarlierJobs(segments, i, i', p');
      }
      JobIs(image, segments[i'], p');
      assert PageAddress(segments, i', p') != v;
      ApartWays(v, PageAddress(segments, i', p'));
    }
  }

  lemma {:induction false} ApartWays(v: nat, w: nat)
    requires BASE <= v <= WINDOW_END && BASE <= w <= WINDOW_END && v % PAGE == 0 && w % PAGE == 0 && v != w
    ensures Way(v) != Way(w)
  {
    hide Way;
    if Way(v) == Way(w) {
      WayIsPage(v, w);
    }
  }

  lemma {:induction false} StackApart(v: nat)
    requires BASE <= v < STACK_PAGE && v % PAGE == 0
    ensures Way(StackJob().vaddr) != Way(v)
  {
    StackIs();
    ApartWays(v, STACK_PAGE);
  }

  lemma {:induction false} PageByte(image: Bytes, s: Segment, p: nat, o: nat)
    requires s.offset + s.fileSize <= |image| && o < PAGE
    ensures PageBytes(image, s, p)[o] == if p * PAGE + o < s.fileSize then image[s.offset + p * PAGE + o] else 0
  {
  }

  /** A topmost page reads as it was filled. */
  lemma {:induction false} TopmostReads(mem: Memory, d: nat, image: Bytes, segments: seq<Segment>, pages: seq<nat>, i: nat, p: nat, o: nat)
    requires AllFit(segments, |image|) && AllInFile(segments, image)
    requires Loaded(mem, d, PlanJobs(image, segments) + [StackJob()], pages)
    requires i < |segments| && p < PagesFor(segments[i]) && o < PAGE
    requires Topmost(segments, i, p) && PageAddress(segments, i, p) < STACK_PAGE
    ensures InFile(segments[i], image)
    ensures ReadByte(mem, d, PageAddress(segments, i, p) + o) == Some(PageBytes(image, segments[i], p)[o])
    ensures var e := Translate(mem, d, PageAddress(segments, i, p) + o); e.Some? && e.value.writable == segments[i].writable
  {
    hide PagesFor, TotalPages, PlanJobs, Way, PageBytes, PdeIndex, RoundUp, Fits, Disjoint, PageJob, StackJob, Lookup, Translate, Topmost;
    var s, jobs := segments[i], PlanJobs(image, segments) + [StackJob()];
    var k, v := TotalPages(segments[..i]) + p, PageAddress(segments, i, p);
    assert Fits(s, |image|);
    PageInWindow(s, p, |image|);
    PlanJobAt(image, segments, i, p);
    WayOfOffset(v, o);
    PagePlaced(s, p, |image|);
    forall j | k < j < |jobs| ensures Way(jobs[j].vaddr) != Way(v + o) { NotReplaced(image, segments, i, p, j); }
    JobIs(image, s, p);
    LookupAt(jobs, pages, k, v + o);
  }

  // ---- when the image is right ----

  /** What the file says of offset `o` of a segment's page: its byte, or zero beyond them. */
  function FileByte(image: Bytes, s: Segment, p: nat, o: nat): Byte
    requires s.offset + s.fileSize <= |image|
  {
    if p * PAGE + o < s.fileSize then image[s.offset + p * PAGE + o] else 0
  }

  /** What the task reads there. */
  function ReadAt(mem: Memory, d: nat, s: Segment, p: nat, o: nat): Option<Byte>
  {
    ReadByte(mem, d, s.vaddr + p * PAGE + o)
  }

  /** Page `p` of the segment reads as the file's bytes and beyond them as zeros. */
  ghost predicate PageRight(mem: Memory, d: nat, image: Bytes, s: Segment, p: nat)
    requires InFile(s, image)
  {
    forall o: nat | o < PAGE :: ReadAt(mem, d, s, p, o) == Some(FileByte(image, s, p, o))
  }

  /** Every address of the segment, up to the end of its last page, reads right. */
  ghost predicate ReadsRight(mem: Memory, d: nat, image: Bytes, s: Segment)
    requires InFile(s, image)
  {
    forall p: nat | p < PagesFor(s) :: PageRight(mem, d, image, s, p)
  }

  /** The bytes the file has for the segment's first page are all zero. */
  ghost predicate FirstPageZero(image: Bytes, s: Segment)
    requires InFile(s, image)
  {
    forall o: nat | o < PAGE :: FileByte(image, s, 0, o) == 0
  }

  lemma {:induction false} TopmostRight(mem: Memory, d: nat, image: Bytes, segments: seq<Segment>, pages: seq<nat>, i: nat, p: nat)
    requires AllFit(segments, |image|) && AllInFile(segments, image)
    requires Loaded(mem, d, PlanJobs(image, segments) + [StackJob()], pages)
    requires i < |segments| && p < PagesFor(segments[i]) && segments[i].memSize > 0 && (p > 0 || !Hidden(segments, i))
    ensures InFile(segments[i], image) && PageRight(mem, d, image, segments[i], p)
  {
    hide PagesFor, PlanJobs, PageBytes, StackJob, Loaded, ReadByte, Topmost, Hidden, Fits;
    assert Fits(segments[i], |image|) && InFile(segments[i], image);
    NotHiddenIsTopmost(segments, |image|, i, p);
    PageInWindow(segments[i], p, |image|);
    forall o: nat | o < PAGE
      ensures ReadAt(mem, d, segments[i], p, o) == Some(FileByte(image, segments[i], p, o))
    {
      TopmostReads(mem, d, image, segments, pages, i, p, o);
      PageByte(image, segments[i], p, o);
    }
  }

  /** The first page of a hidden segment reads as zeros. */
  lemma {:induction false} HiddenReads(mem: Memory, d: nat, image: Bytes, segments: seq<Segment>, pages: seq<nat>, i: nat, o: nat)
    requires AllFit(segments, |image|) && AllInFile(segments, image)
    requires Loaded(mem, d, PlanJobs(image, segments) + [StackJob()], pages)
    requires i < |segments| && segments[i].memSize > 0 && Hidden(segments, i) && o < PAGE
    ensures ReadByte(mem, d, segments[i].vaddr + o) == Some(0)
  {
    hide PlanJobs, PageBytes, StackJob, Loaded, ReadByte, Topmost, Fits, RoundUp;
    var from :| i < from < |segments| && segments[from].memSize == 0 && segments[from].vaddr == segments[i].vaddr;
    var j := TopEmpty(segments, |image|, i, from);
    assert Fits(segments[i], |image|) && Fits(segments[j], |image|) && InFile(segments[j], image);
    EmptyRange(segments[j], |image|);
    hide PagesFor;
    PageInWindow(segments[i], 0, |image|);
    TopmostReads(mem, d, image, segments, pages, j, 0, o);
    EmptyBytes(image, segments[j], |image|, o);
  }

  lemma {:induction false} EmptyBytes(image: Bytes, s: Segment, imageSize: nat, o: nat)
    requires Fits(s, imageSize) && s.memSize == 0 && InFile(s, image) && o < PAGE
    ensures PageBytes(image, s, 0)[o] == 0
  {
    PageByte(image, s, 0, o);
  }

  /** A non-empty segment of an accepted plan reads right if and only if no later empty segment
      stands at its address, or the file's bytes for its first page are all zero. */
  lemma {:induction false} ElfImageLoaded(mem: Memory, d: nat, image: Bytes, plan: Plan, pages: seq<nat>, i: nat)
    requires GoodPlan(plan, |image|) && AllInFile(plan.segments, image)
    requires Loaded(mem, d, PlanJobs(image, plan.segments) + [StackJob()], pages)
    requires i < |plan.segments| && plan.segments[i].memSize > 0
    ensures InFile(plan.segments[i], image)
    ensures ReadsRight(mem, d, image, plan.segments[i]) <==> !Hidden(plan.segments, i) || FirstPageZero(image, plan.segments[i])
  {
    hide PlanJobs, StackJob, Loaded, ReadByte, Hidden, AllFit, PagesFor;
    var segments, s := plan.segments, plan.segments[i];
    assert InFile(s, image);
    forall p: nat | p < PagesFor(s) && (p > 0 || !Hidden(segments, i))
      ensures PageRight(mem, d, image, s, p)
    {
      TopmostRight(mem, d, image, segments, pages, i, p);
    }
    if Hidden(segments, i) {
      forall o: nat | o < PAGE
        ensures ReadAt(mem, d, s, 0, o) == Some(0)
      {
        HiddenReads(mem, d, image, segments, pages, i, o);
      }
      HiddenRight(mem, d, image, s);
    }
  }

  lemma {:induction false} HiddenRight(mem: Memory, d: nat, image: Bytes, s: Segment)
    requires InFile(s, image) && forall o: nat | o < PAGE :: ReadAt(mem, d, s, 0, o) == Some(0)
    ensures PageRight(mem, d, image, s, 0) <==> FirstPageZero(image, s)
  {
    hide ReadAt, FileByte;
    if PageRight(mem, d, image, s, 0) {
      forall o: nat | o < PAGE
        ensures FileByte(image, s, 0, o) == 0
      {
        assert ReadAt(mem, d, s, 0, o) == Some(FileByte(image, s, 0, o));
      }
    }
  }

  // ---- an image that is accepted and wrong ----

  function HidingPlan(): Plan
  {
    Plan(BASE, [Segment(BASE, 0, 1, 1, false, true), Segment(BASE, 0, 0, 0, false, false)])
  }

  /** The bytes of an ELF file with two program headers for the same address: one byte of
      code, and an empty segment. */
  function HidingByte(i: nat): Byte
  {
    match i
    case 0 => 0x7F
    case 1 => 0x45
    case 2 => 0x4C
    case 3 => 0x46
    case 4 => 1
    case 5 => 1
    case 6 => 1
    case 16 => 2
    case 18 => 3
    case 27 => 1
    case 28 => 52
    case 42 => 32
    case 44 => 2
    case 52 => 1
    case 63 => 1
    case 68 => 1
    case 72 => 1
    case 76 => 1
    case 84 => 1
    case 95 => 1
    case _ => 0
  }

  function HidingImage(): (image: Bytes)
    ensures |image| == 116 && forall i | 0 <= i < 116 :: image[i] == HidingByte(i)
  {
    seq(116, i requires 0 <= i < 116 => HidingByte(i))
  }

  lemma HidingHeader()
    ensures HeaderOk(HidingImage()) && U32At(HidingImage(), 24) == BASE && U16(HidingImage(), 44) == 2 && U32At(HidingImage(), 28) == 52
  {
    hide HidingImage;
  }

  lemma HidingWord(at: nat)
    requires at + 4 <= 116
    ensures var b0: nat, b1: nat, b2: nat, b3: nat := HidingByte(at), HidingByte(at + 1), HidingByte(at + 2), HidingByte(at + 3);
            U32At(HidingImage(), at) == b0 + 0x100 * b1 + 0x1_0000 * b2 + 0x100_0000 * b3
  {
    hide HidingImage, HidingByte;
  }

  lemma HidingCode()
    ensures IsLoad(HidingImage(), 52) && SegmentAt(HidingImage(), 52) == Segment(BASE, 0, 1, 1, false, true)
  {
    hide HidingImage, U32At;
    HidingWord(52);
    HidingWord(56);
    HidingWord(60);
    HidingWord(68);
    HidingWord(72);
    HidingWord(76);
  }

  lemma HidingEmpty()
    ensures IsLoad(HidingImage(), 84) && SegmentAt(HidingImage(), 84) == Segment(BASE, 0, 0, 0, false, false)
  {
    hide HidingImage, U32At;
    HidingWord(84);
    HidingWord(88);
    HidingWord(92);
    HidingWord(100);
    HidingWord(104);
    HidingWord(108);
  }

  lemma HidingLoads()
    ensures HeaderOk(HidingImage()) && Plan(U32At(HidingImage(), 24), Loads(HidingImage(), U16(HidingImage(), 44))) == HidingPlan()
  {
    hide HidingImage, HidingByte, SegmentAt, IsLoad, U32At, U16, HeaderOk;
    HidingHeader();
    HidingCode();
    HidingEmpty();
    var image := HidingImage();
    assert Loads(image, 0) == [] && Loads(image, 1) == [] + [SegmentAt(image, 52)];
    assert Loads(image, 2) == Loads(image, 1) + [SegmentAt(image, 84)];
  }

  lemma HidingTotal()
    ensures TotalPages(HidingPlan().segments) == 2 && TotalPages(HidingPlan().segments[..1]) == 1
  {
    var segments := HidingPlan().segments;
    assert segments[..1] == [segments[0]] && [segments[0]][..0] == [];
    assert TotalPages([segments[0]]) == TotalPages([]) + PagesFor(segments[0]);
  }

  lemma HidingIsGood(imageSize: nat)
    requires imageSize >= 1
    ensures GoodPlan(HidingPlan(), imageSize)
  {
    HidingTotal();
    var segments := HidingPlan().segments;
    hide TotalPages;
    assert segments[0].executable && segments[0].vaddr <= BASE < segments[0].vaddr + segments[0].memSize;
  }

  /** The validator accepts the image, whose first byte is the code's only byte. */
  method HidingImageAccepted() returns (r: Outcome)
    ensures r == Accepted(HidingPlan()) && HidingImage()[0] == 0x7F
  {
    hide HidingImage, HeaderOk, GoodPlan, Loads, U32At, U16;
    HidingLoads();
    HidingIsGood(|HidingImage()|);
    r := ValidateAndPlan(HidingImage());
  }

  /** Loaded, the task reads zero where the file says 0x7F. */
  lemma {:induction false} EmptySegmentHides(mem: Memory, d: nat, pages: seq<nat>)
    requires AllInFile(HidingPlan().segments, HidingImage())
    requires Loaded(mem, d, PlanJobs(HidingImage(), HidingPlan().segments) + [StackJob()], pages)
    ensures ReadByte(mem, d, BASE) == Some(0) && HidingImage()[HidingPlan().segments[0].offset] == 0x7F
    ensures !ReadsRight(mem, d, HidingImage(), HidingPlan().segments[0])
  {
    hide HidingImage, PlanJobs, StackJob, Loaded, ReadByte, GoodPlan, ReadsRight;
    HidingIsGood(|HidingImage()|);
    var segments := HidingPlan().segments;
    assert segments[1].memSize == 0 && segments[1].vaddr == segments[0].vaddr && segments[0].memSize > 0;
    assert Hidden(segments, 0);
    GoodFits(HidingPlan(), |HidingImage()|);
    HiddenReads(mem, d, HidingImage(), segments, pages, 0, 0);
    ElfImageLoaded(mem, d, HidingImage(), HidingPlan(), pages, 0);
    assert FileByte(HidingImage(), segments[0], 0, 0) == 0x7F;
  }

  lemma {:induction false} GoodFits(plan: Plan, imageSize: nat)
    requires GoodPlan(plan, imageSize)
    ensures AllFit(plan.segments, imageSize)
  {
  }
}
