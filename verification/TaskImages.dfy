/** What a task finds in its memory: the flat image, and the rest of an ELF image beside the
    bytes of its segments. */
module TaskImages {
  import opened Codec
  import opened Frames
  import opened PageTables
  import opened AddressSpaces
  import opened Loading
  import opened Elf
  import opened ElfLoading

  lemma {:induction false} LookupNone(jobs: seq<Job>, pages: seq<nat>, v: nat)
    requires |jobs| == |pages| && forall k | 0 <= k < |jobs| :: jobs[k].vaddr / PAGE != v / PAGE
    ensures Lookup(jobs, pages, v) == None
  {
    hide Way;
    if jobs != [] {
      var n := |jobs| - 1;
      WaySamePage(v, jobs[n].vaddr);
      LookupNone(jobs[..n], pages[..n], v);
    }
  }

  /** Address `v` of the task is this byte, on a page it may write or not. */
  ghost predicate Shows(mem: Memory, d: nat, v: nat, b: Byte, writable: bool)
  {
    ReadByte(mem, d, v) == Some(b) && Translate(mem, d, v).Some? && Translate(mem, d, v).value.writable == writable
  }

  lemma {:induction false} JobReads(mem: Memory, d: nat, jobs: seq<Job>, pages: seq<nat>, k: nat, o: nat)
    requires Loaded(mem, d, jobs, pages) && k < |jobs| && o < PAGE && jobs[k].vaddr % PAGE == 0 && |jobs[k].bytes| == PAGE
    requires PdeIndex(jobs[k].vaddr) >= KERNEL_TABLES
    requires forall j | k < j < |jobs| :: jobs[j].vaddr / PAGE != jobs[k].vaddr / PAGE
    ensures Shows(mem, d, jobs[k].vaddr + o, jobs[k].bytes[o], jobs[k].writable)
  {
    hide Way, PdeIndex, Translate, Lookup;
    var v := jobs[k].vaddr;
    WayOfOffset(v, o);
    forall j | k < j < |jobs|
      ensures Way(jobs[j].vaddr) != Way(v + o)
    {
      WaySamePage(jobs[j].vaddr, v);
    }
    LookupAt(jobs, pages, k, v + o);
  }

  /** A flat task: its code from the first private address on, zeros to the end of that page, a
      page of zeros for the stack behind it, both writable, and nothing else. */
  lemma {:induction false} FlatImageReads(mem: Memory, d: nat, code: Bytes, pages: seq<nat>, o: nat, v: nat)
    requires |code| <= PAGE && Loaded(mem, d, FlatJobs(code), pages) && o < PAGE
    ensures Shows(mem, d, 0x100_0000 + o, if o < |code| then code[o] else 0, true)
    ensures Shows(mem, d, 0x100_1000 + o, 0, true)
    ensures v >= 0x100_2000 ==> Translate(mem, d, v) == None
  {
    hide Translate, Lookup, Way, PdeIndex, Shows;
    var jobs := FlatJobs(code);
    FlatPlaces();
    JobReads(mem, d, jobs, pages, 0, o);
    JobReads(mem, d, jobs, pages, 1, o);
    if v >= 0x100_2000 {
      PrivateAddress(v);
      LookupNone(jobs, pages, v);
    }
  }

  lemma FlatPlaces()
    ensures USER_CODE == 0x100_0000 && USER_STACK_PAGE == 0x100_1000
    ensures PdeIndex(USER_CODE) >= KERNEL_TABLES && PdeIndex(USER_STACK_PAGE) >= KERNEL_TABLES
  {
  }

  /** The kernel's tables cover the first sixteen mebibytes. */
  lemma PrivateAddress(v: nat)
    ensures PdeIndex(v) >= KERNEL_TABLES <==> v >= 0x100_0000
  {
  }

  /** The stack page of an ELF task reads as zeros and may be written. */
  lemma {:induction false} ElfStackReads(mem: Memory, d: nat, image: Bytes, segments: seq<Segment>, pages: seq<nat>, o: nat)
    requires AllInFile(segments, image) && Loaded(mem, d, PlanJobs(image, segments) + [StackJob()], pages) && o < PAGE
    ensures Shows(mem, d, STACK_PAGE + o, 0, true)
  {
    hide PlanJobs, Loaded, PdeIndex, Shows;
    var jobs := PlanJobs(image, segments) + [StackJob()];
    StackPlace();
    JobReads(mem, d, jobs, pages, |jobs| - 1, o);
  }

  lemma StackPlace()
    ensures PdeIndex(STACK_PAGE) >= KERNEL_TABLES && STACK_PAGE % PAGE == 0
  {
  }

  /** A page of a non-empty segment that nothing hides may be written if and only if the segment
      says so. */
  lemma {:induction false} ElfPageProtected(mem: Memory, d: nat, image: Bytes, plan: Plan, pages: seq<nat>, i: nat, p: nat, o: nat)
    requires GoodPlan(plan, |image|) && AllInFile(plan.segments, image)
    requires Loaded(mem, d, PlanJobs(image, plan.segments) + [StackJob()], pages)
    requires i < |plan.segments| && plan.segments[i].memSize > 0 && p < PagesFor(plan.segments[i]) && o < PAGE
    requires p > 0 || !Hidden(plan.segments, i)
    ensures var s := plan.segments[i];
            InFile(s, image) && Shows(mem, d, s.vaddr + p * PAGE + o, FileByte(image, s, p, o), s.writable)
  {
    hide PagesFor, PlanJobs, PageBytes, StackJob, Loaded, ReadByte, Topmost, Hidden, Fits, Translate;
    var segments := plan.segments;
    assert Fits(segments[i], |image|) && InFile(segments[i], image);
    NotHiddenIsTopmost(segments, |image|, i, p);
    PageInWindow(segments[i], p, |image|);
    TopmostReads(mem, d, image, segments, pages, i, p, o);
    PageByte(image, segments[i], p, o);
  }

  /** Nothing is mapped but the pages of the segments and the stack. */
  lemma {:induction false} ElfNothingElse(mem: Memory, d: nat, image: Bytes, segments: seq<Segment>, pages: seq<nat>, v: nat)
    requires AllInFile(segments, image) && Loaded(mem, d, PlanJobs(image, segments) + [StackJob()], pages)
    requires v >= 0x100_0000 && v / PAGE != STACK_PAGE / PAGE
    requires forall i: nat, p: nat | i < |segments| && p < PagesFor(segments[i]) :: PageAddress(segments, i, p) / PAGE != v / PAGE
    ensures Translate(mem, d, v) == None
  {
    hide PagesFor, PlanJobs, Translate, Lookup, PdeIndex, PageBytes;
    var jobs := PlanJobs(image, segments) + [StackJob()];
    PrivateAddress(v);
    forall k | 0 <= k < |jobs|
      ensures jobs[k].vaddr / PAGE != v / PAGE
    {
      if k < TotalPages(segments) {
        var i, p := PlanJobWhere(image, segments, k);
        PlanJobAt(image, segments, i, p);
        assert jobs[k].vaddr == PageAddress(segments, i, p);
      }
    }
    LookupNone(jobs, pages, v);
  }

  /** Byte `k` of a non-empty segment, in the pages nothing hides: the file's byte, or zero
      behind the file's bytes. */
  lemma {:induction false} ElfByteReads(mem: Memory, d: nat, image: Bytes, plan: Plan, pages: seq<nat>, i: nat, k: nat)
    requires GoodPlan(plan, |image|) && AllInFile(plan.segments, image)
    requires Loaded(mem, d, PlanJobs(image, plan.segments) + [StackJob()], pages)
    requires i < |plan.segments| && k < plan.segments[i].memSize && (k >= PAGE || !Hidden(plan.segments, i))
    ensures var s := plan.segments[i];
            InFile(s, image) && Shows(mem, d, s.vaddr + k, if k < s.fileSize then image[s.offset + k] else 0, s.writable)
  {
    hide PlanJobs, Loaded, Hidden, Shows, GoodPlan, StackJob;
    var s, p, o := plan.segments[i], k / PAGE, k % PAGE;
    assert k == p * PAGE + o;
    OnSomePage(s, k);
    assert InFile(s, image);
    ElfPageProtected(mem, d, image, plan, pages, i, p, o);
  }

  lemma OnSomePage(s: Segment, k: nat)
    requires k < s.memSize
    ensures k / PAGE < PagesFor(s)
  {
  }
}
