/** Validation and planning of an ELF32/i386 executable: the file header and the program
    header table of the System V ABI, restricted to what the loader supports. */
module Elf {
  import opened Codec

  const EHDR_SIZE: nat := 52
  const PHDR_SIZE: nat := 32
  const MAX_SEGMENTS: nat := 4
  const MAX_PAGES: nat := 8
  const PAGE: nat := 4096
  const BASE: nat := 0x0100_0000
  const WINDOW_END: nat := BASE + MAX_PAGES * PAGE
  const STACK_PAGE: nat := BASE + MAX_PAGES * PAGE

  datatype Error =
    | ImageTooSmallForHeader | BadMagic | UnsupportedClass | UnsupportedEndianness | UnsupportedVersion
    | UnsupportedType | UnsupportedMachine | ProgramHeaderTableOutOfBounds | TooManySegments | NoLoadSegments
    | SegmentOffsetOutOfBounds | SegmentSizeInvalid | SegmentNotPageAligned | SegmentOutsideAllowedRegion
    | SegmentOverlap | TooManyPages | EntryPointNotInAnyExecutableSegment

  datatype Segment = Segment(vaddr: nat, offset: nat, fileSize: nat, memSize: nat, writable: bool, executable: bool)

  datatype Plan = Plan(entry: nat, segments: seq<Segment>)

  datatype Outcome = Rejected(error: Error) | Accepted(plan: Plan)

  // ---- reading the image ----

  function U16(image: Bytes, at: nat): nat
    requires at + 2 <= |image|
  {
    var b0: nat, b1: nat := image[at], image[at + 1];
    b0 + 256 * b1
  }

  function U32At(image: Bytes, at: nat): nat
    requires at + 4 <= |image|
  {
    var b0: nat, b1: nat, b2: nat, b3: nat := image[at], image[at + 1], image[at + 2], image[at + 3];
    b0 + 0x100 * b1 + 0x1_0000 * b2 + 0x100_0000 * b3
  }

  predicate HeaderOk(image: Bytes)
  {
    |image| >= EHDR_SIZE && image[0] == 0x7F && image[1] == 0x45 && image[2] == 0x4C && image[3] == 0x46 &&
    image[4] == 1 && image[5] == 1 && image[6] == 1 && U16(image, 16) == 2 && U16(image, 18) == 3 &&
    1 <= U16(image, 44) <= MAX_SEGMENTS && U16(image, 42) == PHDR_SIZE &&
    U32At(image, 28) + U16(image, 44) * PHDR_SIZE <= |image|
  }

  /** Where program header `i` starts. */
  function HeaderAt(image: Bytes, i: nat): nat
    requires |image| >= EHDR_SIZE
  {
    U32At(image, 28) + i * PHDR_SIZE
  }

  predicate IsLoad(image: Bytes, at: nat)
    requires at + PHDR_SIZE <= |image|
  {
    U32At(image, at) == 1
  }

  function SegmentAt(image: Bytes, at: nat): Segment
    requires at + PHDR_SIZE <= |image|
  {
    var flags := U32At(image, at + 24);
    Segment(U32At(image, at + 8), U32At(image, at + 4), U32At(image, at + 16), U32At(image, at + 20),
            flags / 2 % 2 == 1, flags % 2 == 1)
  }

  /** The loadable segments among the first `n` program headers, in file order. */
  function Loads(image: Bytes, n: nat): seq<Segment>
    requires |image| >= EHDR_SIZE && HeaderAt(image, n) <= |image|
  {
    if n == 0 then []
    else
      var before := Loads(image, n - 1);
      var at := HeaderAt(image, n - 1);
      if IsLoad(image, at) then before + [SegmentAt(image, at)] else before
  }

  // ---- what is accepted ----

  function RoundUp(n: nat): nat
  {
    (n + PAGE - 1) / PAGE * PAGE
  }

  /** As many pages as hold the segment, and one for an empty segment. */
  function PagesFor(s: Segment): (n: nat)
    ensures n > 0 && s.memSize <= n * PAGE && (n == 1 || (n - 1) * PAGE < s.memSize)
  {
    var n := (s.memSize + PAGE - 1) / PAGE;
    if n == 0 then 1 else n
  }

  /** A segment by itself: inside the file, page-aligned, inside the window. */
  predicate Fits(s: Segment, imageSize: nat)
  {
    s.fileSize <= s.memSize && s.offset + s.fileSize <= imageSize && s.vaddr % PAGE == 0 &&
    BASE <= s.vaddr && s.vaddr + s.memSize <= WINDOW_END
  }

  /** The page ranges of two segments do not meet. */
  predicate Disjoint(a: Segment, b: Segment)
  {
    RoundUp(a.vaddr + a.memSize) <= b.vaddr || RoundUp(b.vaddr + b.memSize) <= a.vaddr
  }

  /** Nothing but the order of the two byte ranges decides: one ends before the other begins. */
  lemma DisjointMeans(a: Segment, b: Segment)
    requires a.vaddr % PAGE == 0 && b.vaddr % PAGE == 0
    ensures Disjoint(a, b) <==> a.vaddr + a.memSize <= b.vaddr || b.vaddr + b.memSize <= a.vaddr
  {
    RoundUpLeast(a.vaddr + a.memSize, b.vaddr);
    RoundUpLeast(b.vaddr + b.memSize, a.vaddr);
  }

  lemma RoundUpLeast(n: nat, w: nat)
    requires w % PAGE == 0
    ensures RoundUp(n) <= w <==> n <= w
  {
    var k := w / PAGE;
    assert w == k * PAGE;
  }

  function TotalPages(segments: seq<Segment>): nat
  {
    if segments == [] then 0 else TotalPages(segments[..|segments| - 1]) + PagesFor(segments[|segments| - 1])
  }

  ghost predicate AllFit(segments: seq<Segment>, imageSize: nat)
  {
    (forall i | 0 <= i < |segments| :: Fits(segments[i], imageSize)) &&
    (forall i, j | 0 <= i < j < |segments| :: Disjoint(segments[i], segments[j])) &&
    TotalPages(segments) <= MAX_PAGES
  }

  ghost predicate EntryInside(entry: nat, segments: seq<Segment>)
  {
    exists i :: 0 <= i < |segments| && segments[i].executable &&
                segments[i].vaddr <= entry < segments[i].vaddr + segments[i].memSize
  }

  ghost predicate GoodPlan(plan: Plan, imageSize: nat)
  {
    0 < |plan.segments| <= MAX_SEGMENTS && AllFit(plan.segments, imageSize) && EntryInside(plan.entry, plan.segments)
  }

  lemma {:induction false} LoadsShort(image: Bytes, n: nat)
    requires |image| >= EHDR_SIZE && HeaderAt(image, n) <= |image|
    ensures |Loads(image, n)| <= n
  {
    if n > 0 {
      LoadsShort(image, n - 1);
    }
  }

  lemma {:induction false} TotalGrows(segments: seq<Segment>, k: nat)
    requires k <= |segments|
    ensures TotalPages(segments[..k]) <= TotalPages(segments)
    decreases |segments| - k
  {
    if k < |segments| {
      assert segments[..k + 1][..k] == segments[..k];
      TotalGrows(segments, k + 1);
    } else {
      assert segments[..k] == segments;
    }
  }

  /** What fails on a prefix fails on the whole. */
  lemma {:induction false} PrefixFits(segments: seq<Segment>, k: nat, imageSize: nat)
    requires k <= |segments| && AllFit(segments, imageSize)
    ensures AllFit(segments[..k], imageSize)
  {
    TotalGrows(segments, k);
  }

  lemma {:induction false} LoadsPrefix(image: Bytes, k: nat, n: nat)
    requires |image| >= EHDR_SIZE && k <= n && HeaderAt(image, n) <= |image|
    ensures |Loads(image, k)| <= |Loads(image, n)| && Loads(image, k) == Loads(image, n)[..|Loads(image, k)|]
    decreases n - k
  {
    hide U32At, SegmentAt;
    if k < n {
      LoadsPrefix(image, k, n - 1);
    }
  }

  // ---- the validator ----

  /** The checks on one more segment after `segments` were accepted. */
  method CheckSegment(s: Segment, segments: seq<Segment>, total: nat, imageSize: nat) returns (error: Option<Error>)
    requires AllFit(segments, imageSize) && total == TotalPages(segments) && |segments| < MAX_SEGMENTS
    ensures error.None? <==> AllFit(segments + [s], imageSize)
  {
    ghost var more := segments + [s];
    assert more[|segments|] == s && more[..|segments|] == segments;
    hide TotalPages, RoundUp, PagesFor;
    assert TotalPages(more) == total + PagesFor(s) by { TotalSnoc(segments, s); }
    if s.memSize < s.fileSize {
      return Some(SegmentSizeInvalid);
    }
    if s.offset + s.fileSize > imageSize {
      return Some(SegmentOffsetOutOfBounds);
    }
    if s.vaddr % PAGE != 0 {
      return Some(SegmentNotPageAligned);
    }
    if s.vaddr < BASE || s.vaddr + s.memSize > WINDOW_END {
      return Some(SegmentOutsideAllowedRegion);
    }
    var j := 0;
    while j < |segments|
      invariant 0 <= j <= |segments|
      invariant forall i | 0 <= i < j :: Disjoint(segments[i], s)
    {
      if s.vaddr < RoundUp(segments[j].vaddr + segments[j].memSize) && segments[j].vaddr < RoundUp(s.vaddr + s.memSize) {
        assert more[j] == segments[j] && !Disjoint(more[j], more[|segments|]);
        return Some(SegmentOverlap);
      }
      j := j + 1;
    }
    if total + PagesFor(s) > MAX_PAGES {
      return Some(TooManyPages);
    }
    error := None;
  }

  lemma {:induction false} TotalSnoc(segments: seq<Segment>, s: Segment)
    ensures TotalPages(segments + [s]) == TotalPages(segments) + PagesFor(s)
  {
    assert (segments + [s])[..|segments|] == segments;
  }

  method CheckHeader(image: Bytes) returns (error: Option<Error>)
    ensures error.None? <==> HeaderOk(image)
  {
    if |image| < EHDR_SIZE {
      return Some(ImageTooSmallForHeader);
    }
    if image[0] != 0x7F || image[1] != 0x45 || image[2] != 0x4C || image[3] != 0x46 {
      return Some(BadMagic);
    }
    if image[4] != 1 {
      return Some(UnsupportedClass);
    }
    if image[5] != 1 {
      return Some(UnsupportedEndianness);
    }
    if image[6] != 1 {
      return Some(UnsupportedVersion);
    }
    if U16(image, 16) != 2 {
      return Some(UnsupportedType);
    }
    if U16(image, 18) != 3 {
      return Some(UnsupportedMachine);
    }
    var phoff, phentsize, phnum := U32At(image, 28), U16(image, 42), U16(image, 44);
    if phnum == 0 {
      return Some(NoLoadSegments);
    }
    if phnum > MAX_SEGMENTS {
      return Some(TooManySegments);
    }
    if phentsize != PHDR_SIZE {
      return Some(ProgramHeaderTableOutOfBounds);
    }
    if phoff + phnum * phentsize > |image| {
      return Some(ProgramHeaderTableOutOfBounds);
    }
    error := None;
  }

  /** Accepts exactly the images whose header is supported and whose loadable segments make a
      good plan, and never reads outside the image. */
  method ValidateAndPlan(image: Bytes) returns (r: Outcome)
    ensures r.Accepted? <==> HeaderOk(image) && GoodPlan(Plan(U32At(image, 24), Loads(image, U16(image, 44))), |image|)
    ensures r.Accepted? ==> r.plan == Plan(U32At(image, 24), Loads(image, U16(image, 44)))
  {
    var bad := CheckHeader(image);
    if bad.Some? {
      return Rejected(bad.value);
    }
    var entry, phnum := U32At(image, 24), U16(image, 44);
    hide U32At, U16, IsLoad, SegmentAt, AllFit, PagesFor;
    ghost var all := Loads(image, phnum);
    var segments, total, i := [], 0, 0;
    assert AllFit([], |image|) by { NothingFits(|image|); }
    while i < phnum
      invariant 0 <= i <= phnum
      invariant segments == Loads(image, i) && |segments| <= i && total == TotalPages(segments)
      invariant AllFit(segments, |image|)
    {
      var at := HeaderAt(image, i);
      if IsLoad(image, at) {
        var s := SegmentAt(image, at);
        bad := CheckSegment(s, segments, total, |image|);
        TotalSnoc(segments, s);
        assert Loads(image, i + 1) == segments + [s];
        if bad.Some? {
          NotAll(image, i + 1, phnum);
          return Rejected(bad.value);
        }
        segments, total := segments + [s], total + PagesFor(s);
      }
      i := i + 1;
    }
    if |segments| == 0 {
      return Rejected(NoLoadSegments);
    }
    var valid := FindEntry(entry, segments);
    if !valid {
      return Rejected(EntryPointNotInAnyExecutableSegment);
    }
    r := Accepted(Plan(entry, segments));
  }

  lemma NothingFits(imageSize: nat)
    ensures AllFit([], imageSize) && TotalPages([]) == 0
  {
  }

  lemma NotAll(image: Bytes, k: nat, n: nat)
    requires |image| >= EHDR_SIZE && k <= n && HeaderAt(image, n) <= |image| && HeaderAt(image, k) <= |image|
    requires !AllFit(Loads(image, k), |image|)
    ensures !AllFit(Loads(image, n), |image|)
  {
    hide U32At, AllFit, Loads;
    LoadsPrefix(image, k, n);
    if AllFit(Loads(image, n), |image|) {
      PrefixFits(Loads(image, n), |Loads(image, k)|, |image|);
    }
  }

  method FindEntry(entry: nat, segments: seq<Segment>) returns (valid: bool)
    ensures valid <==> EntryInside(entry, segments)
  {
    var i := 0;
    while i < |segments|
      invariant 0 <= i <= |segments|
      invariant forall j | 0 <= j < i ::
        !(segments[j].executable && segments[j].vaddr <= entry < segments[j].vaddr + segments[j].memSize)
    {
      if segments[i].executable && segments[i].vaddr <= entry && entry < segments[i].vaddr + segments[i].memSize {
        return true;
      }
      i := i + 1;
    }
    valid := false;
  }
}
