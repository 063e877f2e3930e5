/** The file format the validator reads, written out as an encoder: ELF32 header and program
    headers, little-endian, fields in the order of the System V ABI.  Whatever plan is written
    this way is read back. */
module ElfFormat {
  import opened Codec
  import opened Elf

  const WORD: nat := 0x1_0000_0000

  function Le16(v: nat): (bs: Bytes)
    ensures |bs| == 2
  {
    [v % 256, v / 256 % 256]
  }

  function Le32(v: nat): (bs: Bytes)
    ensures |bs| == 4
  {
    [v % 256, v / 0x100 % 256, v / 0x1_0000 % 256, v / 0x100_0000 % 256]
  }

  lemma Le32Reads(image: Bytes, at: nat, v: nat)
    requires at + 4 <= |image| && v < WORD && image[at..at + 4] == Le32(v)
    ensures U32At(image, at) == v
  {
    var b := image[at..at + 4];
    assert image[at] == b[0] && image[at + 1] == b[1] && image[at + 2] == b[2] && image[at + 3] == b[3];
    var b0: nat, b1: nat, b2: nat, b3: nat := b[0], b[1], b[2], b[3];
    assert b0 == v % 256 && b1 == v / 0x100 % 256 && b2 == v / 0x1_0000 % 256 && b3 == v / 0x100_0000 % 256;
    Digits(v);
  }

  lemma Digits(v: nat)
    requires v < WORD
    ensures v == v % 256 + 0x100 * (v / 0x100 % 256) + 0x1_0000 * (v / 0x1_0000 % 256) + 0x100_0000 * (v / 0x100_0000 % 256)
  {
    var q := v / 0x100;
    var r := q / 0x100;
    assert v / 0x1_0000 == r && v / 0x100_0000 == r / 0x100;
    assert v == 0x100 * q + v % 256 && q == 0x100 * r + q % 256 && r == 0x100 * (r / 0x100) + r % 256;
  }

  lemma Le16Reads(image: Bytes, at: nat, v: nat)
    requires at + 2 <= |image| && v < 0x1_0000 && image[at..at + 2] == Le16(v)
    ensures U16(image, at) == v
  {
    var b := image[at..at + 2];
    assert image[at] == b[0] && image[at + 1] == b[1];
  }

  /** Identification: magic, 32-bit, little-endian, current version, padding. */
  function Ident(): (bs: Bytes)
    ensures |bs| == 16
  {
    [0x7F, 0x45, 0x4C, 0x46, 1, 1, 1, 0, 0, 0, 0, 0, 0, 0, 0, 0]
  }

  /** e_ident, e_type, e_machine, e_version, e_entry, e_phoff, e_shoff, e_flags, e_ehsize,
      e_phentsize, e_phnum, e_shentsize, e_shnum, e_shstrndx: an executable for the 80386 whose
      program headers follow directly. */
  function FileHeader(entry: nat, n: nat): (bs: Bytes)
    ensures |bs| == 52
  {
    Ident() + Le16(2) + Le16(3) + Le32(1) + Le32(entry) + Le32(52) + Le32(0) + Le32(0) +
    Le16(52) + Le16(32) + Le16(n) + Le16(0) + Le16(0) + Le16(0)
  }

  /** p_type, p_offset, p_vaddr, p_paddr, p_filesz, p_memsz, p_flags, p_align of a loadable
      segment; every segment may be read. */
  function ProgramHeader(s: Segment): (bs: Bytes)
    ensures |bs| == 32
  {
    Le32(1) + Le32(s.offset) + Le32(s.vaddr) + Le32(s.vaddr) + Le32(s.fileSize) + Le32(s.memSize) +
    Le32(4 + (if s.writable then 2 else 0) + (if s.executable then 1 else 0)) + Le32(PAGE)
  }

  function Headers(segments: seq<Segment>): (bs: Bytes)
    ensures |bs| == 32 * |segments|
  {
    if segments == [] then [] else Headers(segments[..|segments| - 1]) + ProgramHeader(segments[|segments| - 1])
  }

  /** A file with this plan; `rest` is what follows the headers. */
  function Image(plan: Plan, rest: Bytes): Bytes
  {
    FileHeader(plan.entry, |plan.segments|) + Headers(plan.segments) + rest
  }

  predicate Small(s: Segment)
  {
    s.vaddr < WORD && s.offset < WORD && s.fileSize < WORD && s.memSize < WORD
  }

  ghost predicate Writable(plan: Plan)
  {
    1 <= |plan.segments| <= MAX_SEGMENTS && plan.entry < WORD && forall i | 0 <= i < |plan.segments| :: Small(plan.segments[i])
  }

  lemma FileHeaderFields(entry: nat, n: nat)
    ensures var h := FileHeader(entry, n);
            h[..16] == Ident() && h[16..18] == Le16(2) && h[18..20] == Le16(3) && h[24..28] == Le32(entry) &&
            h[28..32] == Le32(52) && h[42..44] == Le16(32) && h[44..46] == Le16(n)
  {
    hide Le16, Le32, Ident;
  }

  lemma HeaderReads(image: Bytes, entry: nat, n: nat)
    requires |image| >= 52 + 32 * n && image[..52] == FileHeader(entry, n) && entry < WORD && 1 <= n <= MAX_SEGMENTS
    ensures HeaderOk(image) && U32At(image, 24) == entry && U16(image, 44) == n && U32At(image, 28) == 52
  {
    hide FileHeader, Le16, Le32, U16, U32At;
    FileHeaderFields(entry, n);
    var h := image[..52];
    assert image[16..18] == h[16..18] && image[18..20] == h[18..20] && image[24..28] == h[24..28];
    assert image[28..32] == h[28..32] && image[42..44] == h[42..44] && image[44..46] == h[44..46];
    assert forall i | 0 <= i < 16 :: image[i] == h[..16][i];
    Le16Reads(image, 16, 2);
    Le16Reads(image, 18, 3);
    Le32Reads(image, 24, entry);
    Le32Reads(image, 28, 52);
    Le16Reads(image, 42, 32);
    Le16Reads(image, 44, n);
  }

  lemma ProgramHeaderFields(s: Segment)
    ensures var h := ProgramHeader(s);
            h[..4] == Le32(1) && h[4..8] == Le32(s.offset) && h[8..12] == Le32(s.vaddr) && h[16..20] == Le32(s.fileSize) &&
            h[20..24] == Le32(s.memSize) &&
            h[24..28] == Le32(4 + (if s.writable then 2 else 0) + (if s.executable then 1 else 0))
  {
    hide Le32;
  }

  lemma Slice(image: Bytes, lo: nat, hi: nat, a: nat, b: nat)
    requires lo <= hi <= |image| && a <= b <= hi - lo
    ensures image[lo..hi][a..b] == image[lo + a..lo + b]
  {
    var x, y := image[lo..hi][a..b], image[lo + a..lo + b];
    forall i | 0 <= i < b - a
      ensures x[i] == y[i]
    {
      assert x[i] == image[lo..hi][a + i] == image[lo + (a + i)];
    }
  }

  lemma Part(image: Bytes, at: nat, k: nat)
    requires at + 32 <= |image| && k + 4 <= 32
    ensures image[at..at + 32][k..k + 4] == image[at + k..at + k + 4]
  {
    Slice(image, at, at + 32, k, k + 4);
  }

  lemma SegmentReads(image: Bytes, at: nat, s: Segment)
    requires at + 32 <= |image| && image[at..at + 32] == ProgramHeader(s) && Small(s)
    ensures IsLoad(image, at) && SegmentAt(image, at) == s
  {
    hide ProgramHeader, Le32, U32At;
    ProgramHeaderFields(s);
    var h, flags := image[at..at + 32], 4 + (if s.writable then 2 else 0) + (if s.executable then 1 else 0);
    Part(image, at, 0);
    Part(image, at, 4);
    Part(image, at, 8);
    Part(image, at, 16);
    Part(image, at, 20);
    Part(image, at, 24);
    Le32Reads(image, at, 1);
    Le32Reads(image, at + 4, s.offset);
    Le32Reads(image, at + 8, s.vaddr);
    Le32Reads(image, at + 16, s.fileSize);
    Le32Reads(image, at + 20, s.memSize);
    Le32Reads(image, at + 24, flags);
  }

  lemma {:induction false} HeadersAt(segments: seq<Segment>, i: nat)
    requires i < |segments|
    ensures Headers(segments)[32 * i..32 * i + 32] == ProgramHeader(segments[i])
  {
    hide ProgramHeader;
    var n := |segments| - 1;
    if i < n {
      HeadersAt(segments[..n], i);
      assert Headers(segments)[32 * i..32 * i + 32] == Headers(segments[..n])[32 * i..32 * i + 32];
    }
  }

  lemma {:induction false} LoadsReads(image: Bytes, plan: Plan, k: nat)
    requires |image| >= 52 + 32 * |plan.segments| && U32At(image, 28) == 52 && Writable(plan) && k <= |plan.segments|
    requires image[52..52 + 32 * |plan.segments|] == Headers(plan.segments)
    ensures Loads(image, k) == plan.segments[..k]
  {
    hide U32At, IsLoad, SegmentAt, Headers, ProgramHeader;
    if k > 0 {
      LoadsReads(image, plan, k - 1);
      var i, at := k - 1, 52 + 32 * (k - 1);
      HeadersAt(plan.segments, i);
      Slice(image, 52, 52 + 32 * |plan.segments|, 32 * i, 32 * i + 32);
      assert Small(plan.segments[i]);
      SegmentReads(image, at, plan.segments[i]);
      assert plan.segments[..k] == plan.segments[..i] + [plan.segments[i]];
    }
  }

  /** Whatever plan is written in the format, the validator reads that plan. */
  lemma PlanReadsBack(plan: Plan, rest: Bytes)
    requires Writable(plan)
    ensures var image := Image(plan, rest);
            HeaderOk(image) && Plan(U32At(image, 24), Loads(image, U16(image, 44))) == plan
  {
    hide FileHeader, Headers, U16, U32At, Loads, HeaderOk;
    var image, n := Image(plan, rest), |plan.segments|;
    assert image[..52] == FileHeader(plan.entry, n);
    assert image[52..52 + 32 * n] == Headers(plan.segments);
    HeaderReads(image, plan.entry, n);
    LoadsReads(image, plan, n);
    assert plan.segments[..n] == plan.segments;
  }

  /** So such a file is accepted if and only if its plan is good, and for that plan. */
  method ValidateWritten(plan: Plan, rest: Bytes) returns (r: Outcome)
    requires Writable(plan)
    ensures r.Accepted? <==> GoodPlan(plan, |Image(plan, rest)|)
    ensures r.Accepted? ==> r.plan == plan
  {
    hide Image, HeaderOk, GoodPlan, Writable;
    PlanReadsBack(plan, rest);
    r := ValidateAndPlan(Image(plan, rest));
  }

  /** A file that does not start with the identification bytes, or is no 80386 executable, is
      refused, whatever else it holds. */
  lemma ForeignRefused(image: Bytes)
    requires HeaderOk(image)
    ensures |image| >= 52 && image[..7] == Ident()[..7] && image[16..20] == Le16(2) + Le16(3)
  {
    assert image[..7] == [image[0], image[1], image[2], image[3], image[4], image[5], image[6]];
    assert image[16..20] == [image[16], image[17], image[18], image[19]];
  }
}
