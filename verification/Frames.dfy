/** Physical frames.  Frame `n` stands for the 4096 bytes from address 4096 * n; frame 0 is
    always reserved, so 0 also means "none". */
module Frames {

  const PAGE_COUNT: nat := 4096
  const MEBIBYTE: nat := 0x10_0000
  const PAGE_SIZE: nat := 4096

  /** Frame `f` holds a byte of the first mebibyte or of the kernel, which ends at `kernelEnd`. */
  predicate InUseAtBoot(kernelEnd: nat, f: nat)
  {
    f * PAGE_SIZE < MEBIBYTE || f * PAGE_SIZE < kernelEnd
  }

  /** How many frames the kernel's image takes, and at least the first mebibyte: exactly the
      frames below are in use at boot. */
  function Reserved(kernelEnd: nat): (r: nat)
    ensures 256 <= r <= PAGE_COUNT
    ensures forall f: nat | f < PAGE_COUNT :: f < r <==> InUseAtBoot(kernelEnd, f)
  {
    var bytes := if kernelEnd > MEBIBYTE then kernelEnd else MEBIBYTE;
    var pages := (bytes + PAGE_SIZE - 1) / PAGE_SIZE;
    if pages > PAGE_COUNT then PAGE_COUNT else pages
  }

  /** The frames in use above the reserved ones. */
  ghost function TakenIn(bits: seq<bool>, reserved: nat): set<nat>
  {
    set f: nat | reserved <= f < |bits| && bits[f]
  }

  lemma TakenGrows(bits: seq<bool>, reserved: nat, f: nat)
    requires reserved <= f < |bits| && !bits[f]
    ensures TakenIn(bits[f := true], reserved) == TakenIn(bits, reserved) + {f} && f !in TakenIn(bits, reserved)
  {
  }

  lemma TakenShrinks(bits: seq<bool>, reserved: nat, f: nat)
    requires reserved <= f < |bits|
    ensures TakenIn(bits[f := false], reserved) == TakenIn(bits, reserved) - {f}
  {
  }

  ghost function Range(lo: nat, hi: nat): set<nat>
  {
    if lo >= hi then {} else Range(lo, hi - 1) + {hi - 1}
  }

  lemma {:induction false} RangeSize(lo: nat, hi: nat)
    requires lo <= hi
    ensures |Range(lo, hi)| == hi - lo && forall f: nat :: f in Range(lo, hi) <==> lo <= f < hi
    decreases hi - lo
  {
    if lo < hi {
      RangeSize(lo, hi - 1);
    }
  }

  lemma SubsetSize<T>(a: set<T>, b: set<T>)
    requires a <= b
    ensures |a| <= |b| && (a != b ==> |a| < |b|)
  {
    assert |b - a| == |b| - |a|;
    assert a != b ==> b - a != {};
  }

  lemma TakenFull(bits: seq<bool>, reserved: nat)
    requires reserved <= |bits| && forall f | 0 <= f < |bits| :: bits[f]
    ensures reserved + |TakenIn(bits, reserved)| == |bits|
  {
    RangeSize(reserved, |bits|);
    assert TakenIn(bits, reserved) == Range(reserved, |bits|);
  }

  lemma TakenRoom(bits: seq<bool>, reserved: nat, f: nat)
    requires reserved <= f < |bits| && !bits[f]
    ensures reserved + |TakenIn(bits, reserved)| < |bits|
  {
    var all := Range(reserved, |bits|);
    RangeSize(reserved, |bits|);
    assert f in all && f !in TakenIn(bits, reserved);
    SubsetSize(TakenIn(bits, reserved), all);
  }

  /** The set of taken frames determines the bitmap. */
  lemma BitmapDetermined(a: seq<bool>, b: seq<bool>, reserved: nat)
    requires |a| == |b| && TakenIn(a, reserved) == TakenIn(b, reserved)
    requires forall f | 0 <= f < reserved && f < |a| :: a[f] == b[f]
    ensures a == b
  {
    forall f: nat | f < |a|
      ensures a[f] == b[f]
    {
      if f >= reserved {
        assert f in TakenIn(a, reserved) <==> a[f];
        assert f in TakenIn(b, reserved) <==> b[f];
      }
    }
  }

  class FrameAllocator {
    const bitmap: array<bool>
    const reservedPages: nat
    ghost const kernelEnd: nat
    var allocatedPages: nat

    ghost predicate Valid()
      reads this, bitmap
    {
      bitmap.Length == PAGE_COUNT && reservedPages == Reserved(kernelEnd) && 256 <= reservedPages <= PAGE_COUNT &&
      (forall f | 0 <= f < reservedPages :: bitmap[f]) &&
      allocatedPages == reservedPages + |TakenIn(bitmap[..], reservedPages)|
    }

    /** Each taken frame once. */
    ghost function Taken(): multiset<nat>
      reads this, bitmap
    {
      multiset(TakenIn(bitmap[..], reservedPages))
    }

    constructor (kernelEnd: nat)
      ensures Valid() && fresh(bitmap) && Taken() == multiset{} && this.kernelEnd == kernelEnd
      ensures forall f: nat | f < PAGE_COUNT :: bitmap[f] <==> InUseAtBoot(kernelEnd, f)
    {
      bitmap := new bool[PAGE_COUNT];
      this.kernelEnd := kernelEnd;
      reservedPages := Reserved(kernelEnd);
      new;
      hide Reserved, InUseAtBoot;
      var i := 0;
      while i < PAGE_COUNT
        invariant 0 <= i <= PAGE_COUNT
        invariant forall f | 0 <= f < i :: !bitmap[f]
      {
        bitmap[i] := false;
        i := i + 1;
      }
      var page := 0;
      while page < reservedPages
        invariant 0 <= page <= reservedPages
        invariant forall f | 0 <= f < PAGE_COUNT :: bitmap[f] <==> f < page
      {
        bitmap[page] := true;
        page := page + 1;
      }
      assert TakenIn(bitmap[..], reservedPages) == {};
      allocatedPages := reservedPages;
    }

    /** `memory_free_pages`. */
    function FreePages(): int
      reads this
    {
      PAGE_COUNT - allocatedPages
    }

    /** The lowest free frame, or 0 when all are in use. */
    method AllocPage() returns (frame: nat)
      requires Valid()
      modifies this, bitmap
      ensures Valid()
      ensures frame == 0 ==> bitmap[..] == old(bitmap[..]) && forall f | 0 <= f < PAGE_COUNT :: bitmap[f]
      ensures frame != 0 ==> reservedPages <= frame < PAGE_COUNT && !old(bitmap[..])[frame] &&
                             bitmap[..] == old(bitmap[..])[frame := true] &&
                             forall f | 0 <= f < frame :: bitmap[f]
      ensures frame != 0 ==> Taken() == old(Taken()) + multiset{frame} && old(Taken())[frame] == 0
      ensures frame != 0 ==> !InUseAtBoot(kernelEnd, frame)
      ensures frame == 0 ==> Taken() == old(Taken())
      ensures frame == 0 <==> old(FreePages()) == 0
      ensures allocatedPages == old(allocatedPages) + if frame == 0 then 0 else 1
    {
      hide Reserved, InUseAtBoot;
      ghost var was := bitmap[..];
      var page := 0;
      while page < PAGE_COUNT
        invariant 0 <= page <= PAGE_COUNT
        invariant forall f | 0 <= f < page :: bitmap[f]
        invariant bitmap[..] == was && allocatedPages == old(allocatedPages)
      {
        if !bitmap[page] {
          TakenGrows(was, reservedPages, page);
          TakenRoom(was, reservedPages, page);
          bitmap[page] := true;
          allocatedPages := allocatedPages + 1;
          assert bitmap[..] == was[page := true];
          return page;
        }
        page := page + 1;
      }
      TakenFull(was, reservedPages);
      frame := 0;
    }

    /** Frees a frame; frame 0, frames out of range, free ones and reserved ones are ignored. */
    method FreePage(frame: nat)
      requires Valid()
      modifies this, bitmap
      ensures Valid()
      ensures bitmap[..] == if reservedPages <= frame < PAGE_COUNT then old(bitmap[..])[frame := false] else old(bitmap[..])
      ensures Taken() == old(Taken()) - multiset{frame}
    {
      ghost var was := bitmap[..];
      if frame == 0 || frame >= PAGE_COUNT || !bitmap[frame] || frame < reservedPages {
        assert frame !in TakenIn(was, reservedPages);
        assert reservedPages <= frame < PAGE_COUNT ==> was == was[frame := false];
        return;
      }
      TakenShrinks(was, reservedPages, frame);
      assert frame in TakenIn(was, reservedPages);
      bitmap[frame] := false;
      assert bitmap[..] == was[frame := false];
      if allocatedPages > 0 {
        allocatedPages := allocatedPages - 1;
      }
    }

    lemma Bits()
      requires Valid()
      ensures bitmap.Length == PAGE_COUNT && Taken() == multiset(TakenIn(bitmap[..], reservedPages))
      ensures forall f | 0 <= f < reservedPages :: bitmap[..][f]
    {
    }

    /** Every frame is reserved, taken or free. */
    lemma FreeCount()
      requires Valid()
      ensures FreePages() == PAGE_COUNT - reservedPages - |Taken()| >= 0
    {
      RangeSize(reservedPages, PAGE_COUNT);
      SubsetSize(TakenIn(bitmap[..], reservedPages), Range(reservedPages, PAGE_COUNT));
    }

    /** No frame is taken twice, and frame 0 and the reserved ones never are. */
    lemma TakenOnce(f: nat)
      requires Valid()
      ensures Taken()[f] <= 1 && (f < reservedPages ==> Taken()[f] == 0)
    {
    }
  }
}
