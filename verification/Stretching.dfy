/** Live ranges and loops.  A linear range is kept by the colouring; what a loop needs is the
    range stretched to the back jumps it meets.  The allocation is right when nothing writes
    a value's home in the part the colouring does not know of. */
module Stretching {
  import opened IR
  import opened RegAlloc
  import opened Codegen
  import opened CodegenProof

  /** Jump `i` leads from behind the window back into it. */
  ghost predicate Pulls(code: seq<Inst>, r: Range, i: nat)
  {
    i < |code| && exists t: nat :: JumpsTo(code, i, t) && r.start < t <= r.end < i
  }

  ghost predicate Pulled(code: seq<Inst>, r: Range)
  {
    exists i: nat :: Pulls(code, r, i)
  }

  /** The range with every loop it meets from outside. */
  ghost function Stretch(code: seq<Inst>, r: Range): (s: Range)
    ensures s.start == r.start && r.end <= s.end && !Pulled(code, s)
    ensures s.end == r.end || (s.end < |code| && IsJump(code[s.end]))
    decreases |code| - r.end
  {
    if Pulled(code, r) then
      var i: nat :| Pulls(code, r, i);
      Stretch(code, Range(r.start, i))
    else
      r
  }

  /** Stretching adds nothing a loop does not ask for. */
  lemma {:induction false} StretchIsLeast(code: seq<Inst>, r: Range, wide: Range)
    requires wide.start == r.start && r.end <= wide.end && !Pulled(code, wide)
    ensures Stretch(code, r).end <= wide.end
    decreases |code| - r.end
  {
    if Pulled(code, r) {
      var i: nat :| Pulls(code, r, i) && Stretch(code, r) == Stretch(code, Range(r.start, i));
      assert !Pulls(code, wide, i);
      StretchIsLeast(code, Range(r.start, i), wide);
    }
  }

  ghost function Stretched(code: seq<Inst>, ranges: map<ValueId, Range>): map<ValueId, Range>
  {
    map v | v in ranges :: Stretch(code, ranges[v])
  }

  /** No forward jump enters the middle of a window. */
  ghost predicate NotEntered(code: seq<Inst>, live: map<ValueId, Range>)
  {
    forall i: nat, t: nat, v | i < |code| && JumpsTo(code, i, t) && i < t && v in live &&
      live[v].start < t <= live[v].end ::
      live[v].start <= i
  }

  lemma StretchedIsClosed(code: seq<Inst>, ranges: map<ValueId, Range>)
    ensures NotEntered(code, Stretched(code, ranges)) <==> Closed(code, Stretched(code, ranges))
  {
    hide JumpsTo;
    var live := Stretched(code, ranges);
    if NotEntered(code, live) {
      forall i: nat, t: nat, v | i < |code| && JumpsTo(code, i, t) && v in live && live[v].start < t <= live[v].end && t <= i
        ensures i <= live[v].end
      {
        assert !Pulled(code, live[v]);
        assert !Pulls(code, live[v], i);
      }
    }
  }

  lemma StretchedWindows(code: seq<Inst>, ranges: map<ValueId, Range>)
    requires RangesOf(code, |code|, ranges)
    ensures Windows(code, Stretched(code, ranges))
  {
    hide Touched, Stretch, Pulled, RangesOf, IsJump, Spans;
    forall i, v | 0 <= i < |code| && v in Touched(code[i])
      ensures v in ranges && ranges[v].start <= i <= ranges[v].end
    {
      MentionInRange(code, ranges, i, v);
    }
    forall v | v in ranges
      ensures ranges[v].start <= ranges[v].end < |code|
      ensures v in Touched(code[ranges[v].start]) && v in Touched(code[ranges[v].end])
    {
      RangeEnds(code, ranges, v);
    }
  }

  lemma MentionInRange(code: seq<Inst>, ranges: map<ValueId, Range>, i: nat, v: ValueId)
    requires RangesOf(code, |code|, ranges) && i < |code| && v in Touched(code[i])
    ensures v in ranges && ranges[v].start <= i <= ranges[v].end
  {
    assert Spans(code, |code|, v, ranges[v]);
  }

  lemma RangeEnds(code: seq<Inst>, ranges: map<ValueId, Range>, v: ValueId)
    requires RangesOf(code, |code|, ranges) && v in ranges
    ensures ranges[v].start <= ranges[v].end < |code|
    ensures v in Touched(code[ranges[v].start]) && v in Touched(code[ranges[v].end])
  {
    assert Spans(code, |code|, v, ranges[v]);
  }

  /** Interfering values have different homes. */
  lemma LiveApart(code: seq<Inst>, ranges: map<ValueId, Range>, g: Graph, al: Allocation, v: ValueId, w: ValueId)
    requires Colours(code, ranges, g, al) && Interferes(ranges, v, w)
    ensures Housed(al, v) && Housed(al, w) && Home(al, v) != Home(al, w)
  {
    assert w in g[v];
    RangeHoused(code, ranges, al, v);
    RangeHoused(code, ranges, al, w);
  }

  lemma RangeHoused(code: seq<Inst>, ranges: map<ValueId, Range>, al: Allocation, v: ValueId)
    requires RangesOf(code, |code|, ranges) && v in ranges
    requires forall i | 0 <= i < |code| :: Supported(al, code[i])
    ensures Housed(al, v)
  {
    assert Spans(code, |code|, v, ranges[v]);
    assert Supported(al, code[ranges[v].start]);
  }

  /** What the analyses and the allocator establish about `code`. */
  ghost predicate Colours(code: seq<Inst>, ranges: map<ValueId, Range>, g: Graph, al: Allocation)
  {
    RangesOf(code, |code|, ranges) && GraphOf(ranges, g) && ProperlyColoured(g, al.registers) && SlotsOk(al) &&
    (forall i | 0 <= i < |code| :: Supported(al, code[i]))
  }

  /** The allocation holds every value over the loops it is used in. */
  ghost predicate Kept(code: seq<Inst>, ranges: map<ValueId, Range>, al: Allocation)
  {
    var live := Stretched(code, ranges);
    (ForwardOnly(code) || NotEntered(code, live)) && Undisturbed(code, live, al)
  }

  /** Colouring, with every value held over its loops, is all that emission needs. */
  lemma KeptIsCompilable(code: seq<Inst>, ranges: map<ValueId, Range>, g: Graph, al: Allocation, paramCount: nat)
    requires Colours(code, ranges, g, al) && ParamsFirst(code, paramCount) && DefinedFirst(code, ranges)
    requires Kept(code, ranges, al)
    ensures Compilable(code, Stretched(code, ranges), al, paramCount)
  {
    hide ForwardOnly, Undisturbed, NotEntered, Closed, ParamsFirst, Writes, Reads, Touched, GraphOf, SlotsOk, Windows,
         RangesOf, Supported;
    StretchedIsClosed(code, ranges);
    StretchedWindows(code, ranges);
  }

  /** Past the end of its range and before the end of the loop, a value meets only values it
      interferes with anyway. */
  ghost predicate QuietGaps(code: seq<Inst>, ranges: map<ValueId, Range>)
  {
    forall p, d, v | 0 <= p < |code| && Writes(code[p], d) && v in ranges && v != d &&
      ranges[v].end <= p < Stretch(code, ranges[v]).end ::
      Interferes(ranges, v, d)
  }

  /** Inside a range the colouring keeps other values away. */
  lemma WriteInterferes(code: seq<Inst>, ranges: map<ValueId, Range>, p: nat, d: ValueId, v: ValueId)
    requires RangesOf(code, |code|, ranges) && p < |code| && Writes(code[p], d) && v in ranges && v != d
    requires ranges[v].start < p < ranges[v].end
    ensures Interferes(ranges, v, d)
  {
    WrittenIsTouched(code[p], d);
    assert Spans(code, |code|, d, ranges[d]);
  }

  lemma GapWrite(code: seq<Inst>, ranges: map<ValueId, Range>, g: Graph, al: Allocation, p: nat, d: ValueId, w: ValueId)
    requires Colours(code, ranges, g, al) && QuietGaps(code, ranges) && p < |code| && Writes(code[p], d)
    requires w in ranges && w != d && ranges[w].start < p < Stretch(code, ranges[w]).end
    ensures Apart(al, d, w)
  {
    hide Writes, Interferes, Colours, Stretch;
    ColoursFacts(code, ranges, g, al);
    if p < ranges[w].end {
      WriteInterferes(code, ranges, p, d, w);
    }
    LiveApart(code, ranges, g, al, w, d);
  }

  lemma GapsUndisturbed(code: seq<Inst>, ranges: map<ValueId, Range>, g: Graph, al: Allocation)
    requires Colours(code, ranges, g, al) && QuietGaps(code, ranges)
    ensures Undisturbed(code, Stretched(code, ranges), al)
  {
    hide Writes, Colours, QuietGaps, Apart, Stretch, Pulled, IsJump;
    var live := Stretched(code, ranges);
    forall p, d, w | 0 <= p < |code| && Writes(code[p], d) && w in live && w != d && live[w].start < p < live[w].end
      ensures Apart(al, d, w)
    {
      GapWrite(code, ranges, g, al, p, d, w);
    }
  }

  /** Every proper colouring keeps every value over its loops when the gaps are quiet. */
  lemma QuietIsKept(code: seq<Inst>, ranges: map<ValueId, Range>, g: Graph, al: Allocation)
    requires Colours(code, ranges, g, al) && QuietGaps(code, ranges)
    requires ForwardOnly(code) || NotEntered(code, Stretched(code, ranges))
    ensures Kept(code, ranges, al)
  {
    hide ForwardOnly, NotEntered, Colours, QuietGaps, Stretched, Undisturbed;
    GapsUndisturbed(code, ranges, g, al);
  }

  lemma ColoursFacts(code: seq<Inst>, ranges: map<ValueId, Range>, g: Graph, al: Allocation)
    requires Colours(code, ranges, g, al)
    ensures RangesOf(code, |code|, ranges)
  {
  }

  /** Ranges that reach their back jumps already, or code without back jumps: nothing is
      stretched and there are no gaps. */
  lemma ClosedIsQuiet(code: seq<Inst>, ranges: map<ValueId, Range>)
    requires ForwardOnly(code) || Closed(code, ranges)
    ensures Stretched(code, ranges) == ranges && QuietGaps(code, ranges)
    ensures ForwardOnly(code) || NotEntered(code, ranges)
  {
    hide JumpsTo;
    forall v | v in ranges
      ensures !Pulled(code, ranges[v])
    {
    }
  }
}
