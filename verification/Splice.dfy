/**
  * Excising ranges from a line before detection, and mapping what the detectors find back
  * (src/detect.py). Field extraction, the detectors and the character classes are parameters.
  */
module Splice {
  import opened Sorting

  datatype Range = Range(start: nat, end: nat)

  datatype Segment = Segment(candidateStart: nat, originalStart: nat)

  datatype Hit = Hit(start: nat, end: nat, etype: string)

  datatype Field = Field(name: string, value: string)

  datatype Env = Env(
    extract: string -> seq<Field>, isKeyChar: char -> bool, isAlpha: char -> bool,
    regex: string -> seq<Hit>, ner: string -> seq<Hit>, entropy: string -> seq<Hit>,
    flattened: string -> seq<Hit>, useFlattened: bool)

  // ------------------------------------------------------------------ what is kept

  predicate Within(r: Range, p: nat)
  {
    r.start <= p < r.end
  }

  predicate Covered(ranges: seq<Range>, p: nat)
  {
    exists i :: 0 <= i < |ranges| && Within(ranges[i], p)
  }

  /** The positions below `n` that no range covers, in order: the candidate's index map. */
  function Kept(n: nat, ranges: seq<Range>): seq<nat>
  {
    if n == 0 then []
    else if Covered(ranges, n - 1) then Kept(n - 1, ranges)
    else Kept(n - 1, ranges) + [n - 1]
  }

  function Pick(text: string, at: seq<nat>): string
    requires forall k :: 0 <= k < |at| ==> at[k] < |text|
  {
    seq(|at|, k requires 0 <= k < |at| => text[at[k]])
  }

  /** The text minus the union of the ranges. */
  function Without(text: string, ranges: seq<Range>): string
  {
    KeptOnto(|text|, ranges);
    Pick(text, Kept(|text|, ranges))
  }

  ghost predicate Increasing(at: seq<nat>)
  {
    forall i, j :: 0 <= i < j < |at| ==> at[i] < at[j]
  }

  /** The index map is strictly increasing and its image is exactly the kept positions. */
  lemma {:induction false} KeptOnto(n: nat, ranges: seq<Range>)
    ensures Increasing(Kept(n, ranges))
    ensures forall p: nat :: p in Kept(n, ranges) <==> p < n && !Covered(ranges, p)
    ensures forall k :: 0 <= k < |Kept(n, ranges)| ==> Kept(n, ranges)[k] < n && !Covered(ranges, Kept(n, ranges)[k])
  {
    if n > 0 {
      KeptOnto(n - 1, ranges);
    }
  }

  lemma {:induction false} KeptPrefix(a: nat, b: nat, ranges: seq<Range>)
    requires a <= b
    ensures Kept(a, ranges) <= Kept(b, ranges)
    ensures forall k :: |Kept(a, ranges)| <= k < |Kept(b, ranges)| ==> Kept(b, ranges)[k] >= a
    decreases b
  {
    if a < b {
      KeptPrefix(a, b - 1, ranges);
    }
  }

  lemma {:induction false} KeptGap(a: nat, b: nat, ranges: seq<Range>)
    requires a <= b && forall p: nat :: a <= p < b ==> Covered(ranges, p)
    ensures Kept(b, ranges) == Kept(a, ranges)
    decreases b
  {
    if a < b {
      KeptGap(a, b - 1, ranges);
    }
  }

  function Run(a: nat, b: nat): seq<nat>
    requires a <= b
  {
    seq(b - a, i requires 0 <= i < b - a => a + i)
  }

  lemma {:induction false} KeptBlock(a: nat, b: nat, ranges: seq<Range>)
    requires a <= b && forall p: nat :: a <= p < b ==> !Covered(ranges, p)
    ensures Kept(b, ranges) == Kept(a, ranges) + Run(a, b)
    decreases b
  {
    if a < b {
      KeptBlock(a, b - 1, ranges);
      assert Run(a, b) == Run(a, b - 1) + [b - 1];
    } else {
      assert |Run(a, b)| == 0;
    }
  }

  // ------------------------------------------------------------------ merging ranges

  predicate RangeLe(a: Range, b: Range)
  {
    a.start < b.start || (a.start == b.start && a.end <= b.end)
  }

  function MergeOne(merged: seq<Range>, r: Range): seq<Range>
  {
    var n := |merged|;
    if n > 0 && r.start <= merged[n - 1].end then
      merged[..n - 1] + [Range(merged[n - 1].start, if r.end > merged[n - 1].end then r.end else merged[n - 1].end)]
    else
      merged + [r]
  }

  function MergeAll(ranges: seq<Range>): seq<Range>
  {
    var n := |ranges|;
    if n == 0 then [] else MergeOne(MergeAll(ranges[..n - 1]), ranges[n - 1])
  }

  predicate Bounded(ranges: seq<Range>, n: nat)
  {
    forall i :: 0 <= i < |ranges| ==> ranges[i].start < ranges[i].end <= n
  }

  /** Non-empty ranges in order with at least one position between neighbours. */
  predicate Separated(ranges: seq<Range>)
  {
    && (forall i :: 0 <= i < |ranges| ==> ranges[i].start < ranges[i].end)
    && (forall i, j :: 0 <= i < j < |ranges| ==> ranges[i].end < ranges[j].start)
  }

  lemma MergeOneCovers(merged: seq<Range>, r: Range, p: nat)
    requires |merged| > 0 ==> merged[|merged| - 1].start <= r.start
    ensures Covered(MergeOne(merged, r), p) <==> Covered(merged, p) || Within(r, p)
  {
    var out, n := MergeOne(merged, r), |merged|;
    if Covered(merged, p) {
      var i :| 0 <= i < n && Within(merged[i], p);
      assert Within(out[i], p);
    }
    if Within(r, p) {
      assert Within(out[|out| - 1], p);
    }
    if Covered(out, p) {
      var i :| 0 <= i < |out| && Within(out[i], p);
      if i < |out| - 1 {
        assert Within(merged[i], p);
      } else if !Within(r, p) {
        assert Within(merged[n - 1], p);
      }
    }
  }

  lemma MergeOneSeparates(merged: seq<Range>, r: Range, n: nat)
    requires Separated(merged) && Bounded(merged, n) && r.start < r.end <= n
    requires |merged| > 0 ==> merged[|merged| - 1].start <= r.start
    ensures Separated(MergeOne(merged, r)) && Bounded(MergeOne(merged, r), n)
    ensures |MergeOne(merged, r)| > 0 && MergeOne(merged, r)[|MergeOne(merged, r)| - 1].start <= r.start
  {
    var k, out := |merged|, MergeOne(merged, r);
    forall i, j | 0 <= i < j < |out| ensures out[i].end < out[j].start {
      assert out[i] == merged[i];
      if j < k {
        assert out[j].start == merged[j].start;
      } else if i < k - 1 {
        assert merged[i].end < merged[k - 1].start;
      }
    }
  }

  lemma {:induction false} MergeSeparates(ranges: seq<Range>, n: nat)
    requires SortedBy(RangeLe, ranges) && Bounded(ranges, n)
    ensures Separated(MergeAll(ranges)) && Bounded(MergeAll(ranges), n)
    ensures |ranges| > 0 ==> |MergeAll(ranges)| > 0
    ensures |ranges| > 0 ==> MergeAll(ranges)[|MergeAll(ranges)| - 1].start <= ranges[|ranges| - 1].start
  {
    var k := |ranges| - 1;
    if k >= 0 {
      SortedFront(ranges, n, k);
      MergeSeparates(ranges[..k], n);
      MergeOneSeparates(MergeAll(ranges[..k]), ranges[k], n);
    }
  }

  lemma SortedFront(ranges: seq<Range>, n: nat, k: nat)
    requires SortedBy(RangeLe, ranges) && Bounded(ranges, n) && k < |ranges|
    ensures SortedBy(RangeLe, ranges[..k]) && Bounded(ranges[..k], n)
    ensures k > 0 ==> ranges[..k][k - 1].start <= ranges[k].start
  {
    assert k > 0 ==> RangeLe(ranges[k - 1], ranges[k]);
  }

  lemma MergeStepCovers(ranges: seq<Range>, n: nat, k: nat, p: nat)
    requires SortedBy(RangeLe, ranges) && Bounded(ranges, n) && k < |ranges|
    ensures var merged := MergeAll(ranges[..k]);
      Covered(MergeOne(merged, ranges[k]), p) <==> Covered(merged, p) || Within(ranges[k], p)
  {
    SortedFront(ranges, n, k);
    MergeSeparates(ranges[..k], n);
    MergeOneCovers(MergeAll(ranges[..k]), ranges[k], p);
  }

  lemma {:induction false} MergeKeepsUnion(ranges: seq<Range>, n: nat, p: nat)
    requires SortedBy(RangeLe, ranges) && Bounded(ranges, n)
    ensures Covered(MergeAll(ranges), p) <==> Covered(ranges, p)
  {
    var k := |ranges| - 1;
    if k >= 0 {
      SortedFront(ranges, n, k);
      MergeKeepsUnion(ranges[..k], n, p);
      MergeStepCovers(ranges, n, k, p);
      assert ranges == ranges[..k] + [ranges[k]];
      CoveredSplit(ranges[..k], ranges[k], p);
    }
  }

  lemma CoveredSplit(front: seq<Range>, r: Range, p: nat)
    ensures Covered(front + [r], p) <==> Covered(front, p) || Within(r, p)
  {
    var all := front + [r];
    if Covered(front, p) {
      var i :| 0 <= i < |front| && Within(front[i], p);
      assert Within(all[i], p);
    }
    if Within(r, p) {
      assert Within(all[|front|], p);
    }
  }

  lemma RangeOrder()
    ensures TotalPreorder(RangeLe)
  {
  }

  /** `excise_ranges.sort()` followed by the merge loop. */
  function Merged(ranges: seq<Range>): seq<Range>
  {
    MergeAll(Sort(RangeLe, ranges))
  }

  lemma CoveredByElements(a: seq<Range>, b: seq<Range>, p: nat)
    requires multiset(a) == multiset(b) && Covered(a, p)
    ensures Covered(b, p)
  {
    SameElements(a, b);
    var i :| 0 <= i < |a| && Within(a[i], p);
    assert a[i] in b;
    var j :| 0 <= j < |b| && b[j] == a[i];
    assert Within(b[j], p);
  }

  /** Merging keeps the union of the ranges and leaves them apart. */
  lemma MergedIsUnion(ranges: seq<Range>, n: nat)
    requires Bounded(ranges, n)
    ensures Separated(Merged(ranges)) && Bounded(Merged(ranges), n)
    ensures forall p: nat :: Covered(Merged(ranges), p) <==> Covered(ranges, p)
    ensures |ranges| > 0 ==> |Merged(ranges)| > 0
  {
    var sorted := Sort(RangeLe, ranges);
    RangeOrder();
    SortSorts(RangeLe, ranges);
    SameElements(ranges, sorted);
    forall i | 0 <= i < |sorted| ensures sorted[i].start < sorted[i].end <= n {
      assert sorted[i] in ranges;
    }
    MergeSeparates(sorted, n);
    forall p: nat ensures Covered(Merged(ranges), p) <==> Covered(ranges, p) {
      MergeKeepsUnion(sorted, n, p);
      if Covered(ranges, p) { CoveredByElements(ranges, sorted, p); }
      if Covered(sorted, p) { CoveredByElements(sorted, ranges, p); }
    }
  }

  lemma MergeStep(ranges: seq<Range>, i: nat)
    requires i < |ranges|
    ensures MergeAll(ranges[..i + 1]) == MergeOne(MergeAll(ranges[..i]), ranges[i])
  {
    assert ranges[..i + 1][..i] == ranges[..i];
  }

  method MergeRanges(ranges: seq<Range>) returns (merged: seq<Range>)
    ensures merged == Merged(ranges)
  {
    var ordered := Sort(RangeLe, ranges);
    merged := [];
    for i := 0 to |ordered|
      invariant merged == MergeAll(ordered[..i])
    {
      var r, n := ordered[i], |merged|;
      MergeStep(ordered, i);
      if n > 0 && r.start <= merged[n - 1].end {
        merged := merged[..n - 1] + [Range(merged[n - 1].start, if r.end > merged[n - 1].end then r.end else merged[n - 1].end)];
      } else {
        merged := merged + [r];
      }
    }
    assert ordered[..|ordered|] == ordered;
  }

  // ------------------------------------------------------------------ splicing

  datatype Walk = Walk(cursor: nat, length: nat, segments: seq<Segment>)

  function WalkPast(w: Walk, r: Range): Walk
  {
    if w.cursor < r.start then Walk(r.end, w.length + (r.start - w.cursor), w.segments + [Segment(w.length, w.cursor)])
    else Walk(r.end, w.length, w.segments)
  }

  /** Where the splice loop stands after the given ranges. */
  function WalkOver(ranges: seq<Range>): Walk
  {
    var n := |ranges|;
    if n == 0 then Walk(0, 0, [])
    else WalkPast(WalkOver(ranges[..n - 1]), ranges[n - 1])
  }

  function SegmentsOf(n: nat, ranges: seq<Range>): seq<Segment>
  {
    var w := WalkOver(ranges);
    if w.cursor < n then w.segments + [Segment(w.length, w.cursor)] else w.segments
  }

  function SegmentEnd(segments: seq<Segment>, length: nat, i: nat): nat
    requires i < |segments|
  {
    if i + 1 < |segments| then segments[i + 1].candidateStart else length
  }

  /** The segments tile `0 .. length` with non-empty pieces. */
  ghost predicate Tiles(segments: seq<Segment>, length: nat)
  {
    && (|segments| == 0 <==> length == 0)
    && (|segments| > 0 ==> segments[0].candidateStart == 0)
    && (forall i: nat {:trigger SegmentEnd(segments, length, i)} :: i < |segments|
          ==> segments[i].candidateStart < SegmentEnd(segments, length, i) <= length)
  }

  ghost predicate InSegment(segments: seq<Segment>, length: nat, i: nat, k: nat)
  {
    i < |segments| && segments[i].candidateStart <= k < SegmentEnd(segments, length, i)
  }

  ghost predicate Shifts(segments: seq<Segment>, at: seq<nat>)
  {
    forall i: nat, k: nat :: k < |at| && InSegment(segments, |at|, i, k)
      ==> at[k] == segments[i].originalStart + (k - segments[i].candidateStart)
  }

  ghost predicate BreakAt(at: seq<nat>, k: nat)
  {
    0 < k < |at| && at[k] > at[k - 1] + 1
  }

  ghost predicate Breaks(segments: seq<Segment>, at: seq<nat>)
  {
    forall i :: 0 < i < |segments| ==> BreakAt(at, segments[i].candidateStart)
  }

  /**
    * The segments cut the index map `at` into its maximal runs of consecutive positions: inside a
    * segment the map is a constant shift, and neighbouring segments are not contiguous.
    */
  ghost predicate CutsIntoRuns(segments: seq<Segment>, at: seq<nat>)
  {
    Tiles(segments, |at|) && Shifts(segments, at) && Breaks(segments, at)
  }

  lemma AddTile(segments: seq<Segment>, length: nat, cursor: nat, more: nat)
    requires Tiles(segments, length) && more > 0
    ensures Tiles(segments + [Segment(length, cursor)], length + more)
    ensures forall i :: 0 <= i < |segments|
              ==> SegmentEnd(segments + [Segment(length, cursor)], length + more, i) == SegmentEnd(segments, length, i)
  {
    var all, total := segments + [Segment(length, cursor)], length + more;
    forall i: nat | i < |all| ensures all[i].candidateStart < SegmentEnd(all, total, i) <= total {
      if i < |segments| {
        assert SegmentEnd(all, total, i) == SegmentEnd(segments, length, i);
      }
    }
  }

  lemma AddRun(segments: seq<Segment>, at: seq<nat>, cursor: nat, stop: nat)
    requires CutsIntoRuns(segments, at) && cursor < stop
    requires |at| > 0 ==> at[|at| - 1] + 1 < cursor
    ensures CutsIntoRuns(segments + [Segment(|at|, cursor)], at + Run(cursor, stop))
  {
    AddTile(segments, |at|, cursor, stop - cursor);
    AddShift(segments, at, cursor, stop);
    AddBreak(segments, at, cursor, stop);
  }

  lemma AddShift(segments: seq<Segment>, at: seq<nat>, cursor: nat, stop: nat)
    requires Tiles(segments, |at|) && Shifts(segments, at) && cursor < stop
    ensures Shifts(segments + [Segment(|at|, cursor)], at + Run(cursor, stop))
  {
    var more, all, m := segments + [Segment(|at|, cursor)], at + Run(cursor, stop), |segments|;
    AddTile(segments, |at|, cursor, stop - cursor);
    forall i: nat, k: nat | k < |all| && InSegment(more, |all|, i, k)
      ensures all[k] == more[i].originalStart + (k - more[i].candidateStart)
    {
      if i < m {
        assert InSegment(segments, |at|, i, k);
        assert all[k] == at[k];
      } else {
        assert all[k] == Run(cursor, stop)[k - |at|];
      }
    }
  }

  lemma AddBreak(segments: seq<Segment>, at: seq<nat>, cursor: nat, stop: nat)
    requires Tiles(segments, |at|) && Breaks(segments, at) && cursor < stop
    requires |at| > 0 ==> at[|at| - 1] + 1 < cursor
    ensures Breaks(segments + [Segment(|at|, cursor)], at + Run(cursor, stop))
  {
    var more, all, m := segments + [Segment(|at|, cursor)], at + Run(cursor, stop), |segments|;
    assert all[|at|] == Run(cursor, stop)[0] == cursor;
    forall i | 0 < i < |more| ensures BreakAt(all, more[i].candidateStart) {
      if i < m {
        assert BreakAt(at, segments[i].candidateStart);
        var k := segments[i].candidateStart;
        assert all[k] == at[k] && all[k - 1] == at[k - 1];
      } else {
        assert all[|at| - 1] == at[|at| - 1];
      }
    }
  }

  lemma BetweenIsClear(ranges: seq<Range>, m: nat, p: nat)
    requires Separated(ranges) && m <= |ranges|
    requires m > 0 ==> ranges[m - 1].end <= p
    requires m < |ranges| ==> p < ranges[m].start
    ensures !Covered(ranges, p)
  {
    forall i | 0 <= i < |ranges| ensures !Within(ranges[i], p) {
      if i < m {
        assert i < m - 1 ==> ranges[i].end < ranges[m - 1].start;
      } else {
        assert m < i ==> ranges[m].end < ranges[i].start;
      }
    }
  }

  /** The walk stands right behind the first `m` ranges, with segments for everything kept so far. */
  ghost predicate Tracks(ranges: seq<Range>, m: nat, w: Walk)
    requires m <= |ranges|
  {
    && w.cursor == (if m == 0 then 0 else ranges[m - 1].end)
    && w.length == |Kept(w.cursor, ranges)|
    && CutsIntoRuns(w.segments, Kept(w.cursor, ranges))
  }

  lemma TracksOneMore(ranges: seq<Range>, m: nat, w: Walk)
    requires Separated(ranges) && m < |ranges| && Tracks(ranges, m, w)
    ensures Tracks(ranges, m + 1, WalkPast(w, ranges[m]))
  {
    var r := ranges[m];
    assert m > 0 ==> ranges[m - 1].end < r.start;
    CoveredStretch(ranges, m);
    if w.cursor < r.start {
      ExtendOverGap(ranges, m, w, r.start);
    }
  }

  lemma {:induction false} WalkTracks(ranges: seq<Range>, m: nat)
    requires Separated(ranges) && m <= |ranges|
    ensures Tracks(ranges, m, WalkOver(ranges[..m]))
    decreases m
  {
    if m > 0 {
      WalkTracks(ranges, m - 1);
      assert ranges[..m][..m - 1] == ranges[..m - 1];
      TracksOneMore(ranges, m - 1, WalkOver(ranges[..m - 1]));
    } else {
      assert ranges[..0] == [];
    }
  }

  /** The kept stretch after the first `m` ranges becomes one more segment. */
  lemma {:induction false} ExtendOverGap(ranges: seq<Range>, m: nat, w: Walk, stop: nat)
    requires Separated(ranges) && m <= |ranges| && Tracks(ranges, m, w)
    requires w.cursor < stop && (m < |ranges| ==> stop == ranges[m].start)
    ensures |Kept(stop, ranges)| == w.length + (stop - w.cursor)
    ensures Kept(stop, ranges) == Kept(w.cursor, ranges) + Run(w.cursor, stop)
    ensures CutsIntoRuns(w.segments + [Segment(w.length, w.cursor)], Kept(stop, ranges))
  {
    var at := Kept(w.cursor, ranges);
    forall p: nat | w.cursor <= p < stop ensures !Covered(ranges, p) {
      BetweenIsClear(ranges, m, p);
    }
    KeptBlock(w.cursor, stop, ranges);
    KeptOnto(w.cursor, ranges);
    if |at| > 0 {
      assert at[|at| - 1] in at;
      if m > 0 {
        assert Within(ranges[m - 1], w.cursor - 1);
        assert Covered(ranges, w.cursor - 1);
      }
    }
    AddRun(w.segments, at, w.cursor, stop);
  }

  /** The splice loop's segments are the maximal runs of the index map. */
  lemma {:induction false} SegmentsCutIndexMap(n: nat, ranges: seq<Range>)
    requires Separated(ranges) && Bounded(ranges, n)
    ensures CutsIntoRuns(SegmentsOf(n, ranges), Kept(n, ranges))
  {
    var m := |ranges|;
    assert ranges[..m] == ranges;
    WalkTracks(ranges, m);
    var w := WalkOver(ranges);
    if w.cursor < n {
      ExtendOverGap(ranges, m, w, n);
    }
  }

  lemma PickConcat(text: string, a: seq<nat>, b: seq<nat>)
    requires forall k :: 0 <= k < |a| ==> a[k] < |text|
    requires forall k :: 0 <= k < |b| ==> b[k] < |text|
    ensures forall k :: 0 <= k < |a + b| ==> (a + b)[k] < |text|
    ensures Pick(text, a + b) == Pick(text, a) + Pick(text, b)
  {
    forall k | 0 <= k < |a + b| ensures (a + b)[k] < |text| {
      if k >= |a| { assert (a + b)[k] == b[k - |a|]; }
    }
  }

  lemma PickRun(text: string, a: nat, b: nat)
    requires a <= b <= |text|
    ensures Pick(text, Run(a, b)) == text[a..b]
  {
  }

  /** What the splice loop has put together when it stands at `cursor`. */
  function Upto(text: string, ranges: seq<Range>, cursor: nat): string
    requires cursor <= |text|
  {
    KeptOnto(cursor, ranges);
    Pick(text, Kept(cursor, ranges))
  }

  lemma ChunkAppends(text: string, ranges: seq<Range>, m: nat, w: Walk, stop: nat)
    requires Separated(ranges) && m <= |ranges| && Tracks(ranges, m, w)
    requires w.cursor < stop <= |text| && (m < |ranges| ==> stop == ranges[m].start)
    ensures Upto(text, ranges, stop) == Upto(text, ranges, w.cursor) + text[w.cursor..stop]
  {
    KeptOnto(w.cursor, ranges);
    ExtendOverGap(ranges, m, w, stop);
    PickRun(text, w.cursor, stop);
    PickConcat(text, Kept(w.cursor, ranges), Run(w.cursor, stop));
  }

  lemma {:induction false} CoveredStretch(ranges: seq<Range>, i: nat)
    requires Separated(ranges) && i < |ranges|
    ensures Kept(ranges[i].end, ranges) == Kept(ranges[i].start, ranges)
  {
    forall p: nat | ranges[i].start <= p < ranges[i].end ensures Covered(ranges, p) {
      assert Within(ranges[i], p);
    }
    KeptGap(ranges[i].start, ranges[i].end, ranges);
  }

  lemma SpliceStep(text: string, ranges: seq<Range>, i: nat)
    requires Separated(ranges) && Bounded(ranges, |text|) && i < |ranges|
    ensures WalkOver(ranges[..i]).cursor <= ranges[i].start
    ensures Upto(text, ranges, ranges[i].end)
         == Upto(text, ranges, WalkOver(ranges[..i]).cursor) + text[WalkOver(ranges[..i]).cursor..ranges[i].start]
  {
    var w, r := WalkOver(ranges[..i]), ranges[i];
    WalkTracks(ranges, i);
    assert i > 0 ==> ranges[i - 1].end < r.start;
    CoveredStretch(ranges, i);
    if w.cursor < r.start {
      ChunkAppends(text, ranges, i, w, r.start);
    }
  }

  lemma {:induction false} SpliceLast(text: string, ranges: seq<Range>)
    requires Separated(ranges) && Bounded(ranges, |text|)
    ensures WalkOver(ranges).cursor <= |text|
    ensures Without(text, ranges) == Upto(text, ranges, WalkOver(ranges).cursor) + text[WalkOver(ranges).cursor..]
  {
    assert ranges[..|ranges|] == ranges;
    WalkTracks(ranges, |ranges|);
    var w := WalkOver(ranges);
    assert Upto(text, ranges, |text|) == Without(text, ranges);
    if w.cursor < |text| {
      ChunkAppends(text, ranges, |ranges|, w, |text|);
      assert text[w.cursor..|text|] == text[w.cursor..];
    } else {
      assert text[w.cursor..] == "";
    }
  }

  lemma WalkStep(ranges: seq<Range>, i: nat)
    requires i < |ranges|
    ensures WalkOver(ranges[..i + 1])
         == var w, r := WalkOver(ranges[..i]), ranges[i];
            if w.cursor < r.start then
              Walk(r.end, w.length + (r.start - w.cursor), w.segments + [Segment(w.length, w.cursor)])
            else Walk(r.end, w.length, w.segments)
  {
    assert ranges[..i + 1][..i] == ranges[..i];
  }

  /** The splice loop: candidate and segments in one pass over the merged ranges. */
  method SpliceExcising(text: string, merged: seq<Range>) returns (candidate: string, segments: seq<Segment>)
    requires Separated(merged) && Bounded(merged, |text|)
    ensures candidate == Without(text, merged)
    ensures segments == SegmentsOf(|text|, merged)
  {
    candidate, segments := "", [];
    var cursor: nat, candidateLen: nat := 0, 0;
    for i := 0 to |merged|
      invariant Walk(cursor, candidateLen, segments) == WalkOver(merged[..i])
      invariant cursor <= |text| && candidate == Upto(text, merged, cursor)
    {
      var r := merged[i];
      SpliceStep(text, merged, i);
      WalkStep(merged, i);
      if cursor < r.start {
        segments := segments + [Segment(candidateLen, cursor)];
        candidate := candidate + text[cursor..r.start];
        candidateLen := candidateLen + (r.start - cursor);
      }
      cursor := r.end;
    }
    assert merged[..|merged|] == merged;
    SpliceLast(text, merged);
    if cursor < |text| {
      segments := segments + [Segment(candidateLen, cursor)];
      candidate := candidate + text[cursor..];
    }
  }

  // ------------------------------------------------------------------ remapping hits

  /** `bisect_right` over the candidate starts, which are in order. */
  function BisectRight(segments: seq<Segment>, x: nat): (i: nat)
    ensures i <= |segments|
  {
    var n := |segments|;
    if n == 0 then 0
    else if segments[n - 1].candidateStart <= x then n
    else BisectRight(segments[..n - 1], x)
  }

  lemma {:induction false} BisectRightFinds(segments: seq<Segment>, x: nat)
    requires |segments| > 0 && segments[0].candidateStart <= x
    ensures BisectRight(segments, x) > 0
    ensures segments[BisectRight(segments, x) - 1].candidateStart <= x
    ensures BisectRight(segments, x) < |segments| ==> x < segments[BisectRight(segments, x)].candidateStart
    decreases |segments|
  {
    var n := |segments|;
    if segments[n - 1].candidateStart > x {
      BisectRightFinds(segments[..n - 1], x);
    }
  }

  /** The segment the hit's start falls in decides the shift of both of its ends. */
  function RemapHit(h: Hit, segments: seq<Segment>): Hit
    requires h.start <= h.end && |segments| > 0 && segments[0].candidateStart == 0
  {
    BisectRightFinds(segments, h.start);
    var segment := segments[BisectRight(segments, h.start) - 1];
    Hit(h.start - segment.candidateStart + segment.originalStart, h.end - segment.candidateStart + segment.originalStart, h.etype)
  }

  predicate Inside(h: Hit, text: string)
  {
    h.start < h.end <= |text|
  }

  lemma {:induction false} TilesOrdered(segments: seq<Segment>, length: nat, i: nat, j: nat)
    requires Tiles(segments, length) && i < j < |segments|
    ensures SegmentEnd(segments, length, i) <= segments[j].candidateStart
    decreases j - i
  {
    if i + 1 < j {
      TilesOrdered(segments, length, i, j - 1);
      assert segments[j - 1].candidateStart < SegmentEnd(segments, length, j - 1);
    }
  }

  lemma {:induction false} FoundSegment(segments: seq<Segment>, length: nat, k: nat)
    requires Tiles(segments, length) && k < length
    ensures BisectRight(segments, k) > 0 && InSegment(segments, length, BisectRight(segments, k) - 1, k)
  {
    BisectRightFinds(segments, k);
  }

  lemma {:induction false} SameSegment(segments: seq<Segment>, length: nat, i: nat, k: nat)
    requires Tiles(segments, length) && k < length && InSegment(segments, length, i, k)
    ensures BisectRight(segments, k) == i + 1
  {
    FoundSegment(segments, length, k);
    var j: nat := BisectRight(segments, k) - 1;
    if i < j {
      TilesOrdered(segments, length, i, j);
    } else if j < i {
      TilesOrdered(segments, length, j, i);
    }
  }

  lemma {:induction false} Spread(at: seq<nat>, i: nat, j: nat)
    requires Increasing(at) && i <= j < |at|
    ensures at[j] >= at[i] + (j - i)
    decreases j - i
  {
    if i < j {
      Spread(at, i, j - 1);
      assert at[j - 1] < at[j];
    }
  }

  predicate OneSegment(segments: seq<Segment>, h: Hit)
  {
    h.start < h.end && BisectRight(segments, h.start) == BisectRight(segments, h.end - 1)
  }

  lemma ShiftAt(segments: seq<Segment>, at: seq<nat>, i: nat, k: nat)
    requires Shifts(segments, at) && k < |at| && InSegment(segments, |at|, i, k)
    ensures at[k] == segments[i].originalStart + (k - segments[i].candidateStart)
  {
  }

  lemma SameRun(segments: seq<Segment>, at: seq<nat>, i: nat, a: nat, k: nat)
    requires Shifts(segments, at) && a < |at| && k < |at|
    requires InSegment(segments, |at|, i, a) && InSegment(segments, |at|, i, k)
    ensures at[k] + a == at[a] + k
  {
    ShiftAt(segments, at, i, a);
    ShiftAt(segments, at, i, k);
  }

  lemma OneSegmentShifts(segments: seq<Segment>, at: seq<nat>, h: Hit, k: nat)
    requires CutsIntoRuns(segments, at) && OneSegment(segments, h) && h.start <= k < h.end <= |at|
    ensures at[k] == at[h.start] + (k - h.start)
  {
    FoundSegment(segments, |at|, h.start);
    FoundSegment(segments, |at|, h.end - 1);
    var i: nat := BisectRight(segments, h.start) - 1;
    SameRun(segments, at, i, h.start, k);
  }

  lemma SegmentLeft(segments: seq<Segment>, length: nat, a: nat, b: nat) returns (i: nat)
    requires Tiles(segments, length) && a <= b < length && BisectRight(segments, a) != BisectRight(segments, b)
    ensures InSegment(segments, length, i, a) && SegmentEnd(segments, length, i) <= b
  {
    FoundSegment(segments, length, a);
    i := BisectRight(segments, a) - 1;
    OtherSegment(segments, length, i, a, b);
  }

  /** A hit over several segments starts in one that ends before the hit does. */
  lemma CrossingSkips(segments: seq<Segment>, at: seq<nat>, h: Hit) returns (c: nat)
    requires CutsIntoRuns(segments, at) && h.start < h.end <= |at| && !OneSegment(segments, h)
    ensures h.start < c < h.end && BreakAt(at, c) && at[c - 1] + h.start == at[h.start] + (c - 1)
  {
    var i := SegmentLeft(segments, |at|, h.start, h.end - 1);
    c := EndOfRun(segments, at, i, h.start);
  }

  lemma EndOfRun(segments: seq<Segment>, at: seq<nat>, i: nat, a: nat) returns (c: nat)
    requires CutsIntoRuns(segments, at) && InSegment(segments, |at|, i, a) && SegmentEnd(segments, |at|, i) < |at|
    ensures c == SegmentEnd(segments, |at|, i) && a < c && BreakAt(at, c) && at[c - 1] + a == at[a] + (c - 1)
  {
    c := SegmentEnd(segments, |at|, i);
    EndBreaks(segments, at, i);
    SameRun(segments, at, i, a, c - 1);
  }

  lemma EndBreaks(segments: seq<Segment>, at: seq<nat>, i: nat)
    requires CutsIntoRuns(segments, at) && i < |segments| && SegmentEnd(segments, |at|, i) < |at|
    ensures BreakAt(at, SegmentEnd(segments, |at|, i))
  {
    assert i + 1 < |segments|;
    assert BreakAt(at, segments[i + 1].candidateStart);
  }

  lemma {:induction false} OtherSegment(segments: seq<Segment>, length: nat, i: nat, a: nat, b: nat)
    requires Tiles(segments, length) && InSegment(segments, length, i, a) && a <= b < length
    requires BisectRight(segments, b) != i + 1
    ensures SegmentEnd(segments, length, i) <= b
  {
    if b < SegmentEnd(segments, length, i) {
      SameSegment(segments, length, i, b);
    }
  }

  /**
    * Every hit in the candidate maps to a span of the text with the same length, starting where its
    * first character came from. The span stays clear of every excised range exactly when the hit
    * lies inside one segment, and then it holds the very text that was hit.
    */
  lemma {:induction false} RemapIsExact(text: string, ranges: seq<Range>, h: Hit)
    requires Separated(ranges) && Bounded(ranges, |text|) && Inside(h, Without(text, ranges))
    ensures |SegmentsOf(|text|, ranges)| > 0 && SegmentsOf(|text|, ranges)[0].candidateStart == 0
    ensures var r := RemapHit(h, SegmentsOf(|text|, ranges));
            && r.start == Kept(|text|, ranges)[h.start]
            && r.end - r.start == h.end - h.start
            && r.etype == h.etype
            && Inside(r, text)
    ensures var r := RemapHit(h, SegmentsOf(|text|, ranges));
            OneSegment(SegmentsOf(|text|, ranges), h) <==> forall p: nat :: r.start <= p < r.end ==> !Covered(ranges, p)
    ensures var r := RemapHit(h, SegmentsOf(|text|, ranges));
            OneSegment(SegmentsOf(|text|, ranges), h) ==> text[r.start..r.end] == Without(text, ranges)[h.start..h.end]
  {
    RemapPlaces(text, ranges, h);
    var r := RemapHit(h, SegmentsOf(|text|, ranges));
    if OneSegment(SegmentsOf(|text|, ranges), h) {
      OneSegmentIsClear(text, ranges, h, r);
    } else {
      CrossingIsNotClear(text, ranges, h, r);
    }
  }

  lemma {:induction false} RemapPlaces(text: string, ranges: seq<Range>, h: Hit)
    requires Separated(ranges) && Bounded(ranges, |text|) && Inside(h, Without(text, ranges))
    ensures |Without(text, ranges)| == |Kept(|text|, ranges)|
    ensures |SegmentsOf(|text|, ranges)| > 0 && SegmentsOf(|text|, ranges)[0].candidateStart == 0
    ensures var r := RemapHit(h, SegmentsOf(|text|, ranges));
            && r.start == Kept(|text|, ranges)[h.start]
            && r.end - r.start == h.end - h.start
            && r.etype == h.etype
            && Inside(r, text)
  {
    var segments, at := SegmentsOf(|text|, ranges), Kept(|text|, ranges);
    SegmentsCutIndexMap(|text|, ranges);
    KeptOnto(|text|, ranges);
    RemapShifts(segments, at, h);
    Spread(at, h.start, h.end - 1);
    KeptAt(text, ranges, h.end - 1);
  }

  lemma RemapShifts(segments: seq<Segment>, at: seq<nat>, h: Hit)
    requires CutsIntoRuns(segments, at) && h.start < h.end <= |at|
    ensures |segments| > 0 && segments[0].candidateStart == 0
    ensures RemapHit(h, segments).start == at[h.start] && RemapHit(h, segments).etype == h.etype
    ensures RemapHit(h, segments).end - RemapHit(h, segments).start == h.end - h.start
  {
    FoundSegment(segments, |at|, h.start);
    var i: nat := BisectRight(segments, h.start) - 1;
    ShiftAt(segments, at, i, h.start);
  }

  lemma {:induction false} OneSegmentIsClear(text: string, ranges: seq<Range>, h: Hit, r: Hit)
    requires Separated(ranges) && Bounded(ranges, |text|) && Inside(h, Without(text, ranges)) && Inside(r, text)
    requires |Without(text, ranges)| == |Kept(|text|, ranges)| && OneSegment(SegmentsOf(|text|, ranges), h)
    requires r.start == Kept(|text|, ranges)[h.start] && r.end - r.start == h.end - h.start
    ensures text[r.start..r.end] == Without(text, ranges)[h.start..h.end]
    ensures forall p: nat :: r.start <= p < r.end ==> !Covered(ranges, p)
  {
    SegmentsCutIndexMap(|text|, ranges);
    forall k: nat | h.start <= k < h.end ensures Kept(|text|, ranges)[k] == r.start + (k - h.start) {
      OneSegmentShifts(SegmentsOf(|text|, ranges), Kept(|text|, ranges), h, k);
    }
    ExactText(text, ranges, h, r);
  }

  lemma {:induction false} CrossingIsNotClear(text: string, ranges: seq<Range>, h: Hit, r: Hit)
    requires Separated(ranges) && Bounded(ranges, |text|) && Inside(h, Without(text, ranges))
    requires |Without(text, ranges)| == |Kept(|text|, ranges)| && !OneSegment(SegmentsOf(|text|, ranges), h)
    requires r.start == Kept(|text|, ranges)[h.start] && r.end - r.start == h.end - h.start
    ensures exists p: nat :: r.start <= p < r.end && Covered(ranges, p)
  {
    SegmentsCutIndexMap(|text|, ranges);
    var c := CrossingSkips(SegmentsOf(|text|, ranges), Kept(|text|, ranges), h);
    NextIsCovered(|text|, ranges, c);
    var p: nat := Kept(|text|, ranges)[c - 1] + 1;
    assert r.start <= p < r.end && Covered(ranges, p);
  }

  lemma {:induction false} KeptAt(text: string, ranges: seq<Range>, k: nat)
    requires k < |Kept(|text|, ranges)|
    ensures |Without(text, ranges)| == |Kept(|text|, ranges)|
    ensures var p := Kept(|text|, ranges)[k]; p < |text| && !Covered(ranges, p) && Without(text, ranges)[k] == text[p]
  {
    KeptOnto(|text|, ranges);
  }

  lemma {:induction false} ExactText(text: string, ranges: seq<Range>, h: Hit, r: Hit)
    requires Inside(h, Without(text, ranges)) && Inside(r, text) && r.end - r.start == h.end - h.start
    requires |Without(text, ranges)| == |Kept(|text|, ranges)|
    requires forall k: nat :: h.start <= k < h.end ==> Kept(|text|, ranges)[k] == r.start + (k - h.start)
    ensures text[r.start..r.end] == Without(text, ranges)[h.start..h.end]
    ensures forall p: nat :: r.start <= p < r.end ==> !Covered(ranges, p)
  {
    var a, b := text[r.start..r.end], Without(text, ranges)[h.start..h.end];
    forall i: nat | i < |a| ensures a[i] == b[i] {
      KeptAt(text, ranges, h.start + i);
      assert a[i] == text[r.start + i];
    }
    forall p: nat | r.start <= p < r.end ensures !Covered(ranges, p) {
      KeptAt(text, ranges, h.start + (p - r.start));
    }
  }

  lemma {:induction false} NextIsCovered(n: nat, ranges: seq<Range>, c: nat)
    requires BreakAt(Kept(n, ranges), c)
    ensures Covered(ranges, Kept(n, ranges)[c - 1] + 1)
  {
    var at := Kept(n, ranges);
    KeptOnto(n, ranges);
    var p := at[c - 1] + 1;
    forall k | 0 <= k < |at| ensures at[k] != p {
      assert k < c - 1 ==> at[k] < at[c - 1];
      assert k > c ==> at[c] < at[k];
    }
    assert p < at[c] < n && p !in at;
  }

  lemma {:induction false} KeptOfThree(ranges: seq<Range>)
    requires ranges == [Range(1, 2)]
    ensures Kept(3, ranges) == [0, 2]
  {
    assert Within(ranges[0], 1);
    assert !Covered(ranges, 0) && !Covered(ranges, 2);
    KeptOnto(0, ranges);
    assert Kept(1, ranges) == [0];
    assert Kept(2, ranges) == [0];
  }

  lemma CrossingHitLosesItsText()
    ensures exists text: string, ranges: seq<Range>, h: Hit ::
              && Separated(ranges) && Bounded(ranges, |text|) && Inside(h, Without(text, ranges))
              && |SegmentsOf(|text|, ranges)| > 0 && SegmentsOf(|text|, ranges)[0].candidateStart == 0
              && var r := RemapHit(h, SegmentsOf(|text|, ranges));
              Inside(r, text) && text[r.start..r.end] != Without(text, ranges)[h.start..h.end]
  {
    var text, ranges, h := "AxB", [Range(1, 2)], Hit(0, 2, "");
    KeptOfThree(ranges);
    RemapIsExact(text, ranges, h);
    var r := RemapHit(h, SegmentsOf(|text|, ranges));
    assert text[r.start..r.end][1] == 'x';
    assert Without(text, ranges)[h.start..h.end][1] == 'B';
  }

  // ------------------------------------------------------------------ locating field values

  predicate OccursAt(text: string, v: string, i: int)
  {
    0 <= i && i + |v| <= |text| && text[i..i + |v|] == v
  }

  /** `text.find(v, from)`: the first occurrence at or after `from`, or -1. */
  function Find(text: string, v: string, from: nat): (r: int)
    requires from <= |text|
    ensures r == -1 || (from <= r && r + |v| <= |text|)
    decreases |text| - from
  {
    if OccursAt(text, v, from) then from
    else if from == |text| then -1
    else Find(text, v, from + 1)
  }

  lemma {:induction false} FindIsFirst(text: string, v: string, from: nat)
    requires from <= |text|
    ensures Find(text, v, from) != -1 ==> OccursAt(text, v, Find(text, v, from))
    ensures forall i :: from <= i && (Find(text, v, from) == -1 || i < Find(text, v, from)) ==> !OccursAt(text, v, i)
    decreases |text| - from
  {
    if !OccursAt(text, v, from) && from < |text| {
      FindIsFirst(text, v, from + 1);
    }
  }

  lemma LocateFinds(text: string, v: string, cursor: nat)
    requires cursor <= |text|
    ensures Locate(text, v, cursor) != -1 ==> OccursAt(text, v, Locate(text, v, cursor))
    ensures Locate(text, v, cursor) == -1 ==> forall i :: !OccursAt(text, v, i)
  {
    FindIsFirst(text, v, cursor);
    FindIsFirst(text, v, 0);
  }

  /** The forward search with its from-the-start fallback. */
  function Locate(text: string, v: string, cursor: nat): (r: int)
    requires cursor <= |text|
    ensures r == -1 || (0 <= r && r + |v| <= |text|)
  {
    var i := Find(text, v, cursor);
    if i == -1 then Find(text, v, 0) else i
  }

  function RunStart(env: Env, text: string, i: nat): (r: nat)
    requires i <= |text|
    ensures r <= i && forall k :: r <= k < i ==> env.isKeyChar(text[k])
    ensures r > 0 ==> !env.isKeyChar(text[r - 1])
  {
    if i > 0 && env.isKeyChar(text[i - 1]) then RunStart(env, text, i - 1) else i
  }

  /**
    * Where the excision of a value at `idx` starts: at its `key=` when one stands right before it
    * (the pattern's `$` also matches before one final line break), else at the value.
    */
  function ExciseStart(env: Env, text: string, idx: nat): (r: nat)
    requires idx <= |text|
    ensures r <= idx
  {
    var eq := if idx > 0 && text[idx - 1] == '=' then idx - 1
              else if idx > 1 && text[idx - 1] == '\n' && text[idx - 2] == '=' then idx - 2
              else idx;
    var s := RunStart(env, text, eq);
    if eq < idx && s < eq then s else idx
  }

  predicate OverlapsHit(hits: seq<Hit>, start: nat, end: nat)
  {
    exists i :: 0 <= i < |hits| && hits[i].start < end && start < hits[i].end
  }

  predicate HasAlpha(env: Env, v: string)
  {
    exists i :: 0 <= i < |v| && env.isAlpha(v[i])
  }

  datatype Located = Located(cursor: nat, ranges: seq<Range>, alphaLeft: bool)

  predicate LocatedWithin(l: Located, text: string)
  {
    l.cursor <= |text| && Bounded(l.ranges, |text|)
  }

  function LocateOne(env: Env, text: string, hits: seq<Hit>, l: Located, v: string): (r: Located)
    requires LocatedWithin(l, text)
    ensures LocatedWithin(r, text)
  {
    if v == "" then l else
      var idx := Locate(text, v, l.cursor);
      if idx == -1 then l
      else if OverlapsHit(hits, idx, idx + |v|) then
        l.(cursor := idx + |v|, ranges := l.ranges + [Range(ExciseStart(env, text, idx), idx + |v|)])
      else l.(cursor := idx + |v|, alphaLeft := l.alphaLeft || HasAlpha(env, v))
  }

  function LocateAll(env: Env, text: string, hits: seq<Hit>, fields: seq<Field>): (r: Located)
    ensures LocatedWithin(r, text)
  {
    var n := |fields|;
    if n == 0 then Located(0, [], false)
    else LocateOne(env, text, hits, LocateAll(env, text, hits, fields[..n - 1]), fields[n - 1].value)
  }

  /** The range is a field's value under a pattern hit, with the `key=` right before it if there is one. */
  ghost predicate MaskedField(env: Env, text: string, hits: seq<Hit>, fields: seq<Field>, r: Range)
  {
    exists k, idx: nat :: 0 <= k < |fields| && fields[k].value != "" && MaskedAt(env, text, hits, fields[k].value, idx, r)
  }

  ghost predicate MaskedAt(env: Env, text: string, hits: seq<Hit>, value: string, idx: nat, r: Range)
  {
    && OccursAt(text, value, idx) && r.end == idx + |value| && OverlapsHit(hits, idx, r.end)
    && r.start <= idx
    && (r.start < idx ==> KeyBefore(env, text, r.start, idx))
    && (r.start == idx ==> forall s: nat :: s < idx ==> !KeyBefore(env, text, s, idx))
  }

  /** A whole run of key characters, an '=' and at most one line break fill `s .. idx`. */
  ghost predicate KeyBefore(env: Env, text: string, s: nat, idx: nat)
    requires idx <= |text|
  {
    exists eq: nat :: KeyUpTo(env, text, s, eq, idx)
  }

  ghost predicate KeyUpTo(env: Env, text: string, s: nat, eq: nat, idx: nat)
    requires idx <= |text|
  {
    && s < eq < idx && text[eq] == '=' && (eq == idx - 1 || (eq == idx - 2 && text[idx - 1] == '\n'))
    && (forall k :: s <= k < eq ==> env.isKeyChar(text[k])) && (s > 0 ==> !env.isKeyChar(text[s - 1]))
  }

  lemma ExciseStartIsKey(env: Env, text: string, idx: nat)
    requires idx <= |text| && !env.isKeyChar('=') && !env.isKeyChar('\n')
    ensures var r := ExciseStart(env, text, idx);
            && (r < idx ==> KeyBefore(env, text, r, idx))
            && (r == idx ==> forall s: nat :: s < idx ==> !KeyBefore(env, text, s, idx))
  {
    var eq := if idx > 0 && text[idx - 1] == '=' then idx - 1
              else if idx > 1 && text[idx - 1] == '\n' && text[idx - 2] == '=' then idx - 2
              else idx;
    var s := RunStart(env, text, eq);
    if eq < idx && s < eq {
      assert KeyUpTo(env, text, s, eq, idx);
    } else {
      forall s: nat, e: nat | s < idx ensures !KeyUpTo(env, text, s, e, idx) {
      }
    }
  }

  /** Only field values under a pattern hit are excised, each with exactly its own key. */
  lemma {:induction false} ExcisedAreMaskedFields(env: Env, text: string, hits: seq<Hit>, fields: seq<Field>, i: nat)
    requires i < |LocateAll(env, text, hits, fields).ranges| && !env.isKeyChar('=') && !env.isKeyChar('\n')
    ensures MaskedField(env, text, hits, fields, LocateAll(env, text, hits, fields).ranges[i])
  {
    var n := |fields| - 1;
    var before := LocateAll(env, text, hits, fields[..n]);
    var r := LocateAll(env, text, hits, fields).ranges[i];
    if i < |before.ranges| {
      ExcisedAreMaskedFields(env, text, hits, fields[..n], i);
      var k, idx: nat :| 0 <= k < n && fields[..n][k].value != "" && MaskedAt(env, text, hits, fields[..n][k].value, idx, r);
      assert fields[k] == fields[..n][k];
    } else {
      var idx := Locate(text, fields[n].value, before.cursor);
      LocateFinds(text, fields[n].value, before.cursor);
      ExciseStartIsKey(env, text, idx);
      assert MaskedAt(env, text, hits, fields[n].value, idx, r);
    }
  }

  datatype NerInput = WholeText | SkipNer | Spliced(candidate: string, segments: seq<Segment>)

  function NerCandidate(env: Env, text: string, hits: seq<Hit>): NerInput
  {
    var fields := env.extract(text);
    if |fields| == 0 then WholeText else
      var l := LocateAll(env, text, hits, fields);
      if |l.ranges| == 0 then WholeText
      else if !l.alphaLeft then SkipNer
      else
        MergedIsUnion(l.ranges, |text|);
        Spliced(Without(text, Merged(l.ranges)), SegmentsOf(|text|, Merged(l.ranges)))
  }

  lemma {:induction false} LocateStep(env: Env, text: string, hits: seq<Hit>, fields: seq<Field>, i: nat)
    requires i < |fields|
    ensures LocatedWithin(LocateAll(env, text, hits, fields[..i]), text)
    ensures LocateAll(env, text, hits, fields[..i + 1])
         == LocateOne(env, text, hits, LocateAll(env, text, hits, fields[..i]), fields[i].value)
  {
    assert fields[..i + 1][..i] == fields[..i];
  }

  /** One turn of the first loop of `build_ner_candidate`: find a field value, sort out whether to excise it. */
  method LocateField(env: Env, text: string, hits: seq<Hit>, l: Located, value: string) returns (r: Located)
    requires LocatedWithin(l, text)
    ensures r == LocateOne(env, text, hits, l, value)
  {
    r := l;
    if value == "" {
      return;
    }
    var idx := Locate(text, value, l.cursor);
    if idx == -1 {
      return;
    }
    r := r.(cursor := idx + |value|);
    if OverlapsHit(hits, idx, idx + |value|) {
      r := r.(ranges := r.ranges + [Range(ExciseStart(env, text, idx), idx + |value|)]);
    } else if HasAlpha(env, value) {
      r := r.(alphaLeft := true);
    }
  }

  method LocateFields(env: Env, text: string, hits: seq<Hit>, fields: seq<Field>) returns (l: Located)
    ensures l == LocateAll(env, text, hits, fields)
  {
    l := Located(0, [], false);
    for i := 0 to |fields|
      invariant LocatedWithin(l, text) && l == LocateAll(env, text, hits, fields[..i])
    {
      LocateStep(env, text, hits, fields, i);
      l := LocateField(env, text, hits, l, fields[i].value);
    }
    assert fields[..|fields|] == fields;
  }

  method BuildNerCandidate(env: Env, text: string, hits: seq<Hit>) returns (r: NerInput)
    ensures r == NerCandidate(env, text, hits)
  {
    var fields := env.extract(text);
    if |fields| == 0 {
      return WholeText;
    }
    var l := LocateFields(env, text, hits, fields);
    if |l.ranges| == 0 {
      return WholeText;
    }
    if !l.alphaLeft {
      return SkipNer;
    }
    var merged := MergeRanges(l.ranges);
    MergedIsUnion(l.ranges, |text|);
    var candidate, segments := SpliceExcising(text, merged);
    r := Spliced(candidate, segments);
  }

  ghost predicate LocatedOn(text: string, hits: seq<Hit>, v: string)
  {
    exists i :: OccursAt(text, v, i) && OverlapsHit(hits, i, i + |v|)
  }

  lemma {:induction false} NoLettersLeft(env: Env, text: string, hits: seq<Hit>, fields: seq<Field>, f: Field)
    requires f in fields && !LocateAll(env, text, hits, fields).alphaLeft
    ensures LocatedOn(text, hits, f.value) || !HasAlpha(env, f.value) || forall i :: !OccursAt(text, f.value, i)
  {
    var n := |fields| - 1;
    var before := LocateAll(env, text, hits, fields[..n]);
    if f in fields[..n] {
      NoLettersLeft(env, text, hits, fields[..n], f);
    } else {
      assert f == fields[n];
      if f.value != "" {
        LocateFinds(text, f.value, before.cursor);
      }
    }
  }

  /**
    * Name recognition is skipped only for a line on which every extracted field value with a letter
    * in it overlaps a pattern hit, or does not occur verbatim at all.
    */
  lemma SkipLeavesNoLetters(env: Env, text: string, hits: seq<Hit>, f: Field)
    requires NerCandidate(env, text, hits) == SkipNer && f in env.extract(text)
    ensures LocatedOn(text, hits, f.value) || !HasAlpha(env, f.value) || forall i :: !OccursAt(text, f.value, i)
  {
    NoLettersLeft(env, text, hits, env.extract(text), f);
  }

  // ------------------------------------------------------------------ the detection paths

  ghost predicate AllInside(hits: seq<Hit>, text: string)
  {
    forall i :: 0 <= i < |hits| ==> Inside(hits[i], text)
  }

  /** Every detector reports non-empty spans of the string it was given. */
  ghost predicate DetectorsInside(env: Env)
  {
    forall text: string ::
      AllInside(env.regex(text), text) && AllInside(env.ner(text), text)
      && AllInside(env.entropy(text), text) && AllInside(env.flattened(text), text)
  }

  predicate GoodSegments(segments: seq<Segment>)
  {
    |segments| > 0 && segments[0].candidateStart == 0
  }

  function RemapAll(hits: seq<Hit>, segments: seq<Segment>): (r: seq<Hit>)
    requires |hits| > 0 ==> GoodSegments(segments)
    requires forall i :: 0 <= i < |hits| ==> hits[i].start <= hits[i].end
    ensures |r| == |hits|
  {
    seq(|hits|, i requires 0 <= i < |hits| => RemapHit(hits[i], segments))
  }

  lemma HitsHaveSegments(text: string, ranges: seq<Range>, hits: seq<Hit>)
    requires Separated(ranges) && Bounded(ranges, |text|) && AllInside(hits, Without(text, ranges))
    ensures |hits| > 0 ==> GoodSegments(SegmentsOf(|text|, ranges))
    ensures AllInside(RemapAll(hits, SegmentsOf(|text|, ranges)), text)
  {
    if |hits| > 0 {
      RemapIsExact(text, ranges, hits[0]);
    }
    forall i | 0 <= i < |hits| ensures Inside(RemapHit(hits[i], SegmentsOf(|text|, ranges)), text) {
      RemapIsExact(text, ranges, hits[i]);
    }
  }

  /** The ranges excised for name recognition on this line. */
  function ExcisedForNer(env: Env, text: string): (r: seq<Range>)
    ensures Separated(r) && Bounded(r, |text|)
  {
    var l := LocateAll(env, text, env.regex(text), env.extract(text));
    MergedIsUnion(l.ranges, |text|);
    Merged(l.ranges)
  }

  /** What name recognition adds to the field-gated hits. */
  ghost function NerHits(env: Env, text: string): (r: seq<Hit>)
    requires DetectorsInside(env)
    ensures AllInside(r, text)
  {
    if |env.regex(text)| == 0 then env.ner(text) else
      match NerCandidate(env, text, env.regex(text))
      case WholeText => env.ner(text)
      case SkipNer => []
      case Spliced(candidate, segments) =>
        HitsHaveSegments(text, ExcisedForNer(env, text), env.ner(candidate));
        RemapAll(env.ner(candidate), segments)
  }

  ghost function FieldGated(env: Env, text: string): seq<Hit>
    requires DetectorsInside(env)
  {
    env.regex(text) + NerHits(env, text) + env.entropy(text) + if env.useFlattened then env.flattened(text) else []
  }

  method DetectAllFieldGated(env: Env, text: string) returns (hits: seq<Hit>)
    requires DetectorsInside(env)
    ensures hits == FieldGated(env, text)
    ensures AllInside(hits, text)
  {
    hits := env.regex(text);
    if |hits| > 0 {
      var input := BuildNerCandidate(env, text, hits);
      match input {
        case WholeText => hits := hits + env.ner(text);
        case SkipNer =>
        case Spliced(candidate, segments) =>
          HitsHaveSegments(text, ExcisedForNer(env, text), env.ner(candidate));
          hits := hits + RemapAll(env.ner(candidate), segments);
      }
    } else {
      hits := hits + env.ner(text);
    }
    assert hits == env.regex(text) + NerHits(env, text);
    hits := hits + env.entropy(text);
    if env.useFlattened {
      hits := hits + env.flattened(text);
    }
  }

  lemma FieldGatedInside(env: Env, text: string)
    requires DetectorsInside(env)
    ensures AllInside(FieldGated(env, text), text)
  {
    var a, b, c := env.regex(text), NerHits(env, text), env.entropy(text);
    var d := if env.useFlattened then env.flattened(text) else [];
    assert AllInside(a, text) && AllInside(b, text) && AllInside(c, text) && AllInside(d, text);
  }

  datatype Declared = Declared(cursor: nat, spans: seq<(Hit, Field)>, ranges: seq<Range>)

  ghost predicate DeclaredOk(d: Declared, text: string, declared: map<string, string>)
  {
    && d.cursor <= |text| && Bounded(d.ranges, |text|) && |d.ranges| == |d.spans|
    && (forall i :: 0 <= i < |d.spans| ==>
          var (h, f) := d.spans[i];
          && Inside(h, text) && d.ranges[i] == Range(h.start, h.end)
          && f.name in declared && h.etype == declared[f.name] && text[h.start..h.end] == f.value)
  }

  function DeclareOne(text: string, declared: map<string, string>, d: Declared, f: Field): (r: Declared)
    requires d.cursor <= |text|
    ensures r.cursor <= |text|
  {
    if f.name !in declared || f.value == "" then d else
      var idx := Locate(text, f.value, d.cursor);
      if idx == -1 then d else
        Declared(idx + |f.value|, d.spans + [(Hit(idx, idx + |f.value|, declared[f.name]), f)],
                 d.ranges + [Range(idx, idx + |f.value|)])
  }

  function DeclareAll(text: string, declared: map<string, string>, fields: seq<Field>): (r: Declared)
    ensures r.cursor <= |text|
  {
    var n := |fields|;
    if n == 0 then Declared(0, [], [])
    else DeclareOne(text, declared, DeclareAll(text, declared, fields[..n - 1]), fields[n - 1])
  }

  lemma DeclareOneIsOk(text: string, declared: map<string, string>, d: Declared, f: Field)
    requires DeclaredOk(d, text, declared)
    ensures DeclaredOk(DeclareOne(text, declared, d, f), text, declared)
  {
    if f.name in declared && f.value != "" {
      LocateFinds(text, f.value, d.cursor);
    }
  }

  lemma {:induction false} DeclareAllIsOk(text: string, declared: map<string, string>, fields: seq<Field>)
    ensures DeclaredOk(DeclareAll(text, declared, fields), text, declared)
  {
    var n := |fields| - 1;
    if n >= 0 {
      DeclareAllIsOk(text, declared, fields[..n]);
      DeclareOneIsOk(text, declared, DeclareAll(text, declared, fields[..n]), fields[n]);
    }
  }

  /** The ranges of the declared fields, merged: what the schema-aware path takes out first. */
  function ExcisedBySchema(env: Env, text: string, declared: map<string, string>): (r: seq<Range>)
    ensures Separated(r) && Bounded(r, |text|)
  {
    DeclareAllIsOk(text, declared, env.extract(text));
    MergedIsUnion(DeclareAll(text, declared, env.extract(text)).ranges, |text|);
    Merged(DeclareAll(text, declared, env.extract(text)).ranges)
  }

  ghost function SchemaAware(env: Env, text: string, declared: map<string, string>): seq<Hit>
    requires DetectorsInside(env)
  {
    var found := DeclareAll(text, declared, env.extract(text)).spans;
    if |found| == 0 then FieldGated(env, text) else
      var outer := ExcisedBySchema(env, text, declared);
      var rest := FieldGated(env, Without(text, outer));
      FieldGatedInside(env, Without(text, outer));
      HitsHaveSegments(text, outer, rest);
      seq(|found|, i requires 0 <= i < |found| => found[i].0) + RemapAll(rest, SegmentsOf(|text|, outer))
  }

  lemma {:induction false} DeclareStep(text: string, declared: map<string, string>, fields: seq<Field>, i: nat)
    requires i < |fields|
    ensures DeclareAll(text, declared, fields[..i + 1]) == DeclareOne(text, declared, DeclareAll(text, declared, fields[..i]), fields[i])
  {
    assert fields[..i + 1][..i] == fields[..i];
  }

  /** Locates the declared fields' values, left to right. */
  method LocateDeclared(text: string, declared: map<string, string>, fields: seq<Field>) returns (d: Declared)
    ensures d == DeclareAll(text, declared, fields)
    ensures DeclaredOk(d, text, declared)
  {
    d := Declared(0, [], []);
    for i := 0 to |fields|
      invariant d == DeclareAll(text, declared, fields[..i])
    {
      var f := fields[i];
      DeclareStep(text, declared, fields, i);
      if f.name in declared && f.value != "" {
        var idx := Locate(text, f.value, d.cursor);
        if idx != -1 {
          var end := idx + |f.value|;
          d := Declared(end, d.spans + [(Hit(idx, end, declared[f.name]), f)], d.ranges + [Range(idx, end)]);
        }
      }
    }
    assert fields[..|fields|] == fields;
    DeclareAllIsOk(text, declared, fields);
  }

  lemma {:induction false} NothingDeclared(text: string, declared: map<string, string>, fields: seq<Field>)
    requires declared == map[]
    ensures |DeclareAll(text, declared, fields).spans| == 0
  {
    var n := |fields| - 1;
    if n >= 0 {
      NothingDeclared(text, declared, fields[..n]);
    }
  }

  /** `declared` is empty for a log type that schema trust does not support. */
  method DetectAllSchemaAware(env: Env, text: string, declared: map<string, string>) returns (hits: seq<Hit>)
    requires DetectorsInside(env)
    ensures hits == SchemaAware(env, text, declared)
    ensures AllInside(hits, text)
  {
    var fields := env.extract(text);
    if declared == map[] || |fields| == 0 {
      if declared == map[] {
        NothingDeclared(text, declared, fields);
      }
      hits := DetectAllFieldGated(env, text);
      return;
    }
    var d := LocateDeclared(text, declared, fields);
    if |d.spans| == 0 {
      hits := DetectAllFieldGated(env, text);
      return;
    }
    var merged := MergeRanges(d.ranges);
    assert merged == ExcisedBySchema(env, text, declared);
    MergedIsUnion(d.ranges, |text|);
    var remainder, segments := SpliceExcising(text, merged);
    var rest := DetectAllFieldGated(env, remainder);
    HitsHaveSegments(text, merged, rest);
    var spans := seq(|d.spans|, i requires 0 <= i < |d.spans| => d.spans[i].0);
    hits := spans + if |segments| > 0 then RemapAll(rest, segments) else rest;
  }

  /**
    * Two nested splices: the composed index map is strictly increasing, lands exactly on the text's
    * positions that neither splice removed, and reads the candidate's characters.
    */
  lemma {:induction false} NestedIndexMap(text: string, outer: seq<Range>, inner: seq<Range>)
    requires Separated(outer) && Bounded(outer, |text|)
    requires Separated(inner) && Bounded(inner, |Without(text, outer)|)
    ensures var first, second := Kept(|text|, outer), Kept(|Without(text, outer)|, inner);
            var candidate := Without(Without(text, outer), inner);
            && |candidate| == |second|
            && (forall k :: 0 <= k < |second| ==> second[k] < |first| && first[second[k]] < |text| && candidate[k] == text[first[second[k]]])
            && (forall i, j :: 0 <= i < j < |second| ==> second[i] < second[j] < |first| && first[second[i]] < first[second[j]])
            && (forall p: nat :: (exists k :: 0 <= k < |second| && second[k] < |first| && first[second[k]] == p)
                  <==> p < |text| && !Covered(outer, p) && exists q: nat :: q < |first| && first[q] == p && !Covered(inner, q))
  {
    var rest := Without(text, outer);
    var first, second := Kept(|text|, outer), Kept(|rest|, inner);
    KeptOnto(|text|, outer);
    KeptOnto(|rest|, inner);
    forall k: nat | k < |second| ensures second[k] < |first| {
      KeptAt(rest, inner, k);
    }
    forall p: nat ensures (exists k :: 0 <= k < |second| && second[k] < |first| && first[second[k]] == p)
      <==> p < |text| && !Covered(outer, p) && exists q: nat :: q < |first| && first[q] == p && !Covered(inner, q)
    {
      if q: nat :| q < |first| && first[q] == p && !Covered(inner, q) {
        assert q in second;
        var k :| 0 <= k < |second| && second[k] == q;
        assert first[second[k]] == p;
      }
    }
  }

  /**
    * A hit found behind both splices maps back, through both, to a span of the text with its length.
    * Lying inside one segment at each level is exactly what keeps it clear of everything removed,
    * and then the span holds the text that was hit.
    */
  lemma HitThroughBothSplices(text: string, outer: seq<Range>, inner: seq<Range>, h: Hit)
    requires Separated(outer) && Bounded(outer, |text|)
    requires Separated(inner) && Bounded(inner, |Without(text, outer)|)
    requires Inside(h, Without(Without(text, outer), inner))
    ensures GoodSegments(SegmentsOf(|Without(text, outer)|, inner)) && GoodSegments(SegmentsOf(|text|, outer))
    ensures var mid := RemapHit(h, SegmentsOf(|Without(text, outer)|, inner));
            && Inside(mid, Without(text, outer))
            && var r := RemapHit(mid, SegmentsOf(|text|, outer));
            && Inside(r, text) && r.end - r.start == h.end - h.start && r.etype == h.etype
            && (OneSegment(SegmentsOf(|Without(text, outer)|, inner), h) && OneSegment(SegmentsOf(|text|, outer), mid)
                <==> (forall p: nat :: r.start <= p < r.end ==> !Covered(outer, p))
                     && (forall q: nat :: mid.start <= q < mid.end ==> !Covered(inner, q)))
            && (OneSegment(SegmentsOf(|Without(text, outer)|, inner), h) && OneSegment(SegmentsOf(|text|, outer), mid)
                ==> text[r.start..r.end] == Without(Without(text, outer), inner)[h.start..h.end])
  {
    var rest := Without(text, outer);
    RemapIsExact(rest, inner, h);
    var mid := RemapHit(h, SegmentsOf(|rest|, inner));
    RemapIsExact(text, outer, mid);
  }

  /** A declared span is a value of a declared field, reported under the type declared for it. */
  lemma {:induction false} DeclaredSpansHoldTheirValues(env: Env, text: string, declared: map<string, string>, i: nat)
    requires DetectorsInside(env) && i < |DeclareAll(text, declared, env.extract(text)).spans|
    ensures i < |SchemaAware(env, text, declared)|
    ensures var h, f := SchemaAware(env, text, declared)[i], DeclareAll(text, declared, env.extract(text)).spans[i].1;
            && Inside(h, text) && text[h.start..h.end] == f.value
            && f.name in declared && h.etype == declared[f.name]
  {
    DeclareAllIsOk(text, declared, env.extract(text));
  }

  predicate Disjoint(a: Hit, b: Hit)
  {
    a.end <= b.start || b.end <= a.start
  }

  /**
    * What the detectors find in the remainder stays clear of every declared span exactly when it
    * was found inside one segment of the remainder.
    */
  lemma {:induction false} DetectionsAvoidDeclaredSpans(env: Env, text: string, declared: map<string, string>, h: Hit)
    requires Inside(h, Without(text, ExcisedBySchema(env, text, declared)))
    ensures GoodSegments(SegmentsOf(|text|, ExcisedBySchema(env, text, declared)))
    ensures OneSegment(SegmentsOf(|text|, ExcisedBySchema(env, text, declared)), h)
       <==> forall i :: 0 <= i < |DeclareAll(text, declared, env.extract(text)).spans|
              ==> Disjoint(RemapHit(h, SegmentsOf(|text|, ExcisedBySchema(env, text, declared))),
                           DeclareAll(text, declared, env.extract(text)).spans[i].0)
  {
    var d, ranges := DeclareAll(text, declared, env.extract(text)), ExcisedBySchema(env, text, declared);
    DeclareAllIsOk(text, declared, env.extract(text));
    MergedIsUnion(d.ranges, |text|);
    RemapIsExact(text, ranges, h);
    var r := RemapHit(h, SegmentsOf(|text|, ranges));
    ClearIsDisjoint(d, text, declared, r);
    assert (forall p: nat :: r.start <= p < r.end ==> !Covered(ranges, p))
      <==> (forall p: nat :: r.start <= p < r.end ==> !Covered(d.ranges, p));
  }

  lemma ClearIsDisjoint(d: Declared, text: string, declared: map<string, string>, r: Hit)
    requires DeclaredOk(d, text, declared) && r.start < r.end
    ensures (forall p: nat :: r.start <= p < r.end ==> !Covered(d.ranges, p))
       <==> forall i :: 0 <= i < |d.spans| ==> Disjoint(r, d.spans[i].0)
  {
    if forall p: nat :: r.start <= p < r.end ==> !Covered(d.ranges, p) {
      forall i | 0 <= i < |d.spans| ensures Disjoint(r, d.spans[i].0) {
        var h := d.spans[i].0;
        var p := if r.start <= h.start then h.start else r.start;
        assert Within(d.ranges[i], p) ==> Covered(d.ranges, p);
      }
    }
  }
}
