/** Recursive transcription, `recursive_asr.rs`, and stitching, `main.rs`. */
module Transcription {
  import opened Numbers
  import opened Options
  import opened Regions

  // The recogniser is any sequence of answers.

  datatype Segment = Segment(startMs: nat, endMs: nat, confidence: real, text: string)

  datatype Transcript = Transcript(model: string, segments: seq<Segment>)

  /** The answer to the n-th call on a chunk; `None` is an error. */
  type Asr = (nat, seq<real>) -> Option<Transcript>

  const THRESHOLD: real := 0.5
  const MIN_REGION_MS: nat := 10_000
  const MAX_DEPTH: nat := 3
  const MAX_AUTO_SPLIT_MS: nat := 30_000
  const U64_MAX: nat := 0xFFFF_FFFF_FFFF_FFFF

  /** The answer of a region, the calls made so far, and the leaves: the regions
      whose own transcript went into the answer, with the call that gave it. */
  datatype Leaf = Leaf(region: Region, call: nat)

  datatype Answer =
    | Failed(calls: nat)
    | Got(segments: seq<Segment>, model: Option<string>, calls: nat, leaves: seq<Leaf>)

  function SaturatingMul(x: nat, y: nat): (p: nat)
  {
    Min(x * y, U64_MAX)
  }

  /** First sample of a millisecond mark. */
  function SampleIndex(ms: nat, sampleRate: nat, len: nat): (i: nat)
    ensures i <= len
  {
    Min(SaturatingMul(ms, sampleRate) / 1000, len)
  }

  /** `slice_for_region`. */
  function SliceFor(samples: seq<real>, sampleRate: nat, region: Region): (chunk: seq<real>)
  {
    var start := SampleIndex(region.startMs, sampleRate, |samples|);
    var end := Max(SampleIndex(region.endMs, sampleRate, |samples|), start);
    samples[start..end]
  }

  /** `offset_segment`. */
  function OffsetSegment(seg: Segment, region: Region): (r: Segment)
  {
    seg.(startMs := Min(seg.startMs + region.startMs, region.endMs),
         endMs := Min(seg.endMs + region.startMs, region.endMs))
  }

  function OffsetAll(segments: seq<Segment>, region: Region): (r: seq<Segment>)
    ensures |r| == |segments| && forall i | 0 <= i < |r| :: r[i] == OffsetSegment(segments[i], region)
  {
    seq(|segments|, i requires 0 <= i < |segments| => OffsetSegment(segments[i], region))
  }

  /** Index of the first segment of least confidence. */
  function WorstIndex(segments: seq<Segment>): (k: nat)
    requires segments != []
    ensures k < |segments|
    ensures forall i | 0 <= i < |segments| :: segments[k].confidence <= segments[i].confidence
    ensures forall i | 0 <= i < k :: segments[k].confidence < segments[i].confidence
  {
    var n := |segments| - 1;
    if n == 0 then 0
    else
      var k := WorstIndex(segments[..n]);
      assert forall i | 0 <= i < n :: segments[..n][i] == segments[i];
      if segments[n].confidence < segments[k].confidence then n else k
  }

  /** `u64::clamp`, which panics when the bounds are inverted. */
  function Clamp(x: nat, lo: nat, hi: nat): (r: nat)
    requires lo <= hi
    ensures lo <= r <= hi
  {
    if x < lo then lo else if x > hi then hi else x
  }

  /** Is the region split after this answer? */
  predicate Splits(segments: seq<Segment>, region: Region, hinted: bool, isFake: bool, depth: nat)
  {
    && !hinted && segments != [] && depth < MAX_DEPTH
    && SaturatingSub(region.endMs, region.startMs) >= 2 * MIN_REGION_MS
    && (segments[WorstIndex(segments)].confidence < THRESHOLD
        || (SaturatingSub(region.endMs, region.startMs) > MAX_AUTO_SPLIT_MS && !isFake))
  }

  /** Where it is split. The clamp is never inverted. */
  function SplitPoint(segments: seq<Segment>, region: Region): (p: nat)
    requires segments != [] && SaturatingSub(region.endMs, region.startMs) >= 2 * MIN_REGION_MS
    ensures region.startMs + MIN_REGION_MS <= p <= region.endMs - MIN_REGION_MS
  {
    var worst := segments[WorstIndex(segments)];
    var raw := if worst.confidence < THRESHOLD then worst.startMs + region.startMs
               else region.startMs + (region.endMs - region.startMs) / 2;
    Clamp(raw, region.startMs + MIN_REGION_MS, SaturatingSub(region.endMs, MIN_REGION_MS))
  }

  function Gap(x: nat, y: nat): (d: nat)
  {
    if x <= y then y - x else x - y
  }

  /** A region with an uncertain segment is split as near to the start of the least
      certain one as two halves of ten seconds allow; otherwise exactly in the middle. */
  lemma SplitNearest(segments: seq<Segment>, region: Region, q: nat)
    requires segments != [] && SaturatingSub(region.endMs, region.startMs) >= 2 * MIN_REGION_MS
    requires region.startMs + MIN_REGION_MS <= q <= region.endMs - MIN_REGION_MS
    ensures var worst, p := segments[WorstIndex(segments)], SplitPoint(segments, region);
      if worst.confidence < THRESHOLD then
        Gap(p, worst.startMs + region.startMs) <= Gap(q, worst.startMs + region.startMs)
      else 0 <= (region.endMs - p) - (p - region.startMs) <= 1
  {
  }

  function Or(a: Option<string>, b: Option<string>): (r: Option<string>)
  {
    if a.Some? then a else b
  }

  /** `recurse`. */
  function Recurse(asr: Asr, isFake: bool, samples: seq<real>, sampleRate: nat, region: Region, hinted: bool,
                   depth: nat, calls: nat): (r: Answer)
    decreases MAX_DEPTH - depth
  {
    var heard := asr(calls, SliceFor(samples, sampleRate, region));
    if heard.None? then Failed(calls + 1) else
    var raw := heard.value.segments;
    var model := if raw == [] then None else Some(heard.value.model);
    if !Splits(raw, region, hinted, isFake, depth) then
      Got(OffsetAll(raw, region), model, calls + 1, [Leaf(region, calls)])
    else
      var p := SplitPoint(raw, region);
      var left := Recurse(asr, isFake, samples, sampleRate, Region(region.startMs, p), false, depth + 1, calls + 1);
      if left.Failed? then left else
      var right := Recurse(asr, isFake, samples, sampleRate, Region(p, region.endMs), false, depth + 1, left.calls);
      if right.Failed? then right else
      Got(left.segments + right.segments, Or(Or(model, left.model), right.model), right.calls,
          left.leaves + right.leaves)
  }

  // -------------------------------------------------------------------- bounds

  /** Calls of a full binary recursion below a depth. */
  function MaxCalls(depth: nat): (n: nat)
    decreases MAX_DEPTH - depth
  {
    if depth >= MAX_DEPTH then 1 else 1 + 2 * MaxCalls(depth + 1)
  }

  function MaxLeaves(depth: nat): (n: nat)
    ensures n >= 1
    decreases MAX_DEPTH - depth
  {
    if depth >= MAX_DEPTH then 1 else 2 * MaxLeaves(depth + 1)
  }

  lemma {:induction false} FanOut(asr: Asr, isFake: bool, samples: seq<real>, sampleRate: nat, region: Region,
                                  hinted: bool, depth: nat, calls: nat)
    ensures var r := Recurse(asr, isFake, samples, sampleRate, region, hinted, depth, calls);
            r.calls <= calls + MaxCalls(depth) && (r.Got? ==> |r.leaves| <= MaxLeaves(depth))
    decreases MAX_DEPTH - depth
  {
    var heard := asr(calls, SliceFor(samples, sampleRate, region));
    if heard.Some? && Splits(heard.value.segments, region, hinted, isFake, depth) {
      var p := SplitPoint(heard.value.segments, region);
      var a, b := Region(region.startMs, p), Region(p, region.endMs);
      var left := Recurse(asr, isFake, samples, sampleRate, a, false, depth + 1, calls + 1);
      var right := Recurse(asr, isFake, samples, sampleRate, b, false, depth + 1, left.calls);
      FanOut(asr, isFake, samples, sampleRate, a, false, depth + 1, calls + 1);
      FanOut(asr, isFake, samples, sampleRate, b, false, depth + 1, left.calls);
      SplitFanOut(asr, isFake, samples, sampleRate, region, hinted, depth, calls, left, right);
    } else {
      LeafFanOut(asr, isFake, samples, sampleRate, region, hinted, depth, calls);
    }
  }

  lemma LeafFanOut(asr: Asr, isFake: bool, samples: seq<real>, sampleRate: nat, region: Region, hinted: bool,
                   depth: nat, calls: nat)
    requires var heard := asr(calls, SliceFor(samples, sampleRate, region));
      heard.Some? ==> !Splits(heard.value.segments, region, hinted, isFake, depth)
    ensures var r := Recurse(asr, isFake, samples, sampleRate, region, hinted, depth, calls);
            r.calls <= calls + MaxCalls(depth) && (r.Got? ==> |r.leaves| <= MaxLeaves(depth))
  {
  }

  lemma SplitFanOut(asr: Asr, isFake: bool, samples: seq<real>, sampleRate: nat, region: Region, hinted: bool,
                    depth: nat, calls: nat, left: Answer, right: Answer)
    requires var heard := asr(calls, SliceFor(samples, sampleRate, region));
      heard.Some? && Splits(heard.value.segments, region, hinted, isFake, depth)
      && var p := SplitPoint(heard.value.segments, region);
      left == Recurse(asr, isFake, samples, sampleRate, Region(region.startMs, p), false, depth + 1, calls + 1)
      && right == Recurse(asr, isFake, samples, sampleRate, Region(p, region.endMs), false, depth + 1, left.calls)
    requires left.calls <= calls + 1 + MaxCalls(depth + 1) && (left.Got? ==> |left.leaves| <= MaxLeaves(depth + 1))
    requires right.calls <= left.calls + MaxCalls(depth + 1) && (right.Got? ==> |right.leaves| <= MaxLeaves(depth + 1))
    ensures var r := Recurse(asr, isFake, samples, sampleRate, region, hinted, depth, calls);
            r.calls <= calls + MaxCalls(depth) && (r.Got? ==> |r.leaves| <= MaxLeaves(depth))
  {
    SplitAnswer(asr, isFake, samples, sampleRate, region, hinted, depth, calls, left, right);
    assert MaxCalls(depth) == 1 + 2 * MaxCalls(depth + 1) && MaxLeaves(depth) == 2 * MaxLeaves(depth + 1);
  }

  /** What a split region answers, from the answers of its parts. */
  lemma SplitAnswer(asr: Asr, isFake: bool, samples: seq<real>, sampleRate: nat, region: Region, hinted: bool,
                    depth: nat, calls: nat, left: Answer, right: Answer)
    requires var heard := asr(calls, SliceFor(samples, sampleRate, region));
      heard.Some? && Splits(heard.value.segments, region, hinted, isFake, depth)
      && var p := SplitPoint(heard.value.segments, region);
      left == Recurse(asr, isFake, samples, sampleRate, Region(region.startMs, p), false, depth + 1, calls + 1)
      && right == Recurse(asr, isFake, samples, sampleRate, Region(p, region.endMs), false, depth + 1, left.calls)
    ensures var r := Recurse(asr, isFake, samples, sampleRate, region, hinted, depth, calls);
      && r.calls == (if left.Failed? then left.calls else right.calls)
      && (r.Got? ==> left.Got? && right.Got?
                     && r.segments == left.segments + right.segments && r.leaves == left.leaves + right.leaves)
  {
  }

  /** For every recogniser: at most 15 calls and 8 leaves. */
  lemma AtMostFifteenCalls(asr: Asr, isFake: bool, samples: seq<real>, sampleRate: nat, region: Region, hinted: bool,
                           calls: nat)
    ensures var r := Recurse(asr, isFake, samples, sampleRate, region, hinted, 0, calls);
            r.calls - calls <= 15 && (r.Got? ==> |r.leaves| <= 8)
  {
    FanOut(asr, isFake, samples, sampleRate, region, hinted, 0, calls);
    assert MaxCalls(2) == 3 && MaxCalls(1) == 7 && MaxCalls(0) == 15;
    assert MaxLeaves(2) == 2 && MaxLeaves(1) == 4 && MaxLeaves(0) == 8;
  }

  // -------------------------------------------------------------------- tiling

  /** The leaves lie end to end over the region; several leaves are all long. */
  ghost predicate Tiles(leaves: seq<Leaf>, region: Region)
  {
    && leaves != []
    && leaves[0].region.startMs == region.startMs
    && leaves[|leaves| - 1].region.endMs == region.endMs
    && (forall i | 0 <= i < |leaves| - 1 :: leaves[i].region.endMs == leaves[i + 1].region.startMs)
    && (|leaves| > 1 ==> forall i | 0 <= i < |leaves| ::
          leaves[i].region.startMs + MIN_REGION_MS <= leaves[i].region.endMs)
  }

  lemma {:induction false} LeavesTile(asr: Asr, isFake: bool, samples: seq<real>, sampleRate: nat, region: Region,
                                      hinted: bool, depth: nat, calls: nat)
    ensures var r := Recurse(asr, isFake, samples, sampleRate, region, hinted, depth, calls);
            r.Got? ==> Tiles(r.leaves, region)
    decreases MAX_DEPTH - depth
  {
    var heard := asr(calls, SliceFor(samples, sampleRate, region));
    if heard.Some? && Splits(heard.value.segments, region, hinted, isFake, depth) {
      var p := SplitPoint(heard.value.segments, region);
      var a, b := Region(region.startMs, p), Region(p, region.endMs);
      var left := Recurse(asr, isFake, samples, sampleRate, a, false, depth + 1, calls + 1);
      LeavesTile(asr, isFake, samples, sampleRate, a, false, depth + 1, calls + 1);
      if left.Got? {
        var right := Recurse(asr, isFake, samples, sampleRate, b, false, depth + 1, left.calls);
        LeavesTile(asr, isFake, samples, sampleRate, b, false, depth + 1, left.calls);
        if right.Got? {
          TilesJoin(left.leaves, right.leaves, a, b);
        }
      }
    }
  }

  lemma TilesJoin(left: seq<Leaf>, right: seq<Leaf>, a: Region, b: Region)
    requires Tiles(left, a) && Tiles(right, b) && a.endMs == b.startMs
    requires a.startMs + MIN_REGION_MS <= a.endMs && b.startMs + MIN_REGION_MS <= b.endMs
    ensures Tiles(left + right, Region(a.startMs, b.endMs))
  {
    var all := left + right;
    forall i | 0 <= i < |all| - 1
      ensures all[i].region.endMs == all[i + 1].region.startMs
    {
      if i < |left| - 1 {
        assert left[i].region.endMs == left[i + 1].region.startMs;
      } else if i >= |left| {
        assert right[i - |left|].region.endMs == right[i - |left| + 1].region.startMs;
      }
    }
  }

  function Slices(leaves: seq<Leaf>, samples: seq<real>, sampleRate: nat): (r: seq<real>)
  {
    if leaves == [] then []
    else SliceFor(samples, sampleRate, leaves[0].region) + Slices(leaves[1..], samples, sampleRate)
  }

  lemma SampleIndexMonotone(a: nat, b: nat, sampleRate: nat, len: nat)
    requires a <= b
    ensures SampleIndex(a, sampleRate, len) <= SampleIndex(b, sampleRate, len)
  {
    assert a * sampleRate <= b * sampleRate;
  }

  lemma SlicesJoin(samples: seq<real>, sampleRate: nat, a: nat, b: nat, c: nat)
    requires a <= b <= c
    ensures SliceFor(samples, sampleRate, Region(a, b)) + SliceFor(samples, sampleRate, Region(b, c))
         == SliceFor(samples, sampleRate, Region(a, c))
  {
    SampleIndexMonotone(a, b, sampleRate, |samples|);
    SampleIndexMonotone(b, c, sampleRate, |samples|);
  }

  lemma TilesTail(leaves: seq<Leaf>, region: Region)
    requires Tiles(leaves, region) && |leaves| > 1
    ensures Tiles(leaves[1..], Region(leaves[0].region.endMs, region.endMs))
  {
    assert leaves[0].region.endMs == leaves[0 + 1].region.startMs;
    forall i | 0 <= i < |leaves| - 2
      ensures leaves[1..][i].region.endMs == leaves[1..][i + 1].region.startMs
    {
      assert leaves[i + 1].region.endMs == leaves[i + 1 + 1].region.startMs;
    }
  }

  /** The leaves' chunks, one after the other, are the region's own chunk: each
      sample is heard in exactly one leaf. */
  lemma {:induction false} LeavesCoverSamples(leaves: seq<Leaf>, region: Region, samples: seq<real>, sampleRate: nat)
    requires Tiles(leaves, region)
    ensures Slices(leaves, samples, sampleRate) == SliceFor(samples, sampleRate, region)
    decreases |leaves|
  {
    var first := leaves[0].region;
    if |leaves| == 1 {
      assert Slices(leaves[1..], samples, sampleRate) == [];
    } else {
      var rest := Region(first.endMs, region.endMs);
      TilesTail(leaves, region);
      LeavesCoverSamples(leaves[1..], rest, samples, sampleRate);
      TilesForward(leaves[1..], rest);
      SlicesJoin(samples, sampleRate, first.startMs, first.endMs, region.endMs);
    }
  }

  lemma {:induction false} TilesForward(leaves: seq<Leaf>, region: Region)
    requires Tiles(leaves, region)
    requires forall i | 0 <= i < |leaves| :: leaves[i].region.startMs <= leaves[i].region.endMs
    ensures region.startMs <= region.endMs
    decreases |leaves|
  {
    if |leaves| > 1 {
      TilesTail(leaves, region);
      TilesForward(leaves[1..], Region(leaves[0].region.endMs, region.endMs));
    }
  }

  // ---------------------------------------------------------------- the segments

  /** What a leaf contributes. */
  function LeafSegments(asr: Asr, samples: seq<real>, sampleRate: nat, leaf: Leaf): (r: seq<Segment>)
  {
    var heard := asr(leaf.call, SliceFor(samples, sampleRate, leaf.region));
    if heard.Some? then OffsetAll(heard.value.segments, leaf.region) else []
  }

  function AllLeafSegments(asr: Asr, samples: seq<real>, sampleRate: nat, leaves: seq<Leaf>): (r: seq<Segment>)
  {
    if leaves == [] then []
    else LeafSegments(asr, samples, sampleRate, leaves[0]) + AllLeafSegments(asr, samples, sampleRate, leaves[1..])
  }

  lemma {:induction false} LeafSegmentsJoin(asr: Asr, samples: seq<real>, sampleRate: nat, a: seq<Leaf>, b: seq<Leaf>)
    ensures AllLeafSegments(asr, samples, sampleRate, a + b)
         == AllLeafSegments(asr, samples, sampleRate, a) + AllLeafSegments(asr, samples, sampleRate, b)
  {
    if a == [] {
      assert a + b == b;
    } else {
      assert (a + b)[1..] == a[1..] + b;
      LeafSegmentsJoin(asr, samples, sampleRate, a[1..], b);
    }
  }

  /** The answer is the leaves' answers, in order, and nothing else. */
  lemma {:induction false} AnswerIsLeaves(asr: Asr, isFake: bool, samples: seq<real>, sampleRate: nat, region: Region,
                                          hinted: bool, depth: nat, calls: nat)
    ensures var r := Recurse(asr, isFake, samples, sampleRate, region, hinted, depth, calls);
            r.Got? ==> r.segments == AllLeafSegments(asr, samples, sampleRate, r.leaves)
    decreases MAX_DEPTH - depth
  {
    var r := Recurse(asr, isFake, samples, sampleRate, region, hinted, depth, calls);
    var heard := asr(calls, SliceFor(samples, sampleRate, region));
    if heard.Some? && Splits(heard.value.segments, region, hinted, isFake, depth) {
      var p := SplitPoint(heard.value.segments, region);
      var a, b := Region(region.startMs, p), Region(p, region.endMs);
      var left := Recurse(asr, isFake, samples, sampleRate, a, false, depth + 1, calls + 1);
      AnswerIsLeaves(asr, isFake, samples, sampleRate, a, false, depth + 1, calls + 1);
      if left.Got? {
        var right := Recurse(asr, isFake, samples, sampleRate, b, false, depth + 1, left.calls);
        AnswerIsLeaves(asr, isFake, samples, sampleRate, b, false, depth + 1, left.calls);
        if right.Got? {
          LeafSegmentsJoin(asr, samples, sampleRate, left.leaves, right.leaves);
        }
      }
    } else if heard.Some? {
      var leaf := Leaf(region, calls);
      assert [leaf][1..] == [];
      assert LeafSegments(asr, samples, sampleRate, leaf) + [] == LeafSegments(asr, samples, sampleRate, leaf);
    }
  }

  /** Sorted, non-overlapping and within [lo, hi]. */
  ghost predicate OrderedIn(segments: seq<Segment>, lo: nat, hi: nat)
  {
    && (forall i | 0 <= i < |segments| :: lo <= segments[i].startMs <= segments[i].endMs <= hi)
    && (forall i, j | 0 <= i < j < |segments| :: segments[i].endMs <= segments[j].startMs)
  }

  ghost predicate Ordered(segments: seq<Segment>)
  {
    && (forall i | 0 <= i < |segments| :: segments[i].startMs <= segments[i].endMs)
    && (forall i, j | 0 <= i < j < |segments| :: segments[i].endMs <= segments[j].startMs)
  }

  /** Every answer of the recogniser is sorted and free of overlap. */
  ghost predicate OrderedAnswers(asr: Asr)
  {
    forall n, chunk :: asr(n, chunk).Some? ==> Ordered(asr(n, chunk).value.segments)
  }

  lemma OffsetOrdered(segments: seq<Segment>, region: Region)
    requires Ordered(segments) && region.WellFormed()
    ensures OrderedIn(OffsetAll(segments, region), region.startMs, region.endMs)
  {
  }

  lemma OrderedJoin(a: seq<Segment>, b: seq<Segment>, lo: nat, mid: nat, mid': nat, hi: nat)
    requires OrderedIn(a, lo, mid) && OrderedIn(b, mid', hi) && lo <= mid <= mid' <= hi
    ensures OrderedIn(a + b, lo, hi)
  {
  }

  /** A split region, from the answers of its parts. */
  lemma SplitOrdered(asr: Asr, isFake: bool, samples: seq<real>, sampleRate: nat, region: Region, hinted: bool,
                    depth: nat, calls: nat, left: Answer, right: Answer)
    requires var heard := asr(calls, SliceFor(samples, sampleRate, region));
      heard.Some? && Splits(heard.value.segments, region, hinted, isFake, depth)
      && var p := SplitPoint(heard.value.segments, region);
      left == Recurse(asr, isFake, samples, sampleRate, Region(region.startMs, p), false, depth + 1, calls + 1)
      && right == Recurse(asr, isFake, samples, sampleRate, Region(p, region.endMs), false, depth + 1, left.calls)
      && (left.Got? ==> OrderedIn(left.segments, region.startMs, p))
      && (right.Got? ==> OrderedIn(right.segments, p, region.endMs))
    ensures var r := Recurse(asr, isFake, samples, sampleRate, region, hinted, depth, calls);
      r.Got? ==> OrderedIn(r.segments, region.startMs, region.endMs)
  {
    SplitAnswer(asr, isFake, samples, sampleRate, region, hinted, depth, calls, left, right);
    if left.Got? && right.Got? {
      var p := SplitPoint(asr(calls, SliceFor(samples, sampleRate, region)).value.segments, region);
      OrderedJoin(left.segments, right.segments, region.startMs, p, p, region.endMs);
    }
  }

  lemma {:induction false} RegionOrdered(asr: Asr, isFake: bool, samples: seq<real>, sampleRate: nat, region: Region,
                                         hinted: bool, depth: nat, calls: nat)
    requires OrderedAnswers(asr) && region.WellFormed()
    ensures var r := Recurse(asr, isFake, samples, sampleRate, region, hinted, depth, calls);
            r.Got? ==> OrderedIn(r.segments, region.startMs, region.endMs)
    decreases MAX_DEPTH - depth
  {
    var heard := asr(calls, SliceFor(samples, sampleRate, region));
    if heard.Some? && Splits(heard.value.segments, region, hinted, isFake, depth) {
      var p := SplitPoint(heard.value.segments, region);
      var a, b := Region(region.startMs, p), Region(p, region.endMs);
      var left := Recurse(asr, isFake, samples, sampleRate, a, false, depth + 1, calls + 1);
      var right := Recurse(asr, isFake, samples, sampleRate, b, false, depth + 1, left.calls);
      RegionOrdered(asr, isFake, samples, sampleRate, a, false, depth + 1, calls + 1);
      RegionOrdered(asr, isFake, samples, sampleRate, b, false, depth + 1, left.calls);
      SplitOrdered(asr, isFake, samples, sampleRate, region, hinted, depth, calls, left, right);
    } else {
      LeafOrdered(asr, isFake, samples, sampleRate, region, hinted, depth, calls);
    }
  }

  lemma LeafOrdered(asr: Asr, isFake: bool, samples: seq<real>, sampleRate: nat, region: Region, hinted: bool,
                    depth: nat, calls: nat)
    requires region.WellFormed()
    requires var heard := asr(calls, SliceFor(samples, sampleRate, region));
      heard.Some? ==> Ordered(heard.value.segments) && !Splits(heard.value.segments, region, hinted, isFake, depth)
    ensures var r := Recurse(asr, isFake, samples, sampleRate, region, hinted, depth, calls);
            r.Got? ==> OrderedIn(r.segments, region.startMs, region.endMs)
  {
    var heard := asr(calls, SliceFor(samples, sampleRate, region));
    if heard.Some? {
      OffsetOrdered(heard.value.segments, region);
    }
  }

  // -------------------------------------------------------------------- stitching

  function TotalMs(samples: seq<real>, sampleRate: nat): (ms: nat)
    requires sampleRate > 0
  {
    |samples| * 1000 / sampleRate
  }

  /** What the stitching loop adds up to, region by region: answers in order, the
      first model heard, the first failure. */
  function Stitch(asr: Asr, isFake: bool, samples: seq<real>, sampleRate: nat, regions: seq<Region>, hinted: bool,
                  calls: nat): (r: Answer)
    requires sampleRate > 0
    decreases |regions|
  {
    if regions == [] then Got([], None, calls, []) else
    var clamped := regions[0].ClampTo(TotalMs(samples, sampleRate));
    if clamped.startMs >= clamped.endMs then Stitch(asr, isFake, samples, sampleRate, regions[1..], hinted, calls)
    else
      var first := Recurse(asr, isFake, samples, sampleRate, clamped, hinted, 0, calls);
      if first.Failed? then first
      else Append(first, Stitch(asr, isFake, samples, sampleRate, regions[1..], hinted, first.calls))
  }

  function Append(first: Answer, rest: Answer): (r: Answer)
    requires first.Got?
  {
    if rest.Failed? then rest
    else Got(first.segments + rest.segments, Or(first.model, rest.model), rest.calls, first.leaves + rest.leaves)
  }

  lemma AppendAssociative(a: Answer, b: Answer, c: Answer)
    requires a.Got? && b.Got?
    ensures Append(a, Append(b, c)) == Append(Append(a, b), c)
  {
    if c.Got? {
      assert a.segments + (b.segments + c.segments) == (a.segments + b.segments) + c.segments;
      assert a.leaves + (b.leaves + c.leaves) == (a.leaves + b.leaves) + c.leaves;
    }
  }

  lemma AppendEmpty(a: Answer)
    requires a.Got?
    ensures Append(a, Got([], None, a.calls, [])) == a
  {
    assert a.segments + [] == a.segments && a.leaves + [] == a.leaves;
  }

  /** `transcribe_with_vad` after loading: merge, clamp, recurse, stitch. */
  method TranscribeWithVad(asr: Asr, isFake: bool, samples: seq<real>, sampleRate: nat, regions: seq<Region>,
                           hinted: bool)
      returns (r: Option<Transcript>, merged: seq<Region>)
    requires sampleRate > 0
    ensures AllWellFormed(regions) ==> IsMerge(regions, 5_000, merged)
    ensures match Stitch(asr, isFake, samples, sampleRate, merged, hinted, 0)
            case Failed(_) => r == None
            case Got(segments, model, _, _) =>
              r == Some(Transcript(if model.Some? then model.value else "vad-multilingual", segments))
  {
    var parts := MergeAdjacentRegions(regions, 5_000);
    merged := parts;
    var stitched: seq<Segment> := [];
    var stitchedModel: Option<string> := None;
    var totalMs := |samples| * 1000 / sampleRate;
    var calls := 0;
    ghost var whole := Stitch(asr, isFake, samples, sampleRate, parts, hinted, 0);
    ghost var leaves: seq<Leaf> := [];
    assert parts[0..] == parts;
    AppendLeftEmpty(whole);
    for i := 0 to |parts|
      invariant Append(Got(stitched, stitchedModel, calls, leaves),
                       Stitch(asr, isFake, samples, sampleRate, parts[i..], hinted, calls)) == whole
    {
      var clamped := parts[i].ClampTo(totalMs);
      assert parts[i..][1..] == parts[i + 1..];
      if clamped.startMs >= clamped.endMs {
        continue;
      }
      var answer := Recurse(asr, isFake, samples, sampleRate, clamped, hinted, 0, calls);
      if answer.Failed? {
        return None, merged;
      }
      AppendAssociative(Got(stitched, stitchedModel, calls, leaves), answer,
                        Stitch(asr, isFake, samples, sampleRate, parts[i + 1..], hinted, answer.calls));
      if stitchedModel.None? {
        stitchedModel := answer.model;
      }
      stitched := stitched + answer.segments;
      leaves := leaves + answer.leaves;
      calls := answer.calls;
    }
    AppendEmpty(Got(stitched, stitchedModel, calls, leaves));
    var model := if stitchedModel.Some? then stitchedModel.value else "vad-multilingual";
    r := Some(Transcript(model, stitched));
  }

  lemma AppendLeftEmpty(a: Answer)
    ensures Append(Got([], None, 0, []), a) == a
  {
    if a.Got? {
      assert [] + a.segments == a.segments && [] + a.leaves == a.leaves;
    }
  }

  /** For separated regions and ordered answers, the stitched transcript is
      sorted, free of overlap, and inside the recording. */
  lemma {:induction false} StitchedIsOrdered(asr: Asr, isFake: bool, samples: seq<real>, sampleRate: nat,
                                             regions: seq<Region>, hinted: bool, calls: nat, lo: nat)
    requires sampleRate > 0 && OrderedAnswers(asr) && Separated(regions, 5_000)
    requires lo <= TotalMs(samples, sampleRate)
    requires regions != [] ==> lo <= regions[0].ClampTo(TotalMs(samples, sampleRate)).startMs
    ensures var r := Stitch(asr, isFake, samples, sampleRate, regions, hinted, calls);
            r.Got? ==> OrderedIn(r.segments, lo, TotalMs(samples, sampleRate))
    decreases |regions|
  {
    if regions != [] {
      var total := TotalMs(samples, sampleRate);
      var clamped, rest := regions[0].ClampTo(total), regions[1..];
      assert regions[0].WellFormed();
      assert Separated(rest, 5_000);
      assert |rest| > 0 ==> clamped.endMs <= rest[0].ClampTo(total).startMs;
      if clamped.startMs >= clamped.endMs {
        StitchedIsOrdered(asr, isFake, samples, sampleRate, rest, hinted, calls, lo);
      } else {
        var answer := Recurse(asr, isFake, samples, sampleRate, clamped, hinted, 0, calls);
        RegionOrdered(asr, isFake, samples, sampleRate, clamped, hinted, 0, calls);
        if answer.Got? {
          StitchedIsOrdered(asr, isFake, samples, sampleRate, rest, hinted, answer.calls, clamped.endMs);
          var tail := Stitch(asr, isFake, samples, sampleRate, rest, hinted, answer.calls);
          if tail.Got? {
            OrderedJoin(answer.segments, tail.segments, clamped.startMs, clamped.endMs, clamped.endMs, total);
          }
        }
      }
    }
  }

  /** End to end: regions in any order, merged by any correct merge. */
  lemma TranscriptOrdered(asr: Asr, isFake: bool, samples: seq<real>, sampleRate: nat, regions: seq<Region>,
                          merged: seq<Region>, hinted: bool)
    requires sampleRate > 0 && OrderedAnswers(asr) && IsMerge(regions, 5_000, merged)
    ensures var r := Stitch(asr, isFake, samples, sampleRate, merged, hinted, 0);
            r.Got? ==> OrderedIn(r.segments, 0, TotalMs(samples, sampleRate))
  {
    StitchedIsOrdered(asr, isFake, samples, sampleRate, merged, hinted, 0, 0);
  }

  /** At most 15 calls for every merged region. */
  lemma {:induction false} StitchCalls(asr: Asr, isFake: bool, samples: seq<real>, sampleRate: nat,
                                       regions: seq<Region>, hinted: bool, calls: nat)
    requires sampleRate > 0
    ensures Stitch(asr, isFake, samples, sampleRate, regions, hinted, calls).calls <= calls + 15 * |regions|
    decreases |regions|
  {
    if regions != [] {
      var clamped := regions[0].ClampTo(TotalMs(samples, sampleRate));
      if clamped.startMs >= clamped.endMs {
        StitchCalls(asr, isFake, samples, sampleRate, regions[1..], hinted, calls);
      } else {
        var answer := Recurse(asr, isFake, samples, sampleRate, clamped, hinted, 0, calls);
        AtMostFifteenCalls(asr, isFake, samples, sampleRate, clamped, hinted, calls);
        StitchCalls(asr, isFake, samples, sampleRate, regions[1..], hinted, answer.calls);
      }
    }
  }
}
