/** What is heard, when a region is split, and what is stitched. */
module TranscriptionSteps {
  import opened Numbers
  import opened Options
  import opened Regions
  import opened Transcription

  // --------------------------------------------------------------------- what is heard

  /** Sample k, counted from 0, takes the time from k to k + 1 samples, each a second over
      the rate. It is heard with a region when it ends after the start of the region and
      no later than its end; times are in thousandths of a sample. */
  predicate HeardWith(region: Region, sampleRate: nat, k: nat)
  {
    region.startMs * sampleRate < 1000 * (k + 1) <= region.endMs * sampleRate
  }

  /** A region's chunk is exactly the samples that are heard with it, in order. */
  lemma RegionHears(samples: seq<real>, sampleRate: nat, region: Region) returns (a: nat, b: nat)
    requires |samples| * 1000 <= 0xFFFF_FFFF_FFFF_FFFF
    ensures a <= b <= |samples| && SliceFor(samples, sampleRate, region) == samples[a..b]
    ensures forall k | 0 <= k < |samples| :: HeardWith(region, sampleRate, k) <==> a <= k < b
    ensures region.startMs == 0 ==> a == 0
  {
    var len := |samples|;
    a := SampleIndex(region.startMs, sampleRate, len);
    b := Max(SampleIndex(region.endMs, sampleRate, len), a);
    forall k | 0 <= k < len
      ensures HeardWith(region, sampleRate, k) <==> a <= k < b
    {
      IndexBelow(region.startMs, sampleRate, len, k);
      IndexBelow(region.endMs, sampleRate, len, k);
    }
    if region.startMs == 0 {
      assert 0 * sampleRate == 0;
    }
  }

  lemma QuotientBelow(x: nat, k: nat)
    ensures x / 1000 <= k <==> x < 1000 * (k + 1)
    ensures k < x / 1000 <==> 1000 * (k + 1) <= x
  {
  }

  lemma IndexBelow(ms: nat, sampleRate: nat, len: nat, k: nat)
    requires k < len && len * 1000 <= 0xFFFF_FFFF_FFFF_FFFF
    ensures SampleIndex(ms, sampleRate, len) <= k <==> ms * sampleRate < 1000 * (k + 1)
  {
    QuotientBelow(ms * sampleRate, k);
    QuotientBelow(0xFFFF_FFFF_FFFF_FFFF, k);
  }

  /** The length in whole milliseconds. */
  lemma TotalIs(samples: seq<real>, sampleRate: nat)
    requires sampleRate > 0
    ensures var total := TotalMs(samples, sampleRate);
      total * sampleRate <= |samples| * 1000 < (total + 1) * sampleRate
  {
    var x, total := |samples| * 1000, |samples| * 1000 / sampleRate;
    assert x == total * sampleRate + x % sampleRate;
  }

  /** From zero to that length everything is heard but what ends after it. */
  lemma WholeHears(samples: seq<real>, sampleRate: nat) returns (b: nat)
    requires sampleRate > 0 && |samples| * 1000 <= 0xFFFF_FFFF_FFFF_FFFF
    ensures b <= |samples| && SliceFor(samples, sampleRate, Region(0, TotalMs(samples, sampleRate))) == samples[..b]
    ensures 1000 * b <= TotalMs(samples, sampleRate) * sampleRate
    ensures b < |samples| ==> TotalMs(samples, sampleRate) * sampleRate < 1000 * (b + 1)
  {
    var a;
    var whole := Region(0, TotalMs(samples, sampleRate));
    a, b := RegionHears(samples, sampleRate, whole);
    assert 0 * sampleRate == 0;
    if b < |samples| {
      assert !HeardWith(whole, sampleRate, b);
    }
    if b > 0 {
      assert HeardWith(whole, sampleRate, b - 1);
    }
  }

  // ------------------------------------------------------------------ one region at a time

  /** The answer for a region is not taken apart: with a language given, when nothing was
      heard, after three splits, below twenty seconds, or when every segment is certain and
      the region is at most thirty seconds long, or of any length for a fake. */
  predicate StaysWhole(segments: seq<Segment>, region: Region, hinted: bool, isFake: bool, depth: nat)
  {
    || hinted || segments == [] || depth >= 3 || region.endMs < region.startMs + 20_000
    || ((forall i | 0 <= i < |segments| :: segments[i].confidence >= 0.5)
        && (isFake || region.endMs <= region.startMs + 30_000))
  }

  lemma StaysIff(segments: seq<Segment>, region: Region, hinted: bool, isFake: bool, depth: nat)
    ensures Splits(segments, region, hinted, isFake, depth) <==> !StaysWhole(segments, region, hinted, isFake, depth)
  {
    if segments != [] {
      assert (forall i | 0 <= i < |segments| :: segments[i].confidence >= 0.5)
         <==> segments[WorstIndex(segments)].confidence >= 0.5;
    }
  }

  /** A segment put where its region is: shifted by the start, cut at the end. */
  predicate Placed(out: Segment, seg: Segment, region: Region)
  {
    && out.text == seg.text && out.confidence == seg.confidence
    && var start, end := seg.startMs + region.startMs, seg.endMs + region.startMs;
       && out.startMs == (if start <= region.endMs then start else region.endMs)
       && out.endMs == (if end <= region.endMs then end else region.endMs)
  }

  /** The recogniser fails: so does the region, after that one call. */
  lemma RegionFails(asr: Asr, isFake: bool, samples: seq<real>, sampleRate: nat, region: Region, hinted: bool,
                    depth: nat, calls: nat)
    requires asr(calls, SliceFor(samples, sampleRate, region)).None?
    ensures Recurse(asr, isFake, samples, sampleRate, region, hinted, depth, calls) == Failed(calls + 1)
  {
  }

  /** A region that stays whole: its segments, put in place, and the model that heard them. */
  lemma RegionStays(asr: Asr, isFake: bool, samples: seq<real>, sampleRate: nat, region: Region, hinted: bool,
                    depth: nat, calls: nat)
    requires var heard := asr(calls, SliceFor(samples, sampleRate, region));
      heard.Some? && StaysWhole(heard.value.segments, region, hinted, isFake, depth)
    ensures var heard := asr(calls, SliceFor(samples, sampleRate, region)).value;
      var r := Recurse(asr, isFake, samples, sampleRate, region, hinted, depth, calls);
      && r.Got? && r.calls == calls + 1 && r.leaves == [Leaf(region, calls)]
      && r.model == (if heard.segments == [] then None else Some(heard.model))
      && |r.segments| == |heard.segments|
      && forall i | 0 <= i < |heard.segments| :: Placed(r.segments[i], heard.segments[i], region)
  {
    StaysIff(asr(calls, SliceFor(samples, sampleRate, region)).value.segments, region, hinted, isFake, depth);
  }

  /** Any other region: cut in two at least ten seconds from both ends, heard again half by
      half, one deeper and without a language; the halves' segments one after the other,
      the model of the whole, or the first failure. */
  lemma RegionSplits(asr: Asr, isFake: bool, samples: seq<real>, sampleRate: nat, region: Region, hinted: bool,
                     depth: nat, calls: nat) returns (p: nat, left: Answer, right: Answer)
    requires var heard := asr(calls, SliceFor(samples, sampleRate, region));
      heard.Some? && !StaysWhole(heard.value.segments, region, hinted, isFake, depth)
    ensures region.startMs + 10_000 <= p <= region.endMs - 10_000
    ensures CutAt(asr(calls, SliceFor(samples, sampleRate, region)).value.segments, region, p)
    ensures left == Recurse(asr, isFake, samples, sampleRate, Region(region.startMs, p), false, depth + 1, calls + 1)
    ensures right == Recurse(asr, isFake, samples, sampleRate, Region(p, region.endMs), false, depth + 1, left.calls)
    ensures var r := Recurse(asr, isFake, samples, sampleRate, region, hinted, depth, calls);
      if left.Failed? then r == left
      else if right.Failed? then r == right
      else
        r == Got(left.segments + right.segments,
                 Some(asr(calls, SliceFor(samples, sampleRate, region)).value.model), right.calls,
                 left.leaves + right.leaves)
  {
    var segments := asr(calls, SliceFor(samples, sampleRate, region)).value.segments;
    StaysIff(segments, region, hinted, isFake, depth);
    p := SplitPoint(segments, region);
    CutIs(segments, region);
    left := Recurse(asr, isFake, samples, sampleRate, Region(region.startMs, p), false, depth + 1, calls + 1);
    right := Recurse(asr, isFake, samples, sampleRate, Region(p, region.endMs), false, depth + 1, left.calls);
  }

  /** Where the cut goes: to the start of the first segment of least confidence when that
      is below one half, moved no further than the ten seconds ask; else to the middle. */
  predicate CutAt(segments: seq<Segment>, region: Region, p: nat)
    requires segments != [] && region.startMs + 20_000 <= region.endMs
  {
    var k := WorstIndex(segments);
    var wanted := segments[k].startMs + region.startMs;
    if segments[k].confidence < 0.5 then
      if wanted < region.startMs + 10_000 then p == region.startMs + 10_000
      else if wanted > region.endMs - 10_000 then p == region.endMs - 10_000
      else p == wanted
    else p == region.startMs + (region.endMs - region.startMs) / 2
  }

  lemma CutIs(segments: seq<Segment>, region: Region)
    requires segments != [] && region.startMs + 20_000 <= region.endMs
    ensures CutAt(segments, region, SplitPoint(segments, region))
  {
  }

  // ---------------------------------------------------------------------------- stitching

  /** The regions one after the other, each cut to the length of the recording. */
  lemma StitchingGoesOn(asr: Asr, isFake: bool, samples: seq<real>, sampleRate: nat, region: Region,
                        rest: seq<Region>, hinted: bool, calls: nat)
    requires sampleRate > 0
    ensures var r := Stitch(asr, isFake, samples, sampleRate, [region] + rest, hinted, calls);
      var total := |samples| * 1000 / sampleRate;
      var lo, hi := if region.startMs <= total then region.startMs else total,
                    if region.endMs <= total then region.endMs else total;
      if lo >= hi then r == Stitch(asr, isFake, samples, sampleRate, rest, hinted, calls)
      else
        var first := Recurse(asr, isFake, samples, sampleRate, Region(lo, hi), hinted, 0, calls);
        if first.Failed? then r == first
        else
          var later := Stitch(asr, isFake, samples, sampleRate, rest, hinted, first.calls);
          if later.Failed? then r == later
          else
            r == Got(first.segments + later.segments, if first.model.Some? then first.model else later.model,
                     later.calls, first.leaves + later.leaves)
  {
    assert ([region] + rest)[1..] == rest;
  }

  lemma StitchingEnds(asr: Asr, isFake: bool, samples: seq<real>, sampleRate: nat, hinted: bool, calls: nat)
    requires sampleRate > 0
    ensures Stitch(asr, isFake, samples, sampleRate, [], hinted, calls) == Got([], None, calls, [])
  {
  }
}
