/** The screenshot gate and the extractor. */
module ChangeDetection {
  import opened Options
  import FileNames

  // The distance between two feature prints is a parameter.

  /** A frame offered to the gate; `features` is its feature print, unless that fails. */
  datatype Sample<V> = Sample(ms: nat, features: Option<V>)

  datatype Settings<!V> = Settings(intervalMs: nat, threshold: real, distance: (V, V) -> real)

  datatype Gate<V> = Gate(lastSampleMs: Option<nat>, lastKept: Option<V>)

  predicate TooSoon<V>(d: Settings<V>, g: Gate<V>, now: nat)
  {
    g.lastSampleMs.Some? && now >= g.lastSampleMs.value && now - g.lastSampleMs.value < d.intervalMs
  }

  predicate Keeps<V>(d: Settings<V>, g: Gate<V>, x: Sample<V>)
  {
    && !TooSoon(d, g, x.ms)
    && x.features.Some?
    && (g.lastKept.Some? ==> d.distance(x.features.value, g.lastKept.value) >= d.threshold)
  }

  function Next<V>(d: Settings<V>, g: Gate<V>, x: Sample<V>): (r: Gate<V>)
  {
    if TooSoon(d, g, x.ms) || x.features.None? then g
    else Gate(Some(x.ms), if Keeps(d, g, x) then x.features else g.lastKept)
  }

  /** Which frames are kept, and what the gate remembers: a frame less than the interval
      after the last sampled one leaves no trace, nor does one without a print; any other
      frame sets the clock, also when it resembles the last kept one, and only a frame that
      is kept becomes the one to compare with. */
  lemma GateMoves<V>(d: Settings<V>, g: Gate<V>, x: Sample<V>)
    ensures var soon := g.lastSampleMs.Some? && g.lastSampleMs.value <= x.ms < g.lastSampleMs.value + d.intervalMs;
      var alike := x.features.Some? && g.lastKept.Some? && d.distance(x.features.value, g.lastKept.value) < d.threshold;
      if soon || x.features.None? then !Keeps(d, g, x) && Next(d, g, x) == g
      else
        && (Keeps(d, g, x) <==> !alike)
        && Next(d, g, x).lastSampleMs == Some(x.ms)
        && Next(d, g, x).lastKept == (if alike then g.lastKept else x.features)
  {
  }

  class ChangeDetector<V> {
    const settings: Settings<V>
    var lastSampleMs: Option<nat>
    var lastKeptVector: Option<V>

    function Now(): (g: Gate<V>)
      reads this
    {
      Gate(lastSampleMs, lastKeptVector)
    }

    constructor (intervalMs: nat, threshold: real, distance: (V, V) -> real)
      ensures Now() == Gate(None, None)
      ensures settings == Settings(if intervalMs >= 1 then intervalMs else 1, threshold, distance)
    {
      settings := Settings(if intervalMs >= 1 then intervalMs else 1, threshold, distance);
      lastSampleMs, lastKeptVector := None, None;
    }

    /** `features` stands for the closure's result: it is looked at only past the interval gate. */
    method ShouldKeep(nowMs: nat, features: Option<V>) returns (keep: bool)
      modifies this
      ensures keep == Keeps(settings, old(Now()), Sample(nowMs, features))
      ensures Now() == Next(settings, old(Now()), Sample(nowMs, features))
    {
      if lastSampleMs.Some? && nowMs >= lastSampleMs.value && nowMs - lastSampleMs.value < settings.intervalMs {
        return false;
      }
      if features.None? {
        return false;
      }
      lastSampleMs := Some(nowMs);
      if lastKeptVector.Some? && settings.distance(features.value, lastKeptVector.value) < settings.threshold {
        return false;
      }
      lastKeptVector := features;
      keep := true;
    }
  }

  // ------------------------------------------------------------------- whole runs

  function GateAfter<V>(d: Settings<V>, samples: seq<Sample<V>>): (g: Gate<V>)
  {
    if samples == [] then Gate(None, None)
    else Next(d, GateAfter(d, samples[..|samples| - 1]), samples[|samples| - 1])
  }

  function Kept<V>(d: Settings<V>, samples: seq<Sample<V>>): (r: seq<Sample<V>>)
  {
    if samples == [] then []
    else
      var before, x := samples[..|samples| - 1], samples[|samples| - 1];
      Kept(d, before) + (if Keeps(d, GateAfter(d, before), x) then [x] else [])
  }

  /** A run, frame by frame: what is kept so far, and one more frame if the gate keeps it. */
  lemma RunGoesOn<V>(d: Settings<V>, before: seq<Sample<V>>, x: Sample<V>)
    ensures GateAfter(d, before + [x]) == Next(d, GateAfter(d, before), x)
    ensures Kept(d, before + [x]) == Kept(d, before) + (if Keeps(d, GateAfter(d, before), x) then [x] else [])
    ensures GateAfter<V>(d, []) == Gate(None, None) && Kept<V>(d, []) == []
  {
    assert (before + [x])[..|before|] == before;
  }

  predicate Nondecreasing<V>(samples: seq<Sample<V>>)
  {
    samples == []
    || (Nondecreasing(samples[..|samples| - 1])
        && (|samples| > 1 ==> samples[|samples| - 2].ms <= samples[|samples| - 1].ms))
  }

  /** Where the gate stands: it remembers the last kept print, and its clock lies
      between the last kept frame and the last frame offered. */
  lemma {:induction false} GateFollows<V>(d: Settings<V>, samples: seq<Sample<V>>)
    requires Nondecreasing(samples)
    ensures forall x | x in Kept(d, samples) :: x in samples && x.features.Some?
    ensures var g, kept := GateAfter(d, samples), Kept(d, samples);
      && (kept == [] <==> g.lastKept.None?)
      && (kept != [] ==>
            g.lastKept == kept[|kept| - 1].features
            && g.lastSampleMs.Some? && kept[|kept| - 1].ms <= g.lastSampleMs.value)
      && (g.lastSampleMs.Some? ==> samples != [] && g.lastSampleMs.value <= samples[|samples| - 1].ms)
      && (g.lastSampleMs.None? ==> g.lastKept.None?)
  {
    if samples != [] {
      GateFollows(d, samples[..|samples| - 1]);
    }
  }

  /** Frame i comes at least the interval after the one kept before it, and differs
      from it by at least the threshold. */
  predicate Apart<V>(d: Settings<V>, kept: seq<Sample<V>>, i: nat)
    requires 0 < i < |kept|
  {
    && kept[i].features.Some? && kept[i - 1].features.Some?
    && kept[i].ms >= kept[i - 1].ms + d.intervalMs
    && d.distance(kept[i].features.value, kept[i - 1].features.value) >= d.threshold
  }

  ghost predicate Spaced<V>(d: Settings<V>, kept: seq<Sample<V>>)
  {
    forall i | 0 < i < |kept| :: Apart(d, kept, i)
  }

  lemma SpacedAppend<V>(d: Settings<V>, kept: seq<Sample<V>>, x: Sample<V>)
    requires Spaced(d, kept)
    requires kept != [] ==> Apart(d, [kept[|kept| - 1], x], 1)
    ensures Spaced(d, kept + [x])
  {
    forall i | 0 < i < |kept| + 1
      ensures Apart(d, kept + [x], i)
    {
      if i < |kept| {
        assert Apart(d, kept, i);
      }
    }
  }

  lemma {:induction false} KeptAreSpaced<V>(d: Settings<V>, samples: seq<Sample<V>>)
    requires Nondecreasing(samples)
    ensures Spaced(d, Kept(d, samples))
  {
    if samples != [] {
      var before, x := samples[..|samples| - 1], samples[|samples| - 1];
      KeptAreSpaced(d, before);
      GateFollows(d, before);
      var g := GateAfter(d, before);
      if Keeps(d, g, x) {
        SpacedAppend(d, Kept(d, before), x);
      } else {
        assert Kept(d, samples) == Kept(d, before);
      }
    }
  }

  function Printed<V>(samples: seq<Sample<V>>): (r: seq<Sample<V>>)
    ensures |r| <= |samples|
  {
    if samples == [] then []
    else
      Printed(samples[..|samples| - 1])
      + (if samples[|samples| - 1].features.Some? then [samples[|samples| - 1]] else [])
  }

  /** Failed feature prints leave no trace: dropping them beforehand gives the same
      gate and the same kept frames. */
  lemma {:induction false} FailedPrintsInvisible<V>(d: Settings<V>, samples: seq<Sample<V>>)
    ensures GateAfter(d, Printed(samples)) == GateAfter(d, samples)
    ensures Kept(d, Printed(samples)) == Kept(d, samples)
  {
    if samples != [] {
      var before, x := samples[..|samples| - 1], samples[|samples| - 1];
      FailedPrintsInvisible(d, before);
      if x.features.Some? {
        assert (Printed(before) + [x])[..|Printed(before)|] == Printed(before);
      } else {
        assert Printed(samples) == Printed(before);
        assert Kept(d, samples) == Kept(d, before);
      }
    }
  }

  /** Frames offered at these times with these feature prints. */
  function Offered<V>(times: seq<nat>, prints: seq<Option<V>>): (r: seq<Sample<V>>)
    requires |times| == |prints|
  {
    seq(|times|, i requires 0 <= i < |times| => Sample(times[i], prints[i]))
  }

  predicate InOrder(times: seq<nat>)
  {
    forall i | 0 < i < |times| :: times[i - 1] <= times[i]
  }

  /** No frame is ever far enough from another to be kept after it. */
  ghost predicate AllAlike<V(!new)>(d: Settings<V>)
  {
    forall v, w :: d.distance(w, v) < d.threshold
  }

  lemma {:induction false} InOrderMeans<V>(samples: seq<Sample<V>>)
    requires forall i | 0 < i < |samples| :: samples[i - 1].ms <= samples[i].ms
    ensures Nondecreasing(samples)
  {
    if samples != [] {
      InOrderMeans(samples[..|samples| - 1]);
    }
  }

  lemma {:induction false} AtMostOneKept<V(!new)>(d: Settings<V>, samples: seq<Sample<V>>)
    requires AllAlike(d)
    ensures |Kept(d, samples)| <= 1
    ensures Kept(d, samples) != [] ==> GateAfter(d, samples).lastKept.Some?
  {
    if samples != [] {
      AtMostOneKept(d, samples[..|samples| - 1]);
    }
  }

  /** Only frames i - 1 and i have prints. */
  lemma {:induction false} TwoPrinted<V>(samples: seq<Sample<V>>, i: nat, n: nat)
    requires 0 < i < |samples| && n <= |samples|
    requires forall k | 0 <= k < |samples| :: samples[k].features.Some? <==> k == i - 1 || k == i
    ensures Printed(samples[..n])
         == if n < i then [] else if n == i then [samples[i - 1]] else [samples[i - 1], samples[i]]
  {
    if n > 0 {
      assert samples[..n][..n - 1] == samples[..n - 1];
      TwoPrinted(samples, i, n - 1);
    }
  }

  /** A clock that goes backwards lets the second of two frames through at once. */
  lemma BackwardsPair<V>(d: Settings<V>, a: Sample<V>, b: Sample<V>)
    requires a.features.Some? && b.features.Some? && b.ms < a.ms
    requires d.distance(b.features.value, a.features.value) >= d.threshold
    ensures !Spaced(d, Kept(d, [a, b]))
  {
    assert [a, b][..1] == [a] && [a][..0] == [];
    assert Kept(d, [a]) == [a];
    assert Kept(d, [a, b]) == [a, b];
    assert !Apart(d, [a, b], 1);
  }

  /** Any step back in the times loses the spacing for some prints. */
  lemma DescentLosesSpacing<V>(d: Settings<V>, times: seq<nat>, i: nat, v: V, w: V) returns (prints: seq<Option<V>>)
    requires 0 < i < |times| && times[i] < times[i - 1] && d.distance(w, v) >= d.threshold
    ensures |prints| == |times| && !Spaced(d, Kept(d, Offered(times, prints)))
  {
    prints := seq(|times|, k => if k == i - 1 then Some(v) else if k == i then Some(w) else None);
    var samples := Offered(times, prints);
    TwoPrinted(samples, i, |samples|);
    assert samples[..|samples|] == samples;
    FailedPrintsInvisible(d, samples);
    BackwardsPair(d, samples[i - 1], samples[i]);
  }

  /** The spacing holds whatever the feature prints are exactly when the times never go
      back, or when no two prints are far enough apart for a second frame to be kept. */
  lemma UnorderedTimes<V(!new)>(d: Settings<V>, times: seq<nat>)
    ensures (forall prints: seq<Option<V>> | |prints| == |times| :: Spaced(d, Kept(d, Offered(times, prints))))
       <==> InOrder(times) || AllAlike(d)
  {
    forall prints: seq<Option<V>> | |prints| == |times| && (InOrder(times) || AllAlike(d))
      ensures Spaced(d, Kept(d, Offered(times, prints)))
    {
      var samples := Offered(times, prints);
      if AllAlike(d) {
        AtMostOneKept(d, samples);
      } else {
        InOrderMeans(samples);
        KeptAreSpaced(d, samples);
      }
    }
    if !InOrder(times) && !AllAlike(d) {
      var i :| 0 < i < |times| && times[i] < times[i - 1];
      var v, w :| d.distance(w, v) >= d.threshold;
      var prints := DescentLosesSpacing(d, times, i, v, w);
    }
  }

  /** Frame i printed and at most the interval before the frame at `now`. */
  predicate Recent<V>(d: Settings<V>, samples: seq<Sample<V>>, i: nat, now: nat)
  {
    i < |samples| && samples[i].features.Some? && samples[i].ms <= now < samples[i].ms + d.intervalMs
  }

  lemma {:induction false} ClockIsASample<V>(d: Settings<V>, samples: seq<Sample<V>>) returns (i: nat)
    requires GateAfter(d, samples).lastSampleMs.Some?
    ensures i < |samples| && samples[i].features.Some? && samples[i].ms == GateAfter(d, samples).lastSampleMs.value
  {
    var before, x := samples[..|samples| - 1], samples[|samples| - 1];
    if TooSoon(d, GateAfter(d, before), x.ms) || x.features.None? {
      i := ClockIsASample(d, before);
    } else {
      i := |samples| - 1;
    }
  }

  /** No frame is dropped without a reason: its print failed, another print was taken
      less than the interval before, or it resembles the last kept frame. */
  lemma DropHasReason<V>(d: Settings<V>, before: seq<Sample<V>>, x: Sample<V>)
    requires Nondecreasing(before + [x])
    requires Kept(d, before + [x]) == Kept(d, before)
    ensures
      || x.features.None?
      || (exists i :: Recent(d, before, i, x.ms))
      || (var kept := Kept(d, before);
          kept != [] && kept[|kept| - 1].features.Some?
          && d.distance(x.features.value, kept[|kept| - 1].features.value) < d.threshold)
  {
    assert (before + [x])[..|before|] == before;
    GateFollows(d, before);
    if TooSoon(d, GateAfter(d, before), x.ms) {
      var i := ClockIsASample(d, before);
      assert Recent(d, before, i, x.ms);
    } else {
      assert Kept(d, before) != Kept(d, before) + [x];
    }
  }

  // ------------------------------------------------------------------ the extractor

  /** What the image generator yields at a mark, and how saving the frame would go. */
  datatype Frame<V> = Undecodable | Decoded(ms: nat, features: Option<V>, encodes: bool, writes: bool)

  function Samples<V>(frames: seq<Frame<V>>): (r: seq<Sample<V>>)
  {
    if frames == [] then []
    else
      var x := frames[|frames| - 1];
      Samples(frames[..|frames| - 1]) + (if x.Decoded? then [Sample(x.ms, x.features)] else [])
  }

  /** Times of the frames that the gate keeps and that are saved. */
  function Saved<V>(d: Settings<V>, frames: seq<Frame<V>>): (r: seq<nat>)
  {
    if frames == [] then []
    else
      var before, x := frames[..|frames| - 1], frames[|frames| - 1];
      Saved(d, before)
      + (if x.Decoded? && Keeps(d, GateAfter(d, Samples(before)), Sample(x.ms, x.features)) && x.encodes && x.writes
         then [x.ms] else [])
  }

  /** The extraction, mark by mark: a frame is saved when it can be decoded, the gate keeps
      it, and it can be encoded and written; the gate sees every frame that is decoded. */
  lemma SavingGoesOn<V>(d: Settings<V>, before: seq<Frame<V>>, x: Frame<V>)
    ensures x.Undecodable? ==>
              Samples(before + [x]) == Samples(before) && Saved(d, before + [x]) == Saved(d, before)
    ensures x.Decoded? ==> Samples(before + [x]) == Samples(before) + [Sample(x.ms, x.features)]
    ensures x.Decoded? ==>
              var kept := Keeps(d, GateAfter(d, Samples(before)), Sample(x.ms, x.features));
              Saved(d, before + [x]) == Saved(d, before) + (if kept && x.encodes && x.writes then [x.ms] else [])
    ensures Samples<V>([]) == [] && Saved<V>(d, []) == []
  {
    assert (before + [x])[..|before|] == before;
  }

  predicate Increasing(s: seq<nat>)
  {
    forall i, j | 0 <= i < j < |s| :: s[i] < s[j]
  }

  lemma IncreasingAppend(s: seq<nat>, t: nat)
    requires Increasing(s) && forall x | x in s :: x < t
    ensures Increasing(s + [t])
  {
    forall i | 0 <= i < |s|
      ensures s[i] < t
    {
      assert s[i] in s;
    }
  }

  /** One more frame, when the clock has passed every saved time. */
  lemma SavedStep<V>(d: Settings<V>, g: Gate<V>, saved: seq<nat>, x: Sample<V>, save: bool)
    requires d.intervalMs >= 1 && Increasing(saved)
    requires forall t | t in saved :: g.lastSampleMs.Some? && t <= g.lastSampleMs.value
    requires g.lastSampleMs.Some? ==> g.lastSampleMs.value <= x.ms
    requires save ==> Keeps(d, g, x)
    ensures var r, n := saved + (if save then [x.ms] else []), Next(d, g, x);
      Increasing(r) && forall t | t in r :: n.lastSampleMs.Some? && t <= n.lastSampleMs.value
  {
    if save {
      IncreasingAppend(saved, x.ms);
    }
  }

  lemma SamplesExtended<V>(frames: seq<Frame<V>>)
    requires frames != [] && frames[|frames| - 1].Decoded?
    ensures var before, x := frames[..|frames| - 1], frames[|frames| - 1];
      && Samples(frames) == Samples(before) + [Sample(x.ms, x.features)]
      && Samples(frames)[..|Samples(frames)| - 1] == Samples(before)
  {
  }

  lemma {:induction false} SavedAreIncreasing<V>(d: Settings<V>, frames: seq<Frame<V>>)
    requires d.intervalMs >= 1 && Nondecreasing(Samples(frames))
    ensures Increasing(Saved(d, frames))
    ensures var g := GateAfter(d, Samples(frames));
      forall t | t in Saved(d, frames) :: g.lastSampleMs.Some? && t <= g.lastSampleMs.value
  {
    if frames != [] {
      var before, x := frames[..|frames| - 1], frames[|frames| - 1];
      if x.Decoded? {
        SamplesExtended(frames);
        SavedAreIncreasing(d, before);
        GateFollows(d, Samples(before));
        var g, y := GateAfter(d, Samples(before)), Sample(x.ms, x.features);
        SavedStep(d, g, Saved(d, before), y, Keeps(d, g, y) && x.encodes && x.writes);
      } else {
        assert Samples(frames) == Samples(before) && Saved(d, frames) == Saved(d, before);
        SavedAreIncreasing(d, before);
      }
    }
  }

  /** The loop of `extract`: the saved frames in order, and the file written for each. */
  method Extract<V>(frames: seq<Frame<V>>, threshold: real, distance: (V, V) -> real)
      returns (kept: seq<nat>, files: seq<string>)
    ensures kept == Saved(Settings(1, threshold, distance), frames)
    ensures |files| == |kept| && forall i | 0 <= i < |kept| :: files[i] == FileNames.NameOf(kept[i])
    ensures Nondecreasing(Samples(frames)) ==> Increasing(kept)
  {
    kept, files := [], [];
    var detector := new ChangeDetector(1, threshold, distance);
    ghost var d := detector.settings;
    assert frames[..0] == [];
    for i := 0 to |frames|
      invariant detector.Now() == GateAfter(d, Samples(frames[..i]))
      invariant kept == Saved(d, frames[..i])
      invariant |files| == |kept| && forall j | 0 <= j < |kept| :: files[j] == FileNames.NameOf(kept[j])
    {
      assert frames[..i + 1][..i] == frames[..i];
      if frames[i].Undecodable? {
        assert Samples(frames[..i + 1]) == Samples(frames[..i]);
        continue;
      }
      SamplesExtended(frames[..i + 1]);
      var keep := detector.ShouldKeep(frames[i].ms, frames[i].features);
      if !keep {
        continue;
      }
      if !frames[i].encodes {
        continue;
      }
      if frames[i].writes {
        kept, files := kept + [frames[i].ms], files + [FileNames.NameOf(frames[i].ms)];
      }
    }
    assert frames[..|frames|] == frames;
    if Nondecreasing(Samples(frames)) {
      SavedAreIncreasing(d, frames);
    }
  }

  /** `sampleTimes`: the marks 0, step, 2 step, ... up to the duration, and always 0. */
  method SampleTimes(durationMs: nat, intervalMs: nat) returns (times: seq<nat>)
    ensures var step := if intervalMs >= 1 then intervalMs else 1;
      && |times| >= 1
      && (forall k | 0 <= k < |times| :: times[k] == k * step)
      && times[|times| - 1] <= durationMs < |times| * step
  {
    var step := if intervalMs >= 1 then intervalMs else 1;
    times := [];
    var t := 0;
    while true
      invariant t == |times| * step && t <= durationMs
      invariant forall k | 0 <= k < |times| :: times[k] == k * step
      decreases durationMs - t
    {
      times := times + [t];
      t := t + step;
      if t > durationMs {
        break;
      }
    }
  }
}
