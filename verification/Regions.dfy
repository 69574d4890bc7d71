/** Regions of speech: `vad.rs` and the merge of `audio.rs`. */
module Regions {
  import opened Numbers
  import opened Sorting

  datatype Region = Region(startMs: nat, endMs: nat) {
    predicate WellFormed() { startMs <= endMs }

    /** `clamp_to`. */
    function ClampTo(ceilingMs: nat): (r: Region)
    {
      Region(Min(startMs, ceilingMs), Min(endMs, ceilingMs))
    }
  }

  function SaturatingSub(x: nat, y: nat): (d: nat)
  {
    if x <= y then 0 else x - y
  }

  /** A clamped region has what the region has below the ceiling, and one that lies below
      it is left as it is. */
  lemma ClampKeeps(r: Region, c: nat, ms: nat)
    ensures r.ClampTo(c).startMs <= ms < r.ClampTo(c).endMs <==> r.startMs <= ms < r.endMs && ms < c
    ensures r.startMs <= c && r.endMs <= c ==> r.ClampTo(c) == r
    ensures r.startMs > c ==> r.ClampTo(c).startMs == c
    ensures r.endMs > c ==> r.ClampTo(c).endMs == c
  {
  }

  /** Clamping is idempotent and stays under the ceiling. */
  lemma ClampTwice(r: Region, c: nat)
    ensures r.ClampTo(c).ClampTo(c) == r.ClampTo(c)
    ensures r.WellFormed() ==> r.ClampTo(c).startMs <= r.ClampTo(c).endMs <= c
  {
  }

  ghost predicate AllWellFormed(rs: seq<Region>)
  {
    forall i | 0 <= i < |rs| :: rs[i].WellFormed()
  }

  // ----------------------------------------------------------------- coverage

  /** Times are sampled at half milliseconds, so that neighbours such as [0,1]
      and [2,3] are told apart from [0,3]. */
  predicate Covers(r: Region, half: int)
  {
    2 * r.startMs <= half <= 2 * r.endMs
  }

  ghost predicate Covered(rs: seq<Region>, half: int)
  {
    exists i | 0 <= i < |rs| :: Covers(rs[i], half)
  }

  /** A gap of at most `gap` between the end of one region and the start of another. */
  predicate Closes(a: Region, b: Region, gap: nat, half: int)
  {
    2 * a.endMs <= half <= 2 * b.startMs && b.startMs - a.endMs <= gap
  }

  /** Covered by an input region, or inside a gap of at most `gap`. */
  ghost predicate Bridged(rs: seq<Region>, gap: nat, half: int)
  {
    || Covered(rs, half)
    || exists i, j | 0 <= i < |rs| && 0 <= j < |rs| :: Closes(rs[i], rs[j], gap, half)
  }

  ghost predicate Separated(out: seq<Region>, gap: nat)
  {
    && AllWellFormed(out)
    && forall i, j | 0 <= i < j < |out| :: out[i].endMs + gap < out[j].startMs
  }

  predicate Inside(r: Region, outer: Region)
  {
    outer.startMs <= r.startMs && r.endMs <= outer.endMs
  }

  ghost predicate InsideOne(r: Region, out: seq<Region>)
  {
    exists k | 0 <= k < |out| :: Inside(r, out[k])
  }

  /** An output region starts and ends with input regions and holds no wide gap. */
  ghost predicate Spanned(rs: seq<Region>, gap: nat, o: Region)
  {
    && (exists i | 0 <= i < |rs| :: rs[i].startMs == o.startMs)
    && (exists i | 0 <= i < |rs| :: rs[i].endMs == o.endMs)
    && (forall half | Covers(o, half) :: Bridged(rs, gap, half))
  }

  ghost predicate IsMerge(rs: seq<Region>, gap: nat, out: seq<Region>)
  {
    && Separated(out, gap)
    && AllInside(rs, out)
    && AllSpanned(rs, gap, out)
  }

  // ----------------------------------------------------------------- the code

  predicate StartLe(a: Region, b: Region)
  {
    a.startMs <= b.startMs
  }

  /** `merge_adjacent_regions`. */
  method MergeAdjacentRegions(regions: seq<Region>, gap: nat) returns (out: seq<Region>)
    ensures AllWellFormed(regions) ==> IsMerge(regions, gap, out)
  {
    if regions == [] {
      return regions;
    }
    var sorted := Sort(regions, StartLe);
    ghost var ok := AllWellFormed(regions);
    if ok {
      SortedWellFormed(regions);
    }
    out := [];
    for n := 0 to |sorted|
      invariant ok ==> IsMerge(sorted[..n], gap, out)
    {
      var r := sorted[n];
      ghost var before := out;
      if |out| > 0 && SaturatingSub(r.startMs, out[|out| - 1].endMs) <= gap {
        var last := out[|out| - 1];
        out := out[|out| - 1 := last.(endMs := Max(last.endMs, r.endMs))];
      } else {
        out := out + [r];
      }
      if ok {
        Turn(sorted, n, gap, before, out);
      }
    }
    assert sorted[..|sorted|] == sorted;
    if ok {
      SameInputs(sorted, regions, gap, out);
    }
  }

  /** The last output region, extended over r. */
  function Extended(out: seq<Region>, r: Region): (out': seq<Region>)
    requires out != []
    ensures |out'| == |out|
  {
    var last := out[|out| - 1];
    out[|out| - 1 := last.(endMs := Max(last.endMs, r.endMs))]
  }

  ghost predicate AllInside(rs: seq<Region>, out: seq<Region>)
  {
    forall i {:trigger InsideOne(rs[i], out)} | 0 <= i < |rs| :: InsideOne(rs[i], out)
  }

  ghost predicate AllSpanned(rs: seq<Region>, gap: nat, out: seq<Region>)
  {
    forall k {:trigger Spanned(rs, gap, out[k])} | 0 <= k < |out| :: Spanned(rs, gap, out[k])
  }

  /** The branch that extends the last output region. */
  lemma Absorb(rs: seq<Region>, gap: nat, out: seq<Region>, r: Region)
    requires IsMerge(rs, gap, out) && out != [] && r.WellFormed()
    requires forall i | 0 <= i < |rs| :: StartLe(rs[i], r)
    requires SaturatingSub(r.startMs, out[|out| - 1].endMs) <= gap
    ensures IsMerge(rs + [r], gap, Extended(out, r))
  {
    var n := |out| - 1;
    assert out[n].startMs <= r.startMs by {
      assert Spanned(rs, gap, out[n]);
    }
    AbsorbSpanned(rs, gap, out, r);
    AbsorbInside(rs, out, r);
  }

  lemma AbsorbSpanned(rs: seq<Region>, gap: nat, out: seq<Region>, r: Region)
    requires AllSpanned(rs, gap, out) && out != [] && r.WellFormed()
    requires out[|out| - 1].startMs <= r.startMs && SaturatingSub(r.startMs, out[|out| - 1].endMs) <= gap
    ensures AllSpanned(rs + [r], gap, Extended(out, r))
  {
    var n := |out| - 1;
    forall k | 0 <= k < |out|
      ensures Spanned(rs + [r], gap, Extended(out, r)[k])
    {
      assert Spanned(rs, gap, out[k]);
      if k == n {
        SpanWidened(rs, gap, out[n], r);
      } else {
        SpanKept(rs, gap, out[k], r);
      }
    }
  }

  lemma AbsorbInside(rs: seq<Region>, out: seq<Region>, r: Region)
    requires AllInside(rs, out) && out != [] && out[|out| - 1].startMs <= r.startMs
    ensures AllInside(rs + [r], Extended(out, r))
  {
    var rs', out' := rs + [r], Extended(out, r);
    forall i | 0 <= i < |rs'|
      ensures InsideOne(rs'[i], out')
    {
      if i < |rs| {
        assert InsideOne(rs[i], out);
        var k :| 0 <= k < |out| && Inside(rs[i], out[k]);
        assert Inside(rs'[i], out'[k]);
      } else {
        assert Inside(r, out'[|out| - 1]);
      }
    }
  }

  lemma More(rs: seq<Region>, gap: nat, r: Region)
    ensures forall half :: Bridged(rs, gap, half) ==> Bridged(rs + [r], gap, half)
  {
    var rs' := rs + [r];
    forall half | Bridged(rs, gap, half)
      ensures Bridged(rs', gap, half)
    {
      if Covered(rs, half) {
        var i :| 0 <= i < |rs| && Covers(rs[i], half);
        assert Covers(rs'[i], half);
      } else {
        var i, j :| 0 <= i < |rs| && 0 <= j < |rs| && Closes(rs[i], rs[j], gap, half);
        assert Closes(rs'[i], rs'[j], gap, half);
      }
    }
  }

  lemma SpanKept(rs: seq<Region>, gap: nat, o: Region, r: Region)
    requires Spanned(rs, gap, o)
    ensures Spanned(rs + [r], gap, o)
  {
    var rs' := rs + [r];
    More(rs, gap, r);
    var i :| 0 <= i < |rs| && rs[i].startMs == o.startMs;
    var j :| 0 <= j < |rs| && rs[j].endMs == o.endMs;
    assert rs'[i].startMs == o.startMs && rs'[j].endMs == o.endMs;
  }

  lemma SpanWidened(rs: seq<Region>, gap: nat, last: Region, r: Region)
    requires Spanned(rs, gap, last) && r.WellFormed()
    requires last.startMs <= r.startMs && SaturatingSub(r.startMs, last.endMs) <= gap
    ensures Spanned(rs + [r], gap, last.(endMs := Max(last.endMs, r.endMs)))
  {
    var rs' := rs + [r];
    var wider := last.(endMs := Max(last.endMs, r.endMs));
    SpanKept(rs, gap, last, r);
    assert rs'[|rs|] == r;
    var j :| 0 <= j < |rs| && rs[j].endMs == last.endMs;
    forall half | Covers(wider, half)
      ensures Bridged(rs', gap, half)
    {
      if Covers(last, half) {
        assert Bridged(rs', gap, half);
      } else if 2 * r.startMs <= half {
        assert Covers(rs'[|rs|], half);
      } else {
        assert Closes(rs'[j], rs'[|rs|], gap, half);
      }
    }
  }

  lemma SpanAlone(rs: seq<Region>, gap: nat, r: Region)
    requires r.WellFormed()
    ensures Spanned(rs + [r], gap, r)
  {
    var rs' := rs + [r];
    assert rs'[|rs|] == r;
    forall half | Covers(r, half)
      ensures Bridged(rs', gap, half)
    {
      assert Covers(rs'[|rs|], half);
    }
  }

  lemma PushInside(rs: seq<Region>, out: seq<Region>, r: Region)
    requires AllInside(rs, out)
    ensures AllInside(rs + [r], out + [r])
  {
    var rs', out' := rs + [r], out + [r];
    forall i | 0 <= i < |rs'|
      ensures InsideOne(rs'[i], out')
    {
      if i < |rs| {
        assert InsideOne(rs[i], out);
        var k :| 0 <= k < |out| && Inside(rs[i], out[k]);
        assert Inside(rs'[i], out'[k]);
      } else {
        assert Inside(r, out'[|out|]);
      }
    }
  }

  lemma PushSpanned(rs: seq<Region>, gap: nat, out: seq<Region>, r: Region)
    requires AllSpanned(rs, gap, out) && r.WellFormed()
    ensures AllSpanned(rs + [r], gap, out + [r])
  {
    forall k | 0 <= k < |out + [r]|
      ensures Spanned(rs + [r], gap, (out + [r])[k])
    {
      if k < |out| {
        assert Spanned(rs, gap, out[k]);
        SpanKept(rs, gap, out[k], r);
      } else {
        SpanAlone(rs, gap, r);
      }
    }
  }

  /** The branch that starts a new output region. */
  lemma Push(rs: seq<Region>, gap: nat, out: seq<Region>, r: Region)
    requires IsMerge(rs, gap, out) && r.WellFormed()
    requires out != [] ==> SaturatingSub(r.startMs, out[|out| - 1].endMs) > gap
    ensures IsMerge(rs + [r], gap, out + [r])
  {
    PushSpanned(rs, gap, out, r);
    PushInside(rs, out, r);
  }

  /** Sorted input stays well formed. */
  lemma SortedWellFormed(rs: seq<Region>)
    requires AllWellFormed(rs)
    ensures AllWellFormed(Sort(rs, StartLe)) && Sorted(Sort(rs, StartLe), StartLe)
    ensures forall r :: r in rs <==> r in Sort(rs, StartLe)
  {
    var sorted := Sort(rs, StartLe);
    SortSorted(rs, StartLe);
    SameElements(rs, sorted);
    forall i | 0 <= i < |sorted|
      ensures sorted[i].WellFormed()
    {
      assert sorted[i] in rs;
    }
  }

  /** One turn of the loop, in either branch. */
  lemma Turn(sorted: seq<Region>, n: nat, gap: nat, out: seq<Region>, out': seq<Region>)
    requires n < |sorted| && AllWellFormed(sorted) && Sorted(sorted, StartLe)
    requires IsMerge(sorted[..n], gap, out)
    requires var r := sorted[n];
             out' == if out != [] && SaturatingSub(r.startMs, out[|out| - 1].endMs) <= gap then Extended(out, r)
                     else out + [r]
    ensures IsMerge(sorted[..n + 1], gap, out')
  {
    var rs, r := sorted[..n], sorted[n];
    assert sorted[..n + 1] == rs + [r];
    assert forall i | 0 <= i < n :: StartLe(rs[i], r);
    if out != [] && SaturatingSub(r.startMs, out[|out| - 1].endMs) <= gap {
      Absorb(rs, gap, out, r);
    } else {
      Push(rs, gap, out, r);
    }
  }

  // ---------------------------------------------------------------- canonicity

  lemma SameBridges(rs: seq<Region>, rs': seq<Region>, gap: nat)
    requires forall r :: r in rs ==> r in rs'
    ensures forall half :: Bridged(rs, gap, half) ==> Bridged(rs', gap, half)
  {
    forall half | Bridged(rs, gap, half)
      ensures Bridged(rs', gap, half)
    {
      if Covered(rs, half) {
        var i :| 0 <= i < |rs| && Covers(rs[i], half);
        assert rs[i] in rs';
        var k :| 0 <= k < |rs'| && rs'[k] == rs[i];
        assert Covers(rs'[k], half);
      } else {
        var i, j :| 0 <= i < |rs| && 0 <= j < |rs| && Closes(rs[i], rs[j], gap, half);
        assert rs[i] in rs' && rs[j] in rs';
        var k :| 0 <= k < |rs'| && rs'[k] == rs[i];
        var l :| 0 <= l < |rs'| && rs'[l] == rs[j];
        assert Closes(rs'[k], rs'[l], gap, half);
      }
    }
  }

  lemma SameSpan(rs: seq<Region>, rs': seq<Region>, gap: nat, o: Region)
    requires forall r :: r in rs ==> r in rs'
    requires Spanned(rs, gap, o)
    ensures Spanned(rs', gap, o)
  {
    SameBridges(rs, rs', gap);
    var i :| 0 <= i < |rs| && rs[i].startMs == o.startMs;
    var j :| 0 <= j < |rs| && rs[j].endMs == o.endMs;
    assert rs[i] in rs' && rs[j] in rs';
  }

  lemma InsideFewer(rs: seq<Region>, rs': seq<Region>, out: seq<Region>)
    requires AllInside(rs, out) && forall r :: r in rs' ==> r in rs
    ensures AllInside(rs', out)
  {
    forall i | 0 <= i < |rs'|
      ensures InsideOne(rs'[i], out)
    {
      assert rs'[i] in rs';
      var k :| 0 <= k < |rs| && rs[k] == rs'[i];
      assert InsideOne(rs[k], out);
    }
  }

  lemma SpannedMore(rs: seq<Region>, rs': seq<Region>, gap: nat, out: seq<Region>)
    requires AllSpanned(rs, gap, out) && forall r :: r in rs ==> r in rs'
    ensures AllSpanned(rs', gap, out)
  {
    forall k | 0 <= k < |out|
      ensures Spanned(rs', gap, out[k])
    {
      assert Spanned(rs, gap, out[k]);
      SameSpan(rs, rs', gap, out[k]);
    }
  }

  /** Merging depends on the regions alone, not on their order or repetition. */
  lemma SameInputs(rs: seq<Region>, rs': seq<Region>, gap: nat, out: seq<Region>)
    requires forall r :: r in rs <==> r in rs'
    requires IsMerge(rs, gap, out)
    ensures IsMerge(rs', gap, out)
  {
    InsideFewer(rs, rs', out);
    SpannedMore(rs, rs', gap, out);
  }

  /** A merge covers exactly the input and its gaps of at most `gap`. */
  lemma CoverageExact(rs: seq<Region>, gap: nat, out: seq<Region>, half: int)
    requires IsMerge(rs, gap, out) && AllWellFormed(rs)
    ensures Covered(out, half) <==> Bridged(rs, gap, half)
  {
    if Covered(out, half) {
      var k :| 0 <= k < |out| && Covers(out[k], half);
      assert Spanned(rs, gap, out[k]);
    }
    if Covered(rs, half) {
      InputCovered(rs, gap, out, half);
    } else if Bridged(rs, gap, half) {
      GapCovered(rs, gap, out, half);
    }
  }

  lemma InputCovered(rs: seq<Region>, gap: nat, out: seq<Region>, half: int)
    requires IsMerge(rs, gap, out) && Covered(rs, half)
    ensures Covered(out, half)
  {
    var i :| 0 <= i < |rs| && Covers(rs[i], half);
    assert InsideOne(rs[i], out);
    var k :| 0 <= k < |out| && Inside(rs[i], out[k]);
    assert Covers(out[k], half);
  }

  lemma GapCovered(rs: seq<Region>, gap: nat, out: seq<Region>, half: int)
    requires IsMerge(rs, gap, out) && AllWellFormed(rs) && Bridged(rs, gap, half) && !Covered(rs, half)
    ensures Covered(out, half)
  {
    var i, j :| 0 <= i < |rs| && 0 <= j < |rs| && Closes(rs[i], rs[j], gap, half);
    assert InsideOne(rs[i], out) && InsideOne(rs[j], out);
    var k :| 0 <= k < |out| && Inside(rs[i], out[k]);
    var l :| 0 <= l < |out| && Inside(rs[j], out[l]);
    assert rs[i].WellFormed() && rs[j].WellFormed();
    assert k == l;
    assert Covers(out[k], half);
  }

  /** Separated regions are determined by what they cover. */
  lemma {:induction false} SeparatedUnique(a: seq<Region>, b: seq<Region>, gap: nat)
    requires Separated(a, gap) && Separated(b, gap)
    requires forall half :: Covered(a, half) <==> Covered(b, half)
    ensures a == b
    decreases |a|
  {
    if a == [] || b == [] {
      NothingCovered(a, b);
      NothingCovered(b, a);
    } else {
      FirstStarts(a, b, gap);
      FirstStarts(b, a, gap);
      FirstEnds(a, b, gap);
      FirstEnds(b, a, gap);
      assert a[0] == b[0];
      forall half
        ensures Covered(a[1..], half) <==> Covered(b[1..], half)
      {
        TailCoverage(a, gap, half);
        TailCoverage(b, gap, half);
      }
      SeparatedUnique(a[1..], b[1..], gap);
      assert a == [a[0]] + a[1..] && b == [b[0]] + b[1..];
    }
  }

  lemma NothingCovered(a: seq<Region>, b: seq<Region>)
    requires AllWellFormed(b) && forall half :: Covered(a, half) <==> Covered(b, half)
    ensures a == [] ==> b == []
  {
    if b != [] {
      assert Covers(b[0], 2 * b[0].startMs);
      assert Covered(b, 2 * b[0].startMs);
    }
  }

  lemma FirstStarts(a: seq<Region>, b: seq<Region>, gap: nat)
    requires a != [] && b != [] && Separated(a, gap) && Separated(b, gap)
    requires forall half :: Covered(a, half) <==> Covered(b, half)
    ensures b[0].startMs <= a[0].startMs
  {
    assert Covers(a[0], 2 * a[0].startMs);
    assert Covered(b, 2 * a[0].startMs);
  }

  lemma FirstEnds(a: seq<Region>, b: seq<Region>, gap: nat)
    requires a != [] && b != [] && Separated(a, gap) && Separated(b, gap)
    requires forall half :: Covered(a, half) <==> Covered(b, half)
    requires a[0].startMs == b[0].startMs
    ensures a[0].endMs <= b[0].endMs
  {
    NotCoveredAfterFirst(b, gap);
    assert !Covers(a[0], 2 * b[0].endMs + 1);
  }

  lemma NotCoveredAfterFirst(b: seq<Region>, gap: nat)
    requires b != [] && Separated(b, gap)
    ensures !Covered(b, 2 * b[0].endMs + 1)
  {
    forall i | 0 <= i < |b|
      ensures !Covers(b[i], 2 * b[0].endMs + 1)
    {
      assert i == 0 || b[0].endMs + gap < b[i].startMs;
    }
  }

  lemma TailCoverage(a: seq<Region>, gap: nat, half: int)
    requires a != [] && Separated(a, gap)
    ensures Covered(a[1..], half) <==> Covered(a, half) && half > 2 * a[0].endMs
  {
    if Covered(a[1..], half) {
      var i :| 0 <= i < |a[1..]| && Covers(a[1..][i], half);
      assert Covers(a[i + 1], half);
    }
    if Covered(a, half) && half > 2 * a[0].endMs {
      var i :| 0 <= i < |a| && Covers(a[i], half);
      assert Covers(a[1..][i - 1], half);
    }
  }

  /** The merge is a function of the set of regions: any two merges of the same
      regions, in any order, are equal. */
  lemma MergeCanonical(rs: seq<Region>, rs': seq<Region>, gap: nat, out: seq<Region>, out': seq<Region>)
    requires AllWellFormed(rs) && AllWellFormed(rs') && forall r :: r in rs <==> r in rs'
    requires IsMerge(rs, gap, out) && IsMerge(rs', gap, out')
    ensures out == out'
  {
    SameBridges(rs, rs', gap);
    SameBridges(rs', rs, gap);
    forall half
      ensures Covered(out, half) <==> Covered(out', half)
    {
      CoverageExact(rs, gap, out, half);
      CoverageExact(rs', gap, out', half);
    }
    SeparatedUnique(out, out', gap);
  }

  /** Separated regions leave nothing to bridge. */
  lemma OnlyOwnBridges(out: seq<Region>, gap: nat, half: int)
    requires Separated(out, gap)
    ensures Bridged(out, gap, half) <==> Covered(out, half)
  {
    forall i, j | 0 <= i < |out| && 0 <= j < |out| && Closes(out[i], out[j], gap, half)
      ensures Covered(out, half)
    {
      if i == j {
        assert Covers(out[i], half);
      }
    }
  }

  /** Merging a merge changes nothing. */
  lemma MergeIdempotent(rs: seq<Region>, gap: nat, out: seq<Region>, again: seq<Region>)
    requires IsMerge(rs, gap, out) && IsMerge(out, gap, again)
    ensures again == out
  {
    forall half
      ensures Covered(again, half) <==> Covered(out, half)
    {
      CoverageExact(out, gap, again, half);
      OnlyOwnBridges(out, gap, half);
    }
    SeparatedUnique(again, out, gap);
  }

  /** Every input region lies in exactly one output region. */
  lemma InsideExactlyOne(rs: seq<Region>, gap: nat, out: seq<Region>, i: nat, k: nat, l: nat)
    requires IsMerge(rs, gap, out) && i < |rs| && rs[i].WellFormed()
    requires k < |out| && l < |out| && Inside(rs[i], out[k]) && Inside(rs[i], out[l])
    ensures k == l
  {
  }
}
