/** Speaker clean-up after diarization, `sherpa_diarizer.rs`. */
module Diarization {
  import opened Numbers
  import opened Options
  import opened Sorting

  datatype Turn = Turn(startMs: nat, endMs: nat, speaker: nat)

  function Duration(t: Turn): (d: nat)
  {
    if t.endMs <= t.startMs then 0 else t.endMs - t.startMs
  }

  // ------------------------------------------------------------- who is minor

  function TotalOf(turns: seq<Turn>, speaker: nat): (d: nat)
  {
    if turns == [] then 0 else
    var n := |turns| - 1;
    TotalOf(turns[..n], speaker) + (if turns[n].speaker == speaker then Duration(turns[n]) else 0)
  }

  function TotalAll(turns: seq<Turn>): (d: nat)
  {
    if turns == [] then 0 else TotalAll(turns[..|turns| - 1]) + Duration(turns[|turns| - 1])
  }

  /** Below one twentieth of all speech. */
  predicate Minor(turns: seq<Turn>, speaker: nat)
  {
    20 * TotalOf(turns, speaker) < TotalAll(turns)
  }

  predicate MajorAt(turns: seq<Turn>, i: nat)
    requires i < |turns|
  {
    !Minor(turns, turns[i].speaker)
  }

  /** The function acts only on a mix of minor and major speakers. */
  ghost predicate Acts(turns: seq<Turn>)
  {
    && TotalAll(turns) > 0
    && (exists i | 0 <= i < |turns| :: !MajorAt(turns, i))
    && (exists i | 0 <= i < |turns| :: MajorAt(turns, i))
  }

  /** The totals, turn by turn: the time from start to end, or none. */
  lemma TotalsGrow(before: seq<Turn>, t: Turn, speaker: nat)
    ensures var d := if t.endMs > t.startMs then t.endMs - t.startMs else 0;
      && TotalAll(before + [t]) == TotalAll(before) + d
      && TotalOf(before + [t], speaker) == TotalOf(before, speaker) + (if t.speaker == speaker then d else 0)
    ensures TotalAll([]) == 0 && TotalOf([], speaker) == 0
  {
    assert (before + [t])[..|before|] == before;
  }

  // ------------------------------------------------------ the simultaneous rule

  /** Nearest originally major turn before i. */
  function PrevMajor(turns: seq<Turn>, i: nat): (r: Option<nat>)
    requires i <= |turns|
    ensures r.Some? ==> r.value < i && MajorAt(turns, r.value)
    ensures r.Some? ==> forall j | r.value < j < i :: !MajorAt(turns, j)
    ensures r.None? ==> forall j | 0 <= j < i :: !MajorAt(turns, j)
  {
    if i == 0 then None
    else if MajorAt(turns, i - 1) then Some(i - 1)
    else PrevMajor(turns, i - 1)
  }

  /** Nearest originally major turn from i on. */
  function NextMajor(turns: seq<Turn>, i: nat): (r: Option<nat>)
    requires i <= |turns|
    ensures r.Some? ==> i <= r.value < |turns| && MajorAt(turns, r.value)
    ensures r.Some? ==> forall j | i <= j < r.value :: !MajorAt(turns, j)
    ensures r.None? ==> forall j | i <= j < |turns| :: !MajorAt(turns, j)
    decreases |turns| - i
  {
    if i == |turns| then None
    else if MajorAt(turns, i) then Some(i)
    else NextMajor(turns, i + 1)
  }

  /** A major turn keeps its speaker; a minor one takes the nearest preceding
      originally major speaker, else the nearest following one. */
  function NewSpeaker(turns: seq<Turn>, i: nat): (s: nat)
    requires i < |turns|
  {
    if MajorAt(turns, i) then turns[i].speaker
    else if PrevMajor(turns, i).Some? then turns[PrevMajor(turns, i).value].speaker
    else if NextMajor(turns, i + 1).Some? then turns[NextMajor(turns, i + 1).value].speaker
    else turns[i].speaker
  }

  function Relabeled(turns: seq<Turn>): (r: seq<Turn>)
    ensures |r| == |turns|
  {
    seq(|turns|, i requires 0 <= i < |turns| => turns[i].(speaker := NewSpeaker(turns, i)))
  }

  /** A minor turn ends up with the speaker its predecessor ends up with. */
  lemma FollowsPredecessor(turns: seq<Turn>, i: nat)
    requires 0 < i < |turns| && !MajorAt(turns, i)
    requires exists j | 0 <= j < |turns| :: MajorAt(turns, j)
    ensures NewSpeaker(turns, i) == NewSpeaker(turns, i - 1)
  {
    if !MajorAt(turns, i - 1) && PrevMajor(turns, i - 1).None? {
      var j :| 0 <= j < |turns| && MajorAt(turns, j);
      assert NextMajor(turns, i) == NextMajor(turns, i + 1);
    }
  }

  /** Turn i has at least one twentieth of all speech behind its speaker. */
  predicate Talks(turns: seq<Turn>, i: nat)
    requires i < |turns|
  {
    20 * TotalOf(turns, turns[i].speaker) >= TotalAll(turns)
  }

  /** Who a turn goes to: who talks keeps it; any other turn goes to the nearest turn before
      it of someone who talks, and only without one to the nearest behind it. Its times
      stay. */
  lemma GoesTo(turns: seq<Turn>, i: nat, j: nat)
    requires i < |turns| && j < |turns| && Talks(turns, j)
    ensures var t := Relabeled(turns)[i];
      && t.startMs == turns[i].startMs && t.endMs == turns[i].endMs
      && (Talks(turns, i) ==> t.speaker == turns[i].speaker)
      && (!Talks(turns, i) && j < i && (forall k | j < k < i :: !Talks(turns, k)) ==> t.speaker == turns[j].speaker)
      && (!Talks(turns, i) && i < j && (forall k | 0 <= k < j :: !Talks(turns, k)) ==> t.speaker == turns[j].speaker)
  {
    assert forall k | 0 <= k < |turns| :: Talks(turns, k) <==> MajorAt(turns, k);
  }

  // ------------------------------------------------------------- merging runs

  /** Number of speaker changes up to turn i. */
  function RunIndex(turns: seq<Turn>, i: nat): (k: nat)
    requires i < |turns|
    ensures k <= i
  {
    if i == 0 then 0
    else RunIndex(turns, i - 1) + (if turns[i].speaker == turns[i - 1].speaker then 0 else 1)
  }

  /** Turn i lies in the merged turn of its run: same speaker, start of the run,
      an end no earlier than its own. */
  ghost predicate InRun(turns: seq<Turn>, merged: seq<Turn>, i: nat)
    requires i < |turns|
  {
    var k := RunIndex(turns, i);
    && k < |merged|
    && merged[k].speaker == turns[i].speaker
    && turns[i].endMs <= merged[k].endMs
    && (i == 0 || turns[i - 1].speaker != turns[i].speaker ==> merged[k].startMs == turns[i].startMs)
  }

  /** Merged turn k ends with one of the turns of its run. */
  ghost predicate EndsRun(turns: seq<Turn>, merged: seq<Turn>, k: nat)
    requires k < |merged|
  {
    exists i | 0 <= i < |turns| :: RunIndex(turns, i) == k && turns[i].endMs == merged[k].endMs
  }

  ghost predicate AllInRuns(turns: seq<Turn>, merged: seq<Turn>)
  {
    forall i {:trigger InRun(turns, merged, i)} | 0 <= i < |turns| :: InRun(turns, merged, i)
  }

  ghost predicate AllEndRuns(turns: seq<Turn>, merged: seq<Turn>)
  {
    forall k {:trigger EndsRun(turns, merged, k)} | 0 <= k < |merged| :: EndsRun(turns, merged, k)
  }

  ghost predicate NeighboursDiffer(turns: seq<Turn>)
  {
    forall k | 0 < k < |turns| :: turns[k - 1].speaker != turns[k].speaker
  }

  /** One merged turn per run of equal speakers, and nothing else. */
  ghost predicate IsRunMerge(turns: seq<Turn>, merged: seq<Turn>)
  {
    && |merged| == (if turns == [] then 0 else RunIndex(turns, |turns| - 1) + 1)
    && AllInRuns(turns, merged) && AllEndRuns(turns, merged) && NeighboursDiffer(merged)
  }

  /** In turns sorted by start, each turn lies inside its merged turn. */
  lemma {:induction false} TurnInsideRun(turns: seq<Turn>, merged: seq<Turn>, i: nat)
    requires AllInRuns(turns, merged) && i < |turns|
    requires forall a, b | 0 <= a < b < |turns| :: turns[a].startMs <= turns[b].startMs
    ensures RunIndex(turns, i) < |merged|
    ensures var m := merged[RunIndex(turns, i)];
            m.speaker == turns[i].speaker && m.startMs <= turns[i].startMs && turns[i].endMs <= m.endMs
  {
    assert InRun(turns, merged, i);
    if i > 0 && turns[i - 1].speaker == turns[i].speaker {
      TurnInsideRun(turns, merged, i - 1);
    }
  }

  // ------------------------------------------------------------- renumbering

  function Labels(turns: seq<Turn>): (s: set<nat>)
  {
    set i | 0 <= i < |turns| :: turns[i].speaker
  }

  /** Turn i is the first of its speaker. */
  ghost predicate NewAt(turns: seq<Turn>, i: nat)
    requires i < |turns|
  {
    turns[i].speaker !in Labels(turns[..i])
  }

  /** A speaker seen for the first time gets the number of speakers seen before;
      a known speaker keeps its number. Nothing else changes. */
  ghost predicate IsRenumbering(turns: seq<Turn>, out: seq<Turn>)
  {
    && |out| == |turns|
    && (forall i | 0 <= i < |turns| :: out[i] == turns[i].(speaker := out[i].speaker))
    && (forall i {:trigger NewAt(turns, i)} | 0 <= i < |turns| && NewAt(turns, i) ::
          out[i].speaker == |Labels(turns[..i])|)
    && (forall i, j | 0 <= j < i < |turns| :: turns[j].speaker == turns[i].speaker ==> out[j].speaker == out[i].speaker)
  }

  lemma LabelsGrow(turns: seq<Turn>, i: nat)
    requires i < |turns|
    ensures Labels(turns[..i + 1]) == Labels(turns[..i]) + {turns[i].speaker}
  {
    var longer, shorter := turns[..i + 1], turns[..i];
    assert longer[i].speaker in Labels(longer);
    forall s | s in Labels(shorter)
      ensures s in Labels(longer)
    {
      var k :| 0 <= k < i && shorter[k].speaker == s;
      assert longer[k].speaker == s;
    }
    forall s | s in Labels(longer)
      ensures s in Labels(shorter) + {turns[i].speaker}
    {
      var k :| 0 <= k < i + 1 && longer[k].speaker == s;
      if k < i {
        assert shorter[k].speaker == s;
      }
    }
  }

  /** Where a speaker of a prefix was first seen. */
  lemma {:induction false} FirstSeen(turns: seq<Turn>, i: nat) returns (f: nat)
    requires i < |turns|
    ensures f <= i && turns[f].speaker == turns[i].speaker && NewAt(turns, f)
    decreases i
  {
    if NewAt(turns, i) {
      f := i;
    } else {
      var k :| 0 <= k < i && turns[..i][k].speaker == turns[i].speaker;
      f := FirstSeen(turns, k);
    }
  }

  lemma LabelsMonotone(turns: seq<Turn>, i: nat, j: nat)
    requires i <= j <= |turns|
    ensures Labels(turns[..i]) <= Labels(turns[..j])
    decreases j - i
  {
    if i < j {
      LabelsGrow(turns, i);
      LabelsMonotone(turns, i + 1, j);
    }
  }

  lemma EarlierFirstHasSmallerId(turns: seq<Turn>, f: nat, g: nat)
    requires f < g < |turns|
    requires NewAt(turns, f) && NewAt(turns, g)
    ensures |Labels(turns[..f])| < |Labels(turns[..g])|
  {
    LabelsGrow(turns, f);
    LabelsMonotone(turns, f + 1, g);
    var small, big := Labels(turns[..f]) + {turns[f].speaker}, Labels(turns[..g]);
    assert |small| == |Labels(turns[..f])| + 1;
    SubsetSize(small, big);
  }

  lemma SubsetSize<T>(a: set<T>, b: set<T>)
    requires a <= b
    ensures |a| <= |b|
  {
    assert b == a + (b - a);
  }

  /** Two turns get one id if and only if they had one speaker. */
  lemma RenumberingInjective(turns: seq<Turn>, out: seq<Turn>, i: nat, j: nat)
    requires IsRenumbering(turns, out) && i < |turns| && j < |turns|
    ensures out[i].speaker == out[j].speaker <==> turns[i].speaker == turns[j].speaker
  {
    var f := FirstSeen(turns, i);
    var g := FirstSeen(turns, j);
    assert out[f].speaker == |Labels(turns[..f])| && out[g].speaker == |Labels(turns[..g])|;
    assert f < i ==> out[f].speaker == out[i].speaker;
    assert g < j ==> out[g].speaker == out[j].speaker;
    if f < g {
      EarlierFirstHasSmallerId(turns, f, g);
    } else if g < f {
      EarlierFirstHasSmallerId(turns, g, f);
    }
  }

  ghost predicate UsesId(turns: seq<Turn>, n: nat, id: nat)
    requires n <= |turns|
  {
    exists i | 0 <= i < n :: turns[i].speaker == id
  }

  /** Every id below the number of speakers is used, and no other. */
  lemma {:induction false} IdsAreExactly(turns: seq<Turn>, out: seq<Turn>, n: nat)
    requires IsRenumbering(turns, out) && n <= |turns|
    ensures forall id: nat :: UsesId(out, n, id) <==> id < |Labels(turns[..n])|
    decreases n
  {
    if n == 0 {
      assert Labels(turns[..0]) == {};
    } else {
      IdsAreExactly(turns, out, n - 1);
      LastId(turns, out, n);
      forall id: nat
        ensures UsesId(out, n, id) <==> UsesId(out, n - 1, id) || id == out[n - 1].speaker
      {
        assert UsesId(out, n, out[n - 1].speaker);
      }
    }
  }

  lemma LastId(turns: seq<Turn>, out: seq<Turn>, n: nat)
    requires IsRenumbering(turns, out) && 0 < n <= |turns|
    ensures var before := |Labels(turns[..n - 1])|;
            || (out[n - 1].speaker == before && |Labels(turns[..n])| == before + 1)
            || (UsesId(out, n - 1, out[n - 1].speaker) && |Labels(turns[..n])| == before)
  {
    LabelsGrow(turns, n - 1);
    if NewAt(turns, n - 1) {
      OneMore(Labels(turns[..n - 1]), turns[n - 1].speaker);
    } else {
      var k := KnownLabel(turns, n - 1);
      assert out[k].speaker == out[n - 1].speaker;
    }
  }

  lemma OneMore(s: set<nat>, x: nat)
    requires x !in s
    ensures |s + {x}| == |s| + 1
  {
  }

  lemma KnownLabel(turns: seq<Turn>, i: nat) returns (k: nat)
    requires i < |turns| && !NewAt(turns, i)
    ensures k < i && turns[k].speaker == turns[i].speaker
    ensures Labels(turns[..i]) + {turns[i].speaker} == Labels(turns[..i])
  {
    k :| 0 <= k < i && turns[..i][k].speaker == turns[i].speaker;
  }

  // ----------------------------------------------------------------- the code

  /** The two totals loops. */
  method Totals(turns: seq<Turn>) returns (totals: map<nat, nat>, all: nat)
    ensures all == TotalAll(turns)
    ensures forall i | 0 <= i < |turns| :: turns[i].speaker in totals
    ensures forall s | s in totals :: totals[s] == TotalOf(turns, s)
  {
    totals, all := map[], 0;
    for i := 0 to |turns|
      invariant all == TotalAll(turns[..i])
      invariant forall k | 0 <= k < i :: turns[k].speaker in totals
      invariant forall s :: if s in totals then totals[s] == TotalOf(turns[..i], s) else TotalOf(turns[..i], s) == 0
    {
      var t := turns[i];
      var d := Duration(t);
      assert turns[..i + 1][..i] == turns[..i];
      totals := totals[t.speaker := (if t.speaker in totals then totals[t.speaker] else 0) + d];
      all := all + d;
    }
    assert turns[..|turns|] == turns;
  }

  ghost predicate MinorsOf(turns: seq<Turn>, minor: set<nat>)
  {
    && (forall i | 0 <= i < |turns| :: turns[i].speaker in minor <==> !MajorAt(turns, i))
    && exists j | 0 <= j < |turns| :: MajorAt(turns, j)
  }

  /** The speaker for a minor turn, found among turns of which the earlier are done. */
  method SpeakerFor(turns: seq<Turn>, minor: set<nat>, i: nat, ghost turns0: seq<Turn>) returns (s: nat)
    requires MinorsOf(turns0, minor) && i < |turns0| && turns0[i].speaker in minor
    requires turns == Relabeled(turns0)[..i] + turns0[i..]
    ensures turns0[i].(speaker := s) == Relabeled(turns0)[i]
  {
    var j := ScanBack(turns, minor, i);
    if i > 0 {
      TakesFromBefore(turns0, minor, i);
      assert turns[i - 1] == Relabeled(turns0)[i - 1];
    } else {
      assert turns == turns0;
    }
    if j > 0 {
      return turns[j - 1].speaker;
    }
    s := turns[i].speaker;
    var k := ScanForward(turns, minor, i + 1);
    TakesFromBehind(turns0, minor, k);
    if k < |turns| {
      s := turns[k].speaker;
    }
  }

  lemma TakesFromBefore(turns: seq<Turn>, minor: set<nat>, i: nat)
    requires MinorsOf(turns, minor) && 0 < i < |turns| && turns[i].speaker in minor
    ensures Relabeled(turns)[i - 1].speaker !in minor
    ensures turns[i].(speaker := Relabeled(turns)[i - 1].speaker) == Relabeled(turns)[i]
  {
    NewSpeakerNotMinor(turns, minor, i - 1);
    FollowsPredecessor(turns, i);
  }

  lemma TakesFromBehind(turns: seq<Turn>, minor: set<nat>, k: nat)
    requires MinorsOf(turns, minor) && 1 <= k <= |turns| && turns[0].speaker in minor
    requires (forall x | 1 <= x < k :: turns[x].speaker in minor) && (k < |turns| ==> turns[k].speaker !in minor)
    ensures k < |turns| ==> turns[0].(speaker := turns[k].speaker) == Relabeled(turns)[0]
    ensures k == |turns| ==> turns[0] == Relabeled(turns)[0]
  {
    FirstIsNextMajor(turns, 1, k);
  }

  lemma MajorKept(turns: seq<Turn>, i: nat)
    requires i < |turns| && MajorAt(turns, i)
    ensures Relabeled(turns)[i] == turns[i]
  {
  }

  lemma OneMoreDone(done: seq<Turn>, left: seq<Turn>, i: nat)
    requires i < |done| == |left|
    ensures (done[..i] + left[i..])[i := done[i]] == done[..i + 1] + left[i + 1..]
  {
  }

  /** The relabelling loop: in place, left to right, equal to the simultaneous rule. */
  method Relabel(turns0: seq<Turn>, minor: set<nat>) returns (turns: seq<Turn>)
    requires MinorsOf(turns0, minor)
    ensures turns == Relabeled(turns0)
  {
    turns := turns0;
    for i := 0 to |turns|
      invariant turns == Relabeled(turns0)[..i] + turns0[i..]
    {
      if turns[i].speaker in minor {
        var s := SpeakerFor(turns, minor, i, turns0);
        turns := turns[i := turns[i].(speaker := s)];
      } else {
        MajorKept(turns0, i);
      }
      OneMoreDone(Relabeled(turns0), turns0, i);
    }
  }

  /** One past the nearest turn before i whose speaker is not minor, or 0. */
  method ScanBack(turns: seq<Turn>, minor: set<nat>, i: nat) returns (j: nat)
    requires i <= |turns|
    ensures j <= i && forall k | j <= k < i :: turns[k].speaker in minor
    ensures j > 0 ==> turns[j - 1].speaker !in minor
  {
    j := i;
    while j > 0 && turns[j - 1].speaker in minor
      invariant j <= i
      invariant forall k | j <= k < i :: turns[k].speaker in minor
    {
      j := j - 1;
    }
  }

  /** The nearest turn from i on whose speaker is not minor, or the length. */
  method ScanForward(turns: seq<Turn>, minor: set<nat>, i: nat) returns (j: nat)
    requires i <= |turns|
    ensures i <= j <= |turns| && forall k | i <= k < j :: turns[k].speaker in minor
    ensures j < |turns| ==> turns[j].speaker !in minor
  {
    j := i;
    while j < |turns| && turns[j].speaker in minor
      invariant i <= j <= |turns|
      invariant forall k | i <= k < j :: turns[k].speaker in minor
    {
      j := j + 1;
    }
  }

  lemma {:induction false} FirstIsNextMajor(turns: seq<Turn>, i: nat, j: nat)
    requires i <= j <= |turns|
    requires forall k | i <= k < j :: !MajorAt(turns, k)
    requires j < |turns| ==> MajorAt(turns, j)
    ensures NextMajor(turns, i) == if j < |turns| then Some(j) else None
    decreases j - i
  {
    if i < j {
      FirstIsNextMajor(turns, i + 1, j);
    }
  }

  /** The rule always finds an originally major turn to take the speaker from. */
  lemma SpeakerSource(turns: seq<Turn>, i: nat) returns (j: nat)
    requires i < |turns| && exists j | 0 <= j < |turns| :: MajorAt(turns, j)
    ensures j < |turns| && MajorAt(turns, j) && NewSpeaker(turns, i) == turns[j].speaker
  {
    if MajorAt(turns, i) {
      j := i;
    } else if PrevMajor(turns, i).Some? {
      j := PrevMajor(turns, i).value;
    } else {
      var w :| 0 <= w < |turns| && MajorAt(turns, w);
      assert i < w;
      j := NextMajor(turns, i + 1).value;
    }
  }

  lemma NewSpeakerNotMinor(turns: seq<Turn>, minor: set<nat>, i: nat)
    requires i < |turns|
    requires forall i | 0 <= i < |turns| :: turns[i].speaker in minor <==> !MajorAt(turns, i)
    requires exists j | 0 <= j < |turns| :: MajorAt(turns, j)
    ensures NewSpeaker(turns, i) !in minor
  {
    var j := SpeakerSource(turns, i);
  }

  /** The merge loop. */
  method MergeRuns(turns: seq<Turn>) returns (merged: seq<Turn>)
    ensures IsRunMerge(turns, merged)
  {
    merged := [];
    for n := 0 to |turns|
      invariant IsRunMerge(turns[..n], merged)
    {
      var t := turns[n];
      ghost var before := merged;
      if |merged| > 0 && merged[|merged| - 1].speaker == t.speaker {
        var last := merged[|merged| - 1];
        merged := merged[|merged| - 1 := last.(endMs := Max(last.endMs, t.endMs))];
      } else {
        merged := merged + [t];
      }
      assert turns[..n + 1] == turns[..n] + [t];
      RunTurn(turns[..n], before, t);
    }
    assert turns[..|turns|] == turns;
  }

  lemma {:induction false} RunIndexPrefix(turns: seq<Turn>, t: Turn, i: nat)
    requires i < |turns|
    ensures RunIndex(turns + [t], i) == RunIndex(turns, i)
  {
    if i > 0 {
      RunIndexPrefix(turns, t, i - 1);
    }
  }

  /** One turn of the merge loop, in either branch. */
  function AddTurn(merged: seq<Turn>, t: Turn): (r: seq<Turn>)
  {
    var n := |merged| - 1;
    if n >= 0 && merged[n].speaker == t.speaker then merged[n := merged[n].(endMs := Max(merged[n].endMs, t.endMs))]
    else merged + [t]
  }

  lemma LastRun(turns: seq<Turn>, merged: seq<Turn>, t: Turn)
    requires IsRunMerge(turns, merged)
    ensures RunIndex(turns + [t], |turns|) == |AddTurn(merged, t)| - 1
    ensures turns != [] ==> merged != [] && merged[|merged| - 1].speaker == turns[|turns| - 1].speaker
  {
    if turns != [] {
      var n := |turns| - 1;
      assert InRun(turns, merged, n);
      RunIndexPrefix(turns, t, n);
      assert (turns + [t])[n] == turns[n];
    }
  }

  lemma RunTurnInRuns(turns: seq<Turn>, merged: seq<Turn>, t: Turn)
    requires IsRunMerge(turns, merged)
    ensures AllInRuns(turns + [t], AddTurn(merged, t))
  {
    var longer := turns + [t];
    LastRun(turns, merged, t);
    forall i | 0 <= i < |longer|
      ensures InRun(longer, AddTurn(merged, t), i)
    {
      if i < |turns| {
        assert InRun(turns, merged, i);
        RunIndexPrefix(turns, t, i);
        assert i > 0 ==> longer[i - 1] == turns[i - 1];
      }
    }
  }

  lemma RunTurnEnds(turns: seq<Turn>, merged: seq<Turn>, t: Turn)
    requires IsRunMerge(turns, merged)
    ensures AllEndRuns(turns + [t], AddTurn(merged, t))
  {
    var longer, out := turns + [t], AddTurn(merged, t);
    LastRun(turns, merged, t);
    forall k | 0 <= k < |out|
      ensures EndsRun(longer, out, k)
    {
      if k < |merged| && out[k].endMs == merged[k].endMs {
        assert EndsRun(turns, merged, k);
        var i :| 0 <= i < |turns| && RunIndex(turns, i) == k && turns[i].endMs == merged[k].endMs;
        RunIndexPrefix(turns, t, i);
        assert RunIndex(longer, i) == k && longer[i].endMs == out[k].endMs;
      } else {
        assert RunIndex(longer, |turns|) == k && longer[|turns|].endMs == out[k].endMs;
      }
    }
  }

  lemma RunTurn(turns: seq<Turn>, merged: seq<Turn>, t: Turn)
    requires IsRunMerge(turns, merged)
    ensures IsRunMerge(turns + [t], AddTurn(merged, t))
  {
    LastRun(turns, merged, t);
    RunTurnInRuns(turns, merged, t);
    RunTurnEnds(turns, merged, t);
  }

  /** The map of the renumbering loop after the first i turns. */
  ghost predicate Numbered(turns: seq<Turn>, remap: map<nat, nat>, i: nat)
    requires i <= |turns|
  {
    && remap.Keys == Labels(turns[..i])
    && (forall k {:trigger NewAt(turns, k)} | 0 <= k < i && NewAt(turns, k) ::
          turns[k].speaker in remap && remap[turns[k].speaker] == |Labels(turns[..k])|)
  }

  function WithNumber(remap: map<nat, nat>, s: nat): (r: map<nat, nat>)
    ensures r.Keys == remap.Keys + {s}
    ensures forall x | x in remap :: r[x] == remap[x]
    ensures s !in remap ==> r[s] == |remap|
  {
    if s in remap then remap else remap[s := |remap|]
  }

  lemma NumberNext(turns: seq<Turn>, remap: map<nat, nat>, i: nat)
    requires i < |turns| && Numbered(turns, remap, i)
    ensures Numbered(turns, WithNumber(remap, turns[i].speaker), i + 1)
  {
    var s := turns[i].speaker;
    var remap' := WithNumber(remap, s);
    assert remap'.Keys == Labels(turns[..i + 1]) by {
      LabelsGrow(turns, i);
    }
    forall k | 0 <= k < i + 1 && NewAt(turns, k)
      ensures turns[k].speaker in remap' && remap'[turns[k].speaker] == |Labels(turns[..k])|
    {
      if k == i {
        assert |remap| == |remap.Keys|;
      }
    }
  }

  /** The first i turns with their numbers. */
  ghost predicate Renamed(turns: seq<Turn>, remap: map<nat, nat>, out: seq<Turn>)
  {
    && |out| <= |turns|
    && forall k | 0 <= k < |out| :: turns[k].speaker in remap && out[k] == turns[k].(speaker := remap[turns[k].speaker])
  }

  lemma RenamedNext(turns: seq<Turn>, remap: map<nat, nat>, out: seq<Turn>)
    requires Renamed(turns, remap, out) && |out| < |turns|
    ensures var t := turns[|out|];
            var remap' := WithNumber(remap, t.speaker);
            && Renamed(turns, remap', out + [t.(speaker := remap'[t.speaker])])
            && |remap'| == |remap| + (if t.speaker in remap then 0 else 1)
  {
  }

  lemma RenamedAll(turns: seq<Turn>, remap: map<nat, nat>, out: seq<Turn>)
    requires Numbered(turns, remap, |turns|) && Renamed(turns, remap, out) && |out| == |turns|
    ensures IsRenumbering(turns, out)
  {
  }

  /** The renumbering loop. */
  method Renumber(turns: seq<Turn>) returns (out: seq<Turn>)
    ensures IsRenumbering(turns, out)
  {
    var remap: map<nat, nat> := map[];
    var next := 0;
    out := [];
    assert Numbered(turns, remap, 0) by {
      assert Labels(turns[..0]) == {};
    }
    for i := 0 to |turns|
      invariant |out| == i && next == |remap|
      invariant Numbered(turns, remap, i) && Renamed(turns, remap, out)
    {
      var s := turns[i].speaker;
      NumberNext(turns, remap, i);
      RenamedNext(turns, remap, out);
      if s !in remap {
        remap := remap[s := next];
        next := next + 1;
      }
      out := out + [turns[i].(speaker := remap[s])];
    }
    RenamedAll(turns, remap, out);
  }

  /** `collapse_minor_speakers`: unchanged unless minor and major speakers mix;
      then relabelled by the simultaneous rule, merged and renumbered. */
  method CollapseMinorSpeakers(turns: seq<Turn>) returns (out: seq<Turn>, ghost merged: seq<Turn>)
    ensures !Acts(turns) ==> out == turns
    ensures Acts(turns) ==> IsRunMerge(Relabeled(turns), merged) && IsRenumbering(merged, out)
  {
    merged := [];
    if turns == [] {
      return turns, merged;
    }
    var totals, all := Totals(turns);
    if all == 0 {
      return turns, merged;
    }
    var minor := set s | s in totals && 20 * totals[s] < all;
    var hasMinor := exists i | 0 <= i < |turns| :: turns[i].speaker in minor;
    var hasMajor := exists i | 0 <= i < |turns| :: turns[i].speaker !in minor;
    assert forall i | 0 <= i < |turns| :: turns[i].speaker in minor <==> !MajorAt(turns, i);
    if !hasMinor || !hasMajor {
      return turns, merged;
    }
    var work := Relabel(turns, minor);
    work := MergeRuns(work);
    merged := work;
    out := Renumber(work);
  }

  function MajorSpeakers(turns: seq<Turn>): (s: set<nat>)
  {
    set i | 0 <= i < |turns| && MajorAt(turns, i) :: turns[i].speaker
  }

  lemma MergedSpeakersAreMajors(turns: seq<Turn>, merged: seq<Turn>)
    requires Acts(turns) && IsRunMerge(Relabeled(turns), merged)
    ensures Labels(merged) == MajorSpeakers(turns)
  {
    var work := Relabeled(turns);
    forall s | s in Labels(merged)
      ensures s in MajorSpeakers(turns)
    {
      var k :| 0 <= k < |merged| && merged[k].speaker == s;
      assert EndsRun(work, merged, k);
      var i :| 0 <= i < |work| && RunIndex(work, i) == k && work[i].endMs == merged[k].endMs;
      assert InRun(work, merged, i);
      var j := SpeakerSource(turns, i);
    }
    forall s | s in MajorSpeakers(turns)
      ensures s in Labels(merged)
    {
      var i :| 0 <= i < |turns| && MajorAt(turns, i) && turns[i].speaker == s;
      assert work[i].speaker == s;
      assert InRun(work, merged, i);
    }
  }

  /** What a caller sees when the function acts: neighbours differ, and the ids
      are exactly 0 to k-1 for the k major speakers. */
  lemma CollapsedShape(turns: seq<Turn>, merged: seq<Turn>, out: seq<Turn>)
    requires Acts(turns) && IsRunMerge(Relabeled(turns), merged) && IsRenumbering(merged, out)
    ensures NeighboursDiffer(out)
    ensures forall id: nat :: UsesId(out, |out|, id) <==> id < |MajorSpeakers(turns)|
  {
    forall k | 0 < k < |out|
      ensures out[k - 1].speaker != out[k].speaker
    {
      RenumberingInjective(merged, out, k - 1, k);
    }
    IdsAreExactly(merged, out, |merged|);
    assert merged[..|merged|] == merged;
    MergedSpeakersAreMajors(turns, merged);
  }

  /** Every input turn lies inside its output turn; two turns share an output speaker
      exactly when the rule gives them the same speaker, so distinct majors stay distinct. */
  lemma CollapsedTurns(turns: seq<Turn>, merged: seq<Turn>, out: seq<Turn>, i: nat, j: nat)
    requires Acts(turns) && IsRunMerge(Relabeled(turns), merged) && IsRenumbering(merged, out)
    requires forall a, b | 0 <= a < b < |turns| :: turns[a].startMs <= turns[b].startMs
    requires i < |turns| && j < |turns|
    ensures var work := Relabeled(turns);
            var a, b := RunIndex(work, i), RunIndex(work, j);
            && a < |out| && b < |out|
            && (out[a].speaker == out[b].speaker <==> work[i].speaker == work[j].speaker)
            && (MajorAt(turns, i) && MajorAt(turns, j) ==>
                  (out[a].speaker == out[b].speaker <==> turns[i].speaker == turns[j].speaker))
            && out[a].startMs <= turns[i].startMs && turns[i].endMs <= out[a].endMs
  {
    RunsCollapsed(Relabeled(turns), merged, out, i, j);
    assert MajorAt(turns, i) ==> Relabeled(turns)[i] == turns[i];
    assert MajorAt(turns, j) ==> Relabeled(turns)[j] == turns[j];
  }

  lemma RunsCollapsed(work: seq<Turn>, merged: seq<Turn>, out: seq<Turn>, i: nat, j: nat)
    requires IsRunMerge(work, merged) && IsRenumbering(merged, out)
    requires forall a, b | 0 <= a < b < |work| :: work[a].startMs <= work[b].startMs
    requires i < |work| && j < |work|
    ensures var a, b := RunIndex(work, i), RunIndex(work, j);
            && a < |out| && b < |out|
            && (out[a].speaker == out[b].speaker <==> work[i].speaker == work[j].speaker)
            && out[a].startMs <= work[i].startMs && work[i].endMs <= out[a].endMs
  {
    TurnInsideRun(work, merged, i);
    TurnInsideRun(work, merged, j);
    RenumberingInjective(merged, out, RunIndex(work, i), RunIndex(work, j));
  }

  // --------------------------------------------------------------- clamping

  /** Sorted and free of overlap. */
  ghost predicate Disjoint(turns: seq<Turn>)
  {
    && (forall i | 0 <= i < |turns| :: turns[i].startMs <= turns[i].endMs)
    && (forall i, j | 0 <= i < j < |turns| :: turns[i].endMs <= turns[j].startMs)
  }

  /** Each turn starts no earlier than the one before it ends, moved as little as
      possible, and never ends before it starts. */
  ghost predicate IsClamped(turns0: seq<Turn>, turns: seq<Turn>, n: nat)
    requires n <= |turns0| == |turns|
  {
    && (n > 0 ==> turns[0] == turns0[0])
    && forall i | 0 < i < n ::
         && turns[i].speaker == turns0[i].speaker
         && turns[i].startMs == Max(turns0[i].startMs, turns[i - 1].endMs)
         && turns[i].endMs == Max(turns0[i].endMs, turns[i].startMs)
  }

  /** The clamp loop of `diarize`. */
  method ClampOverlaps(turns0: seq<Turn>) returns (turns: seq<Turn>)
    requires turns0 != [] ==> turns0[0].startMs <= turns0[0].endMs
    ensures |turns| == |turns0| && IsClamped(turns0, turns, |turns|)
  {
    turns := turns0;
    if turns == [] {
      return;
    }
    for i := 1 to |turns|
      invariant |turns| == |turns0|
      invariant IsClamped(turns0, turns, i)
      invariant forall k | i <= k < |turns| :: turns[k] == turns0[k]
    {
      var prevEnd := turns[i - 1].endMs;
      if turns[i].startMs < prevEnd {
        turns := turns[i := turns[i].(startMs := prevEnd)];
      }
      if turns[i].endMs < turns[i].startMs {
        turns := turns[i := turns[i].(endMs := turns[i].startMs)];
      }
    }
  }

  /** Clamped turns are sorted and free of overlap. */
  lemma {:induction false} ClampedAreDisjoint(turns0: seq<Turn>, turns: seq<Turn>, n: nat)
    requires n <= |turns0| == |turns| && IsClamped(turns0, turns, n)
    requires n > 0 ==> turns0[0].startMs <= turns0[0].endMs
    ensures Disjoint(turns[..n])
  {
    if n > 0 {
      ClampedAreDisjoint(turns0, turns, n - 1);
      var before := turns[..n - 1];
      assert turns[..n] == before + [turns[n - 1]];
      assert n > 1 ==> forall k | 0 <= k < n - 1 :: before[k].endMs <= turns[n - 2].endMs;
    }
  }

  /** Turns that do not overlap are left as they are. */
  lemma {:induction false} DisjointUntouched(turns0: seq<Turn>, turns: seq<Turn>, n: nat)
    requires n <= |turns0| == |turns| && IsClamped(turns0, turns, n) && Disjoint(turns0)
    ensures turns[..n] == turns0[..n]
  {
    if n > 0 {
      DisjointUntouched(turns0, turns, n - 1);
      assert n > 1 ==> turns[..n - 1][n - 2] == turns0[..n - 1][n - 2];
    }
  }

  predicate StartLe(a: Turn, b: Turn)
  {
    a.startMs <= b.startMs
  }

  /** `diarize` after the model: sort, collapse, clamp. */
  method Diarize(raw: seq<Turn>)
      returns (turns: seq<Turn>, ghost sorted: seq<Turn>, ghost merged: seq<Turn>, ghost collapsed: seq<Turn>)
    requires forall i | 0 <= i < |raw| :: raw[i].startMs <= raw[i].endMs
    ensures multiset(sorted) == multiset(raw)
    ensures forall i, j | 0 <= i < j < |sorted| :: sorted[i].startMs <= sorted[j].startMs
    ensures forall t :: Tied(sorted, t, StartLe) == Tied(raw, t, StartLe)
    ensures !Acts(sorted) ==> collapsed == sorted
    ensures Acts(sorted) ==> IsRunMerge(Relabeled(sorted), merged) && IsRenumbering(merged, collapsed)
    ensures |turns| == |collapsed| && IsClamped(collapsed, turns, |turns|)
    ensures Disjoint(turns)
  {
    turns := Sort(raw, StartLe);
    sorted := turns;
    SortSorted(raw, StartLe);
    assert forall i, j | 0 <= i < j < |sorted| :: StartLe(sorted[i], sorted[j]);
    forall t
      ensures Tied(sorted, t, StartLe) == Tied(raw, t, StartLe)
    {
      SortStable(raw, t, StartLe);
    }
    SameElements(raw, sorted);
    forall i | 0 <= i < |sorted|
      ensures sorted[i].startMs <= sorted[i].endMs
    {
      assert sorted[i] in raw;
    }
    turns, merged := CollapseMinorSpeakers(turns);
    collapsed := turns;
    if Acts(sorted) && |turns| > 0 {
      var work := Relabeled(sorted);
      assert RunIndex(work, 0) == 0;
      TurnInsideRun(work, merged, 0);
    }
    turns := ClampOverlaps(turns);
    ClampedAreDisjoint(collapsed, turns, |turns|);
    assert turns[..|turns|] == turns;
  }
}
