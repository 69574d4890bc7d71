/** Collecting a meeting's screenshots, `screenshots.rs`. */
module Screenshots {
  import opened Sorting
  import FileNames
  import ChangeDetection

  datatype DirEntry = File(name: string) | NotAFile(name: string) | Unreadable

  datatype Listing = Entries(entries: seq<DirEntry>) | Missing | ReadFailed

  datatype Screenshot = Screenshot(msSinceStart: nat, name: string)

  function Files(entries: seq<DirEntry>): (r: seq<string>)
  {
    if entries == [] then []
    else (if entries[0].File? then [entries[0].name] else []) + Files(entries[1..])
  }

  function Assigned(files: seq<string>, step: nat): (r: seq<Screenshot>)
  {
    seq(|files|, (i: nat) requires i < |files| => Screenshot(i * step, files[i]))
  }

  /** `checked_div`, with 0 for no quotient. */
  function StepFor(durationMs: nat, n: nat): (r: nat)
  {
    if n == 0 then 0 else durationMs / n
  }

  function CollectScreenshots(listing: Listing, durationMs: nat): (r: seq<Screenshot>)
  {
    if !listing.Entries? then []
    else
      var files := Sort(Files(listing.entries), StrLe);
      if files == [] then [] else Assigned(files, StepFor(durationMs, |files|))
  }

  function NamesOf(shots: seq<Screenshot>): (r: seq<string>)
    ensures |r| == |shots| && forall i | 0 <= i < |r| :: r[i] == shots[i].name
  {
    if shots == [] then [] else [shots[0].name] + NamesOf(shots[1..])
  }

  /** Every file is collected once, in the order of the names; times start at 0, never
      decrease, are evenly spaced, and leave at least one step before the end. */
  lemma CollectedEvenly(entries: seq<DirEntry>, durationMs: nat)
    ensures var r := CollectScreenshots(Entries(entries), durationMs);
      && multiset(NamesOf(r)) == multiset(Files(entries))
      && Sorted(NamesOf(r), StrLe)
      && (r != [] ==> r[0].msSinceStart == 0)
      && (forall i | 0 < i < |r| :: r[i].msSinceStart - r[i - 1].msSinceStart == durationMs / |r|)
      && (forall i | 0 <= i < |r| :: r[i].msSinceStart + durationMs / |r| <= durationMs)
  {
    var r := CollectScreenshots(Entries(entries), durationMs);
    var files := Sort(Files(entries), StrLe);
    StrLeIsPreorder();
    SortSorted(Files(entries), StrLe);
    if files != [] {
      var step := StepFor(durationMs, |files|);
      assert NamesOf(r) == files;
      forall i | 0 <= i < |r|
        ensures r[i].msSinceStart + step <= durationMs
      {
        Multiple(i, |files|, durationMs);
      }
      forall i | 0 < i < |r|
        ensures r[i].msSinceStart - r[i - 1].msSinceStart == step
      {
        assert i * step == (i - 1) * step + step;
      }
    } else {
      assert NamesOf(r) == files;
    }
  }

  /** A listing that is missing or cannot be read, or has no files, gives nothing. */
  lemma NothingCollected(listing: Listing, durationMs: nat)
    requires !listing.Entries? || forall e | e in listing.entries :: !e.File?
    ensures CollectScreenshots(listing, durationMs) == []
  {
    if listing.Entries? {
      NoFiles(listing.entries);
    }
  }

  lemma {:induction false} NoFiles(entries: seq<DirEntry>)
    requires forall e | e in entries :: !e.File?
    ensures Files(entries) == []
  {
    if entries != [] {
      assert entries[0] in entries;
      NoFiles(entries[1..]);
    }
  }

  /** The files are the entries that are files, and no others. */
  lemma {:induction false} FilesAre(entries: seq<DirEntry>, name: string)
    ensures name in Files(entries) <==> File(name) in entries
  {
    if entries != [] {
      FilesAre(entries[1..], name);
      assert entries == [entries[0]] + entries[1..];
    }
  }

  lemma Times(a: nat, b: nat, q: nat)
    requires a <= b
    ensures a * q <= b * q
  {
  }

  lemma Multiple(i: nat, n: nat, d: nat)
    requires i < n
    ensures i * (d / n) + d / n <= d
  {
    var q := d / n;
    Times(i + 1, n, q);
    assert n * q <= d;
  }

  /** The order in which the directory is read does not matter. */
  lemma OrderOfReadingIrrelevant(a: seq<DirEntry>, b: seq<DirEntry>, durationMs: nat)
    requires multiset(Files(a)) == multiset(Files(b)) && NoDuplicates(Files(a))
    ensures CollectScreenshots(Entries(a), durationMs) == CollectScreenshots(Entries(b), durationMs)
  {
    SortIsUnique(Files(a), Files(b));
  }

  lemma SortIsUnique(a: seq<string>, b: seq<string>)
    requires multiset(a) == multiset(b) && NoDuplicates(a)
    ensures Sort(a, StrLe) == Sort(b, StrLe)
  {
    StrLeIsPreorder();
    SortSorted(a, StrLe);
    SortSorted(b, StrLe);
    PermutationNoDuplicates(a, Sort(a, StrLe));
    SortedNamesUnique(Sort(a, StrLe), Sort(b, StrLe));
  }

  lemma SortedNamesUnique(s: seq<string>, t: seq<string>)
    requires multiset(s) == multiset(t)
    requires Sorted(s, StrLe) && Sorted(t, StrLe)
    requires NoDuplicates(s) || NoDuplicates(t)
    ensures s == t
  {
    StrLeIsPreorder();
    if NoDuplicates(s) {
      PermutationNoDuplicates(s, t);
    } else {
      PermutationNoDuplicates(t, s);
    }
    SameElements(s, t);
    SortedUnique(s, t, StrLe);
  }

  /** From the recording to the notes: the files that the extractor wrote below 10^9
      ms have different names, and however the directory lists them they are collected
      in the order in which the frames were taken. */
  lemma ExtractedFramesStayInOrder(kept: seq<nat>, entries: seq<DirEntry>, durationMs: nat)
    requires ChangeDetection.Increasing(kept) && forall i | 0 <= i < |kept| :: kept[i] < FileNames.BILLION
    requires multiset(Files(entries)) == multiset(Written(kept))
    ensures NoDuplicates(Files(entries))
    ensures NamesOf(CollectScreenshots(Entries(entries), durationMs)) == Written(kept)
  {
    WrittenInOrder(kept);
    PermutationNoDuplicates(Written(kept), Files(entries));
    CollectedEvenly(entries, durationMs);
    SortedNamesUnique(NamesOf(CollectScreenshots(Entries(entries), durationMs)), Written(kept));
  }

  /** The file names of the saved frames. */
  function Written(kept: seq<nat>): (r: seq<string>)
    ensures |r| == |kept| && forall i | 0 <= i < |r| :: r[i] == FileNames.NameOf(kept[i])
  {
    if kept == [] then [] else [FileNames.NameOf(kept[0])] + Written(kept[1..])
  }

  lemma WrittenInOrder(kept: seq<nat>)
    requires ChangeDetection.Increasing(kept) && forall i | 0 <= i < |kept| :: kept[i] < FileNames.BILLION
    ensures Sorted(Written(kept), StrLe) && NoDuplicates(Written(kept))
  {
    var w := Written(kept);
    forall i, j | 0 <= i < j < |w|
      ensures StrLe(w[i], w[j]) && w[i] != w[j]
    {
      FileNames.ChronologicalBelowBillion(kept[i], kept[j]);
      FileNames.ChronologicalBelowBillion(kept[j], kept[i]);
      StrLeTotal(w[i], w[j]);
      assert StrLe(w[i], w[j]) && !StrLe(w[j], w[i]);
    }
  }

  /** Increasing times below 2^32 ms, the extractor's, never share a file. */
  lemma NoTwoFramesShareAFile(kept: seq<nat>)
    requires ChangeDetection.Increasing(kept) && forall i | 0 <= i < |kept| :: kept[i] < FileNames.WRAP
    ensures NoDuplicates(Written(kept))
  {
    var w := Written(kept);
    forall i, j | 0 <= i < j < |w|
      ensures w[i] != w[j]
    {
      NamesDiffer(w[i], w[j], kept[i], kept[j]);
    }
  }

  lemma NamesDiffer(x: string, y: string, a: nat, b: nat)
    requires x == FileNames.NameOf(a) && y == FileNames.NameOf(b) && a < b < FileNames.WRAP
    ensures x != y
  {
    FileNames.NamesCollideIff(a, b);
    Residue(a);
    Residue(b);
  }

  lemma Residue(a: nat)
    requires a < FileNames.WRAP
    ensures a % FileNames.WRAP == a
  {
  }
}
