/** What the listing operations promise, and that the promise determines them. */
module RegistryListing {
  import opened Options
  import opened Sorting
  import opened Registry
  import opened RegistryRuns

  datatype Filter = Filter(spaceId: Option<string>, projectId: Option<string>, tagId: Option<string>, unsorted: bool)

  datatype MeetingSummary = MeetingSummary(
    id: string, title: string, startedAt: string, endedAt: Option<string>, durationMs: u64, language: string,
    hasNotes: bool, spaceId: Option<string>, projectId: Option<string>, tags: seq<string>)

  function Lookup(m: map<string, string>, key: string): (r: Option<string>)
  {
    if key in m then Some(m[key]) else None
  }

  function DurationOrZero(d: Option<u64>): (r: u64)
  {
    if d.Some? then d.value else 0
  }

  /** A row says exactly what the registry knows of its meeting. */
  ghost predicate IsSummary(r: Registry, row: MeetingSummary)
  {
    && row.id in r.meetings
    && var m := r.meetings[row.id];
    && row.title == m.title && row.startedAt == m.startedAt && row.endedAt == m.endedAt
    && row.durationMs == DurationOrZero(m.durationMs)
    && row.language == m.language
    && row.hasNotes == (exists n | n in r.notes :: r.notes[n].meetingId == row.id)
    && row.spaceId == Lookup(r.spaceOf, row.id)
    && row.projectId == Lookup(r.projectOf, row.id)
    && Sorted(row.tags, StrLe) && NoDuplicates(row.tags)
    && (forall t :: t in row.tags <==> (row.id, t) in r.tagged)
  }

  predicate Matches(r: Registry, f: Filter, id: string)
  {
    && (f.unsorted ==> id !in r.spaceOf)
    && (f.spaceId.Some? ==> Lookup(r.spaceOf, id) == f.spaceId)
    && (f.projectId.Some? ==> Lookup(r.projectOf, id) == f.projectId)
    && (f.tagId.Some? ==> (id, f.tagId.value) in r.tagged)
  }

  predicate NewestFirst(a: MeetingSummary, b: MeetingSummary)
  {
    StrLe(b.startedAt, a.startedAt)
  }

  ghost predicate HasRow(rows: seq<MeetingSummary>, id: string)
  {
    exists i | 0 <= i < |rows| :: rows[i].id == id
  }

  lemma HasRowAppended(rows: seq<MeetingSummary>, row: MeetingSummary)
    ensures forall id :: HasRow(rows + [row], id) <==> HasRow(rows, id) || id == row.id
  {
    var longer := rows + [row];
    assert longer[|rows|] == row;
    assert forall i | 0 <= i < |rows| :: longer[i] == rows[i];
  }

  lemma HasRowPermuted(a: seq<MeetingSummary>, b: seq<MeetingSummary>)
    requires forall row :: row in a ==> row in b
    ensures forall id :: HasRow(a, id) ==> HasRow(b, id)
  {
    forall id | HasRow(a, id)
      ensures HasRow(b, id)
    {
      var i :| 0 <= i < |a| && a[i].id == id;
      assert a[i] in b;
      var j :| 0 <= j < |b| && b[j] == a[i];
    }
  }

  ghost predicate IsMeetingListing(r: Registry, f: Filter, rows: seq<MeetingSummary>)
  {
    && Sorted(rows, NewestFirst)
    && NoDuplicates(rows)
    && (forall row | row in rows :: IsSummary(r, row) && Matches(r, f, row.id))
    && (forall id | id in r.meetings && Matches(r, f, id) :: HasRow(rows, id))
  }

  lemma NewestFirstIsPreorder()
    ensures TotalPreorder(NewestFirst)
  {
    StrLeIsPreorder();
  }

  lemma SummaryUnique(r: Registry, a: MeetingSummary, b: MeetingSummary)
    requires IsSummary(r, a) && IsSummary(r, b) && a.id == b.id
    ensures a == b
  {
    StrLeIsPreorder();
    SortedUnique(a.tags, b.tags, StrLe);
  }

  /** Two listings of one registry hold the same rows, and the same start time at
      every index: only meetings that started together may trade places. */
  lemma ListingsAgree(r: Registry, f: Filter, a: seq<MeetingSummary>, b: seq<MeetingSummary>)
    requires IsMeetingListing(r, f, a) && IsMeetingListing(r, f, b)
    ensures multiset(a) == multiset(b)
    ensures |a| == |b| && forall i | 0 <= i < |a| :: a[i].startedAt == b[i].startedAt
  {
    RowsIncluded(r, f, a, b);
    RowsIncluded(r, f, b, a);
    SameRows(a, b);
    SortedAlike(a, b);
  }

  lemma RowsIncluded(r: Registry, f: Filter, a: seq<MeetingSummary>, b: seq<MeetingSummary>)
    requires IsMeetingListing(r, f, a) && IsMeetingListing(r, f, b)
    ensures forall row | row in a :: row in b
  {
    forall row | row in a
      ensures row in b
    {
      assert IsSummary(r, row) && Matches(r, f, row.id);
      assert HasRow(b, row.id);
      var i :| 0 <= i < |b| && b[i].id == row.id;
      assert b[i] in b;
      SummaryUnique(r, row, b[i]);
    }
  }

  lemma SameRows<T>(a: seq<T>, b: seq<T>)
    requires NoDuplicates(a) && NoDuplicates(b)
    requires forall x :: x in a <==> x in b
    ensures multiset(a) == multiset(b)
  {
    NoDuplicatesCount(a);
    NoDuplicatesCount(b);
    forall x
      ensures multiset(a)[x] == multiset(b)[x]
    {
      assert x in a <==> x in multiset(a);
      assert x in b <==> x in multiset(b);
    }
  }

  lemma SortedAlike(a: seq<MeetingSummary>, b: seq<MeetingSummary>)
    requires multiset(a) == multiset(b)
    requires Sorted(a, NewestFirst) && Sorted(b, NewestFirst)
    ensures |a| == |b| && forall i | 0 <= i < |a| :: a[i].startedAt == b[i].startedAt
  {
    var start := (row: MeetingSummary) => row.startedAt;
    KeysPermuted(a, b, start);
    assert Sorted(Keys(a, start), (x, y) => StrLe(y, x)) && Sorted(Keys(b, start), (x, y) => StrLe(y, x));
    SortedStringsUnique(Keys(a, start), Keys(b, start));
    assert forall i | 0 <= i < |a| :: Keys(a, start)[i] == Keys(b, start)[i];
  }

  // ------------------------------------------------------- spaces and projects

  lemma SpaceLeIsPreorder()
    ensures TotalPreorder(SpaceLe)
    ensures TotalPreorder(ProjectLe)
  {
    StrLeIsPreorder();
  }

  /** All rows of the space table by position, then name. */
  method ListSpaces(spaces: map<string, Space>) returns (rows: seq<Space>)
    requires forall s | s in spaces :: spaces[s].id == s
    ensures IsSpaceListing(spaces, rows)
  {
    var collected: seq<Space> := [];
    var left := spaces.Keys;
    while left != {}
      invariant left <= spaces.Keys
      invariant forall s :: s in collected <==> s.id in spaces.Keys - left && spaces[s.id] == s
      invariant NoDuplicates(collected)
      decreases left
    {
      var id :| id in left;
      left := left - {id};
      collected := collected + [spaces[id]];
    }
    rows := Sort(collected, SpaceLe);
    SpaceLeIsPreorder();
    SortSorted(collected, SpaceLe);
    PermutationNoDuplicates(collected, rows);
    SameElements(collected, rows);
  }

  /** The rows of one space's projects by position, then name. */
  method ListProjects(projects: map<string, Project>, spaceId: string) returns (rows: seq<Project>)
    requires forall p | p in projects :: projects[p].id == p
    ensures IsProjectListing(projects, spaceId, rows)
  {
    var collected: seq<Project> := [];
    var ids := set p | p in projects && projects[p].spaceId == spaceId;
    var left := ids;
    while left != {}
      invariant left <= ids
      invariant forall p :: p in collected <==> p.id in ids - left && projects[p.id] == p
      invariant NoDuplicates(collected)
      decreases left
    {
      var id :| id in left;
      left := left - {id};
      collected := collected + [projects[id]];
    }
    rows := Sort(collected, ProjectLe);
    SpaceLeIsPreorder();
    SortSorted(collected, ProjectLe);
    PermutationNoDuplicates(collected, rows);
    SameElements(collected, rows);
  }
}
