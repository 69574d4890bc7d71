/** The in-process `Storage` of `fakes.rs`: hand-simulated maps under one lock. Every
    operation is a method on the maps, proved to do to the registry they stand for what
    the reference operation does. The tag list of each meeting is kept sorted and free
    of duplicates, and ids come from counters that never repeat; the integrity of the
    registry is a theorem about runs and not needed for this. */
module InMemoryStorage {
  import opened Options
  import opened Sorting
  import opened Registry
  import opened RegistryRuns
  import opened RegistryListing
  import opened Decimals

  function NumberedId(prefix: string, n: nat): (id: string)
  {
    prefix + Decimal(n)
  }

  lemma NumberedIdInjective(prefix: string, a: nat, b: nat)
    requires NumberedId(prefix, a) == NumberedId(prefix, b)
    ensures a == b
  {
    assert NumberedId(prefix, a)[|prefix|..] == Decimal(a);
    assert NumberedId(prefix, b)[|prefix|..] == Decimal(b);
    DecimalInjective(a, b);
  }

  /** All ids were drawn from a counter that has moved on. */
  ghost predicate DrawnBefore(ids: set<string>, prefix: string, next: nat)
  {
    forall id | id in ids :: exists n | 0 <= n < next :: id == NumberedId(prefix, n)
  }

  lemma FewerIds(ids: set<string>, fewer: set<string>, prefix: string, next: nat)
    requires DrawnBefore(ids, prefix, next) && fewer <= ids
    ensures DrawnBefore(fewer, prefix, next)
  {
  }

  lemma NextIsFresh(ids: set<string>, prefix: string, next: nat)
    requires DrawnBefore(ids, prefix, next)
    ensures NumberedId(prefix, next) !in ids
    ensures DrawnBefore(ids + {NumberedId(prefix, next)}, prefix, next + 1)
  {
    if NumberedId(prefix, next) in ids {
      var n :| 0 <= n < next && NumberedId(prefix, next) == NumberedId(prefix, n);
      NumberedIdInjective(prefix, next, n);
    }
    forall id | id in ids + {NumberedId(prefix, next)}
      ensures exists n | 0 <= n < next + 1 :: id == NumberedId(prefix, n)
    {
      if id in ids {
        var n :| 0 <= n < next && id == NumberedId(prefix, n);
      }
    }
  }

  function Pairs(meetingTags: map<string, seq<string>>): (r: set<(string, string)>)
  {
    set m, t | m in meetingTags && t in meetingTags[m] :: (m, t)
  }

  ghost predicate TagListsOk(meetingTags: map<string, seq<string>>)
  {
    forall m | m in meetingTags :: Sorted(meetingTags[m], StrLe) && NoDuplicates(meetingTags[m])
  }

  class Store {
    var meetings: map<string, Meeting>
    var notes: map<string, Note>
    var spaces: map<string, Space>
    var projects: map<string, Project>
    var tags: map<string, Tag>
    var meetingTags: map<string, seq<string>>
    var meetingSpaces: map<string, string>
    var meetingProjects: map<string, string>
    var nextSpaceId: nat
    var nextProjectId: nat
    var nextTagId: nat

    /** The registry these maps stand for. */
    ghost function View(): (r: Registry)
      reads this
    {
      Registry(meetings, notes, spaces, projects, tags, Pairs(meetingTags), meetingSpaces, meetingProjects)
    }

    ghost predicate CountersOk()
      reads this
    {
      && DrawnBefore(spaces.Keys, "space_", nextSpaceId)
      && DrawnBefore(projects.Keys, "project_", nextProjectId)
      && DrawnBefore(tags.Keys, "tag_", nextTagId)
    }

    /** Sorted duplicate-free tag lists and live counters; the integrity of
        `View()` itself is a theorem about runs. */
    ghost predicate Valid()
      reads this
    {
      TagListsOk(meetingTags) && CountersOk()
    }

    constructor ()
      ensures Valid() && View() == EMPTY
    {
      meetings, notes, spaces, projects, tags := map[], map[], map[], map[], map[];
      meetingTags, meetingSpaces, meetingProjects := map[], map[], map[];
      nextSpaceId, nextProjectId, nextTagId := 1, 1, 1;
    }

    method CreateMeeting(d: MeetingDraft) returns (r: Result<Meeting>)
      requires Valid()
      modifies this
      ensures Valid() && (View(), MeetingOutcome(r)) == DoCreateMeeting(old(View()), d)
    {
      if d.id in meetings {
        return Err(AlreadyExists(d.id, "meeting"));
      }
      if exists m | m in meetings :: meetings[m].dirPath == d.dirPath {
        return Err(UniqueConflict("meeting", "dir_path", d.dirPath));
      }
      var m := Meeting(d.id, d.title, d.startedAt, None, None, d.language, d.dirPath);
      meetings := meetings[d.id := m];
      r := Ok(m);
    }

    method CreateMeetingWithNote(d: MeetingDraft, nd: NoteDraft, endedAt: Option<string>, durationMs: Option<u64>)
        returns (r: Result<(Meeting, Note)>)
      requires Valid()
      modifies this
      ensures Valid() && (View(), BothOutcome(r)) == DoCreateMeetingWithNote(old(View()), d, nd, endedAt, durationMs)
    {
      if d.id in meetings {
        return Err(AlreadyExists(d.id, "meeting"));
      }
      if exists m | m in meetings :: meetings[m].dirPath == d.dirPath {
        return Err(UniqueConflict("meeting", "dir_path", d.dirPath));
      }
      if nd.meetingId != d.id {
        return Err(Sql);
      }
      if nd.id in notes {
        return Err(AlreadyExists(nd.id, "note"));
      }
      var m := Meeting(d.id, d.title, d.startedAt, endedAt, durationMs, d.language, d.dirPath);
      var n := Note(nd.id, nd.meetingId, nd.dialect, nd.contentMd, nd.primaryPath);
      meetings := meetings[d.id := m];
      notes := notes[nd.id := n];
      r := Ok((m, n));
    }

    method GetMeeting(id: string) returns (r: Result<Meeting>)
      ensures r == if id in meetings then Ok(meetings[id]) else Err(NotFound(id, "meeting"))
    {
      if id in meetings {
        return Ok(meetings[id]);
      }
      r := Err(NotFound(id, "meeting"));
    }

    method UpdateMeetingEnded(id: string, end: string, duration: u64) returns (r: Result<Meeting>)
      requires Valid()
      modifies this
      ensures Valid() && (View(), MeetingOutcome(r)) == DoUpdateMeetingEnded(old(View()), id, end, duration)
    {
      if id !in meetings {
        return Err(NotFound(id, "meeting"));
      }
      meetings := meetings[id := meetings[id].(endedAt := Some(end))];
      meetings := meetings[id := meetings[id].(durationMs := Some(duration))];
      assert meetings == old(meetings)[id := old(meetings)[id].(endedAt := Some(end), durationMs := Some(duration))];
      r := Ok(meetings[id]);
    }

    method RenameMeeting(id: string, title: string) returns (r: Result<Meeting>)
      requires Valid()
      modifies this
      ensures Valid() && (View(), MeetingOutcome(r)) == DoRenameMeeting(old(View()), id, title)
    {
      if id !in meetings {
        return Err(NotFound(id, "meeting"));
      }
      meetings := meetings[id := meetings[id].(title := title)];
      r := Ok(meetings[id]);
    }

    method DeleteMeeting(id: string) returns (r: Result<()>)
      requires Valid()
      modifies this
      ensures Valid() && (View(), UnitOutcome(r)) == DoDeleteMeeting(old(View()), id)
    {
      if id !in meetings {
        return Err(NotFound(id, "meeting"));
      }
      meetings := meetings - {id};
      notes := map n | n in notes && notes[n].meetingId != id :: notes[n];
      WithoutMeetingPairs(meetingTags, id);
      meetingTags := meetingTags - {id};
      meetingSpaces := meetingSpaces - {id};
      meetingProjects := meetingProjects - {id};
      r := Ok(());
    }

    method CreateNote(d: NoteDraft) returns (r: Result<Note>)
      requires Valid()
      modifies this
      ensures Valid() && (View(), NoteOutcome(r)) == DoCreateNote(old(View()), d)
    {
      if d.meetingId !in meetings {
        return Err(NotFound(d.meetingId, "meeting"));
      }
      if d.id in notes {
        return Err(AlreadyExists(d.id, "note"));
      }
      var n := Note(d.id, d.meetingId, d.dialect, d.contentMd, d.primaryPath);
      notes := notes[d.id := n];
      r := Ok(n);
    }

    method ReplaceMeetingNote(meetingId: string, d: NoteDraft) returns (r: Result<Note>)
      requires Valid()
      modifies this
      ensures Valid() && (View(), NoteOutcome(r)) == DoReplaceMeetingNote(old(View()), meetingId, d)
    {
      if d.meetingId != meetingId {
        return Err(Sql);
      }
      if meetingId !in meetings {
        return Err(NotFound(meetingId, "meeting"));
      }
      if d.id in notes && notes[d.id].meetingId != meetingId {
        return Err(AlreadyExists(d.id, "note"));
      }
      notes := map n | n in notes && notes[n].meetingId != meetingId :: notes[n];
      var n := Note(d.id, d.meetingId, d.dialect, d.contentMd, d.primaryPath);
      notes := notes[d.id := n];
      r := Ok(n);
    }

    method CreateSpace(name: string) returns (r: Result<Space>)
      requires Valid()
      modifies this
      ensures Valid() && r.Ok?
      ensures (View(), SpaceOutcome(r)) == DoCreateSpace(old(View()), name, NumberedId("space_", old(nextSpaceId)))
    {
      var id := NumberedId("space_", nextSpaceId);
      NextIsFresh(spaces.Keys, "space_", nextSpaceId);
      nextSpaceId := nextSpaceId + 1;
      var position := ComputeNextPosition(map s | s in spaces :: spaces[s].position);
      var space := Space(id, name, position);
      assert spaces[id := space].Keys == spaces.Keys + {id};
      spaces := spaces[id := space];
      r := Ok(space);
    }

    method RenameSpace(id: string, name: string) returns (r: Result<()>)
      requires Valid()
      modifies this
      ensures Valid() && (View(), UnitOutcome(r)) == DoRenameSpace(old(View()), id, name)
    {
      if id !in spaces {
        return Err(NotFound(id, "space"));
      }
      assert spaces[id := spaces[id].(name := name)].Keys == spaces.Keys;
      spaces := spaces[id := spaces[id].(name := name)];
      r := Ok(());
    }

    method ClearSpaceAssignments(spaceId: string)
      modifies this`meetingSpaces
      ensures meetingSpaces == WithoutValues(old(meetingSpaces), {spaceId})
    {
      var left := set m | m in meetingSpaces && meetingSpaces[m] == spaceId;
      while left != {}
        invariant left == set m | m in meetingSpaces && meetingSpaces[m] == spaceId
        invariant WithoutValues(meetingSpaces, {spaceId}) == WithoutValues(old(meetingSpaces), {spaceId})
        decreases left
      {
        var m :| m in left;
        meetingSpaces := meetingSpaces - {m};
        left := left - {m};
      }
      assert forall m | m in meetingSpaces :: meetingSpaces[m] == spaceId ==> m in left;
      assert WithoutValues(meetingSpaces, {spaceId}) == meetingSpaces;
    }

    method ClearProjectAssignments(projectId: string)
      modifies this`meetingProjects
      ensures meetingProjects == WithoutValues(old(meetingProjects), {projectId})
    {
      var left := set m | m in meetingProjects && meetingProjects[m] == projectId;
      while left != {}
        invariant left == set m | m in meetingProjects && meetingProjects[m] == projectId
        invariant WithoutValues(meetingProjects, {projectId}) == WithoutValues(old(meetingProjects), {projectId})
        decreases left
      {
        var m :| m in left;
        meetingProjects := meetingProjects - {m};
        left := left - {m};
      }
      assert forall m | m in meetingProjects :: meetingProjects[m] == projectId ==> m in left;
      assert WithoutValues(meetingProjects, {projectId}) == meetingProjects;
    }

    /** The loop of `delete_space` over the projects collected beforehand. */
    method DeleteProjectsOf(spaceId: string)
      modifies this`projects, this`meetingProjects
      ensures projects == old(projects) - ProjectsOf(old(projects), spaceId)
      ensures meetingProjects == WithoutValues(old(meetingProjects), ProjectsOf(old(projects), spaceId))
    {
      ghost var gone := ProjectsOf(projects, spaceId);
      var left := set p | p in projects && projects[p].spaceId == spaceId;
      assert gone - left == {};
      while left != {}
        invariant left <= gone
        invariant projects == old(projects) - (gone - left)
        invariant meetingProjects == WithoutValues(old(meetingProjects), gone - left)
        decreases left
      {
        var p :| p in left;
        projects := projects - {p};
        ghost var before := left;
        left := left - {p};
        ClearProjectAssignments(p);
        assert gone - left == gone - before + {p};
      }
      assert gone - left == gone;
    }

    /** The removals of `delete_space`, map by map. */
    method DropSpace(id: string)
      requires CountersOk()
      modifies this`spaces, this`projects, this`meetingProjects, this`meetingSpaces
      ensures CountersOk()
      ensures spaces == old(spaces) - {id}
      ensures projects == old(projects) - ProjectsOf(old(projects), id)
      ensures meetingProjects == WithoutValues(old(meetingProjects), ProjectsOf(old(projects), id))
      ensures meetingSpaces == WithoutValues(old(meetingSpaces), {id})
    {
      FewerIds(spaces.Keys, (spaces - {id}).Keys, "space_", nextSpaceId);
      FewerIds(projects.Keys, (projects - ProjectsOf(projects, id)).Keys, "project_", nextProjectId);
      spaces := spaces - {id};
      DeleteProjectsOf(id);
      ClearSpaceAssignments(id);
    }

    method DeleteSpace(id: string) returns (r: Result<()>)
      requires Valid()
      modifies this
      ensures Valid() && (View(), UnitOutcome(r)) == DoDeleteSpace(old(View()), id)
    {
      if id !in spaces {
        return Err(NotFound(id, "space"));
      }
      DropSpace(id);
      r := Ok(());
    }

    method CreateProject(spaceId: string, name: string) returns (r: Result<Project>)
      requires Valid()
      modifies this
      ensures Valid()
      ensures (View(), ProjectOutcome(r)) ==
              DoCreateProject(old(View()), spaceId, name, NumberedId("project_", old(nextProjectId)))
    {
      var id := NumberedId("project_", nextProjectId);
      NextIsFresh(projects.Keys, "project_", nextProjectId);
      if spaceId !in spaces {
        return Err(NotFound(spaceId, "space"));
      }
      nextProjectId := nextProjectId + 1;
      var position := ComputeNextPosition(
        map p | p in projects && projects[p].spaceId == spaceId :: projects[p].position);
      var project := Project(id, spaceId, name, position);
      assert projects[id := project].Keys == projects.Keys + {id};
      projects := projects[id := project];
      r := Ok(project);
    }

    method RenameProject(id: string, name: string) returns (r: Result<()>)
      requires Valid()
      modifies this
      ensures Valid() && (View(), UnitOutcome(r)) == DoRenameProject(old(View()), id, name)
    {
      if id !in projects {
        return Err(NotFound(id, "project"));
      }
      assert projects[id := projects[id].(name := name)].Keys == projects.Keys;
      projects := projects[id := projects[id].(name := name)];
      r := Ok(());
    }

    method DeleteProject(id: string) returns (r: Result<()>)
      requires Valid()
      modifies this
      ensures Valid() && (View(), UnitOutcome(r)) == DoDeleteProject(old(View()), id)
    {
      if id !in projects {
        return Err(NotFound(id, "project"));
      }
      projects := projects - {id};
      ClearProjectAssignments(id);
      r := Ok(());
    }

    method CreateTag(name: string) returns (r: Result<Tag>)
      requires Valid()
      modifies this
      ensures Valid() && r.Ok?
      ensures TagsOk(old(tags)) ==>
                (View(), TagOutcome(r)) == DoCreateTag(old(View()), name, NumberedId("tag_", old(nextTagId)))
    {
      if t :| t in tags && tags[t].name == name {
        assert NameTaken(tags, name);
        return Ok(tags[t]);
      }
      var id := NumberedId("tag_", nextTagId);
      NextIsFresh(tags.Keys, "tag_", nextTagId);
      nextTagId := nextTagId + 1;
      var tag := Tag(id, name);
      assert tags[id := tag].Keys == tags.Keys + {id};
      tags := tags[id := tag];
      r := Ok(tag);
    }

    method DeleteTag(id: string) returns (r: Result<()>)
      requires Valid()
      modifies this
      ensures Valid() && (View(), UnitOutcome(r)) == DoDeleteTag(old(View()), id)
    {
      if id !in tags {
        return Err(NotFound(id, "tag"));
      }
      tags := tags - {id};
      WithoutTagPairs(meetingTags, id);
      meetingTags := WithoutTag(meetingTags, id);
      r := Ok(());
    }

    method TagMeeting(meetingId: string, tagId: string) returns (r: Result<()>)
      requires Valid()
      modifies this
      ensures Valid() && (View(), UnitOutcome(r)) == DoTagMeeting(old(View()), meetingId, tagId)
    {
      if meetingId !in meetings {
        return Err(NotFound(meetingId, "meeting"));
      }
      if tagId !in tags {
        return Err(NotFound(tagId, "tag"));
      }
      var ids := if meetingId in meetingTags then meetingTags[meetingId] else [];
      if tagId !in ids {
        ListPushed(ids, tagId);
        ids := Sort(ids + [tagId], StrLe);
      }
      PairsUpdated(meetingTags, meetingId, ids);
      assert Pairs(meetingTags[meetingId := ids]) == Pairs(meetingTags) + {(meetingId, tagId)};
      meetingTags := meetingTags[meetingId := ids];
      r := Ok(());
    }

    method UntagMeeting(meetingId: string, tagId: string) returns (r: Result<()>)
      requires Valid()
      modifies this
      ensures Valid() && (View(), UnitOutcome(r)) == DoUntagMeeting(old(View()), meetingId, tagId)
    {
      if meetingId !in meetings {
        return Err(NotFound(meetingId, "meeting"));
      }
      if tagId !in tags {
        return Err(NotFound(tagId, "tag"));
      }
      if meetingId in meetingTags {
        var ids := Retain(meetingTags[meetingId], tagId);
        RetainSorted(meetingTags[meetingId], tagId);
        PairsUpdated(meetingTags, meetingId, ids);
        assert Pairs(meetingTags[meetingId := ids]) == Pairs(meetingTags) - {(meetingId, tagId)};
        meetingTags := meetingTags[meetingId := ids];
      }
      assert Pairs(meetingTags) == Pairs(old(meetingTags)) - {(meetingId, tagId)};
      r := Ok(());
    }

    method SetAssignment(meetingId: string, space: Option<string>, project: Option<string>)
      modifies this`meetingSpaces, this`meetingProjects
      ensures meetingSpaces == Assigned(old(meetingSpaces), meetingId, space)
      ensures meetingProjects == Assigned(old(meetingProjects), meetingId, project)
    {
      match space {
        case Some(id) => meetingSpaces := meetingSpaces[meetingId := id];
        case None => meetingSpaces := meetingSpaces - {meetingId};
      }
      match project {
        case Some(id) => meetingProjects := meetingProjects[meetingId := id];
        case None => meetingProjects := meetingProjects - {meetingId};
      }
    }

    method AssignMeeting(meetingId: string, space: Option<string>, project: Option<string>) returns (r: Result<()>)
      requires Valid()
      modifies this
      ensures Valid()
      ensures (forall p | p in old(projects) :: old(projects)[p].id == p) ==>
                (View(), UnitOutcome(r)) == DoAssignMeeting(old(View()), meetingId, space, project)
    {
      if meetingId !in meetings {
        return Err(NotFound(meetingId, "meeting"));
      }
      if project.Some? {
        if project.value !in projects {
          return Err(NotFound(project.value, "project"));
        }
        var p := projects[project.value];
        SetAssignment(meetingId, Some(p.spaceId), Some(p.id));
        return Ok(());
      }
      if space.Some? && space.value !in spaces {
        return Err(NotFound(space.value, "space"));
      }
      SetAssignment(meetingId, space, None);
      r := Ok(());
    }

    method ListSpaces() returns (rows: seq<Space>)
      requires SpacesOk(spaces)
      ensures IsSpaceListing(spaces, rows)
    {
      rows := RegistryListing.ListSpaces(spaces);
    }

    method ListProjectsOf(spaceId: string) returns (rows: seq<Project>)
      requires ProjectsOk(projects, spaces.Keys)
      ensures IsProjectListing(projects, spaceId, rows)
    {
      rows := RegistryListing.ListProjects(projects, spaceId);
    }

    /** The filter closure of `list_meetings_filtered`. */
    method Passes(f: Filter, id: string) returns (ok: bool)
      ensures ok == Matches(View(), f, id)
    {
      if f.unsorted && id in meetingSpaces {
        return false;
      }
      if f.spaceId.Some? && (id !in meetingSpaces || meetingSpaces[id] != f.spaceId.value) {
        return false;
      }
      if f.projectId.Some? && (id !in meetingProjects || meetingProjects[id] != f.projectId.value) {
        return false;
      }
      if f.tagId.Some? && !(id in meetingTags && f.tagId.value in meetingTags[id]) {
        return false;
      }
      return true;
    }

    method Summarize(id: string) returns (row: MeetingSummary)
      requires Valid() && id in meetings
      ensures IsSummary(View(), row) && row.id == id
    {
      var m := meetings[id];
      row := MeetingSummary(
        id, m.title, m.startedAt, m.endedAt, DurationOrZero(m.durationMs), m.language,
        exists n | n in notes :: notes[n].meetingId == id,
        Lookup(meetingSpaces, id), Lookup(meetingProjects, id),
        if id in meetingTags then meetingTags[id] else []);
    }

    /** Filter, map, then sort. */
    method ListMeetingsFiltered(f: Filter) returns (rows: seq<MeetingSummary>)
      requires Valid()
      ensures IsMeetingListing(View(), f, rows)
    {
      var collected: seq<MeetingSummary> := [];
      var left := meetings.Keys;
      while left != {}
        invariant left <= meetings.Keys
        invariant forall row | row in collected ::
                    IsSummary(View(), row) && Matches(View(), f, row.id) && row.id in meetings.Keys - left
        invariant forall id | id in meetings.Keys - left && Matches(View(), f, id) :: HasRow(collected, id)
        invariant NoDuplicates(collected)
        decreases left
      {
        var id :| id in left;
        var ok := Passes(f, id);
        if ok {
          var row := Summarize(id);
          HasRowAppended(collected, row);
          collected := collected + [row];
        }
        left := left - {id};
      }
      rows := Sort(collected, NewestFirst);
      NewestFirstIsPreorder();
      SortSorted(collected, NewestFirst);
      PermutationNoDuplicates(collected, rows);
      SameElements(collected, rows);
      HasRowPermuted(collected, rows);
    }
  }

  // ---------------------------------------------------------------- tag lists

  /** `Vec::retain(|t| t != x)`. */
  function Retain(s: seq<string>, x: string): (r: seq<string>)
    ensures forall y :: y in r <==> y in s && y != x
  {
    if s == [] then [] else (if s[0] != x then [s[0]] else []) + Retain(s[1..], x)
  }

  lemma {:induction false} RetainSorted(s: seq<string>, x: string)
    requires Sorted(s, StrLe) && NoDuplicates(s)
    ensures Sorted(Retain(s, x), StrLe) && NoDuplicates(Retain(s, x))
  {
    if s != [] {
      RetainSorted(s[1..], x);
      forall y | y in Retain(s[1..], x)
        ensures StrLe(s[0], y) && s[0] != y
      {
        var j :| 0 <= j < |s[1..]| && s[1..][j] == y;
        assert s[j + 1] == y;
      }
    }
  }

  lemma ListPushed(ids: seq<string>, x: string)
    requires Sorted(ids, StrLe) && NoDuplicates(ids) && x !in ids
    ensures var r := Sort(ids + [x], StrLe);
            && Sorted(r, StrLe) && NoDuplicates(r)
            && forall y :: y in r <==> y in ids || y == x
  {
    var pushed := ids + [x];
    StrLeIsPreorder();
    SortSorted(pushed, StrLe);
    assert NoDuplicates(pushed);
    PermutationNoDuplicates(pushed, Sort(pushed, StrLe));
    SameElements(pushed, Sort(pushed, StrLe));
  }

  lemma PairsUpdated(mt: map<string, seq<string>>, m: string, ids: seq<string>)
    ensures forall p :: p in Pairs(mt[m := ids]) <==> if p.0 == m then p.1 in ids else p in Pairs(mt)
    ensures forall p :: p in Pairs(mt) && p.0 == m ==> m in mt && p.1 in mt[m]
  {
  }

  function WithoutTag(mt: map<string, seq<string>>, id: string): (r: map<string, seq<string>>)
  {
    map m | m in mt :: Retain(mt[m], id)
  }

  lemma WithoutTagPairs(mt: map<string, seq<string>>, id: string)
    requires TagListsOk(mt)
    ensures TagListsOk(WithoutTag(mt, id))
    ensures Pairs(WithoutTag(mt, id)) == set p | p in Pairs(mt) && p.1 != id
  {
    var mt' := WithoutTag(mt, id);
    forall m | m in mt {
      RetainSorted(mt[m], id);
    }
    forall m, t
      ensures (m, t) in Pairs(mt') <==> (m, t) in Pairs(mt) && t != id
    {
    }
  }

  lemma WithoutMeetingPairs(mt: map<string, seq<string>>, id: string)
    ensures Pairs(mt - {id}) == set p | p in Pairs(mt) && p.0 != id
  {
    forall m, t
      ensures (m, t) in Pairs(mt - {id}) <==> (m, t) in Pairs(mt) && m != id
    {
    }
  }
}
