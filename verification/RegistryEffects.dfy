/** What each registry operation does, as far as it can be observed. */
module RegistryEffects {
  import opened Options
  import opened Sorting
  import opened Registry
  import opened RegistryListing

  // Every operation: exactly when it is refused, what is there afterwards, and that
  // nothing else has changed.

  /** Apart from meeting `id`, the same meetings are there, unchanged. */
  ghost predicate OtherMeetings(r: Registry, q: Registry, id: string)
  {
    forall m | m != id :: (m in q.meetings <==> m in r.meetings) && (m in r.meetings ==> q.meetings[m] == r.meetings[m])
  }

  ghost predicate OtherSpaces(r: Registry, q: Registry, id: string)
  {
    forall x | x != id :: (x in q.spaces <==> x in r.spaces) && (x in r.spaces ==> q.spaces[x] == r.spaces[x])
  }

  ghost predicate OtherProjects(r: Registry, q: Registry, id: string)
  {
    forall p | p != id :: (p in q.projects <==> p in r.projects) && (p in r.projects ==> q.projects[p] == r.projects[p])
  }

  ghost predicate OtherTags(r: Registry, q: Registry, id: string)
  {
    forall t | t != id :: (t in q.tags <==> t in r.tags) && (t in r.tags ==> q.tags[t] == r.tags[t])
  }

  ghost predicate OtherNotes(r: Registry, q: Registry, id: string)
  {
    forall n | n != id :: (n in q.notes <==> n in r.notes) && (n in r.notes ==> q.notes[n] == r.notes[n])
  }

  /** Apart from meeting `id`, the same meetings are in the same spaces and projects. */
  ghost predicate OtherAssignments(r: Registry, q: Registry, id: string)
  {
    && (forall m | m != id :: (m in q.spaceOf <==> m in r.spaceOf) && (m in r.spaceOf ==> q.spaceOf[m] == r.spaceOf[m]))
    && (forall m | m != id ::
          (m in q.projectOf <==> m in r.projectOf) && (m in r.projectOf ==> q.projectOf[m] == r.projectOf[m]))
  }

  ghost predicate SameFolders(r: Registry, q: Registry)
  {
    q.spaces == r.spaces && q.projects == r.projects && q.spaceOf == r.spaceOf && q.projectOf == r.projectOf
  }

  ghost predicate SameTagging(r: Registry, q: Registry)
  {
    q.tags == r.tags && q.tagged == r.tagged
  }

  ghost predicate DirectoryUsed(r: Registry, dirPath: string)
  {
    exists m | m in r.meetings :: r.meetings[m].dirPath == dirPath
  }

  // ------------------------------------------------------------------------ meetings

  lemma CreateMeetingDoes(r: Registry, d: MeetingDraft, newId: string)
    ensures var (q, o) := Apply(r, CreateMeeting(d), newId);
      if d.id in r.meetings || DirectoryUsed(r, d.dirPath) then o == Failed && q == r
      else
        && d.id in q.meetings
        && q.meetings[d.id] == Meeting(d.id, d.title, d.startedAt, None, None, d.language, d.dirPath)
        && o == GotMeeting(q.meetings[d.id])
        && OtherMeetings(r, q, d.id) && q.notes == r.notes && SameFolders(r, q) && SameTagging(r, q)
  {
  }

  lemma CreateMeetingWithNoteDoes(r: Registry, d: MeetingDraft, nd: NoteDraft, end: Option<string>,
                                  duration: Option<u64>, newId: string)
    ensures var (q, o) := Apply(r, CreateMeetingWithNote(d, nd, end, duration), newId);
      if d.id in r.meetings || DirectoryUsed(r, d.dirPath) || nd.meetingId != d.id || nd.id in r.notes then
        o == Failed && q == r
      else
        && d.id in q.meetings && nd.id in q.notes
        && q.meetings[d.id] == Meeting(d.id, d.title, d.startedAt, end, duration, d.language, d.dirPath)
        && q.notes[nd.id] == Note(nd.id, d.id, nd.dialect, nd.contentMd, nd.primaryPath)
        && o == GotBoth(q.meetings[d.id], q.notes[nd.id])
        && OtherMeetings(r, q, d.id) && OtherNotes(r, q, nd.id) && SameFolders(r, q) && SameTagging(r, q)
  {
  }

  lemma UpdateMeetingEndedDoes(r: Registry, id: string, end: string, duration: u64, newId: string)
    ensures var (q, o) := Apply(r, UpdateMeetingEnded(id, end, duration), newId);
      if id !in r.meetings then o == Failed && q == r
      else
        && id in q.meetings && q.meetings[id].endedAt == Some(end) && q.meetings[id].durationMs == Some(duration)
        && q.meetings[id].id == r.meetings[id].id && q.meetings[id].title == r.meetings[id].title
        && q.meetings[id].startedAt == r.meetings[id].startedAt
        && q.meetings[id].language == r.meetings[id].language && q.meetings[id].dirPath == r.meetings[id].dirPath
        && o == GotMeeting(q.meetings[id])
        && OtherMeetings(r, q, id) && q.notes == r.notes && SameFolders(r, q) && SameTagging(r, q)
  {
  }

  lemma RenameMeetingDoes(r: Registry, id: string, title: string, newId: string)
    ensures var (q, o) := Apply(r, RenameMeeting(id, title), newId);
      if id !in r.meetings then o == Failed && q == r
      else
        && id in q.meetings && q.meetings[id].title == title
        && q.meetings[id].id == r.meetings[id].id && q.meetings[id].startedAt == r.meetings[id].startedAt
        && q.meetings[id].endedAt == r.meetings[id].endedAt && q.meetings[id].durationMs == r.meetings[id].durationMs
        && q.meetings[id].language == r.meetings[id].language && q.meetings[id].dirPath == r.meetings[id].dirPath
        && o == GotMeeting(q.meetings[id])
        && OtherMeetings(r, q, id) && q.notes == r.notes && SameFolders(r, q) && SameTagging(r, q)
  {
  }

  lemma DeleteMeetingDoes(r: Registry, id: string, newId: string)
    ensures var (q, o) := Apply(r, DeleteMeeting(id), newId);
      if id !in r.meetings then o == Failed && q == r
      else
        && o == Done && id !in q.meetings && id !in q.spaceOf && id !in q.projectOf
        && (forall n :: n in q.notes <==> n in r.notes && r.notes[n].meetingId != id)
        && (forall n | n in q.notes :: q.notes[n] == r.notes[n])
        && (forall p :: p in q.tagged <==> p in r.tagged && p.0 != id)
        && OtherMeetings(r, q, id) && OtherAssignments(r, q, id)
        && q.spaces == r.spaces && q.projects == r.projects && q.tags == r.tags
  {
  }

  // --------------------------------------------------------------------------- notes

  lemma CreateNoteDoes(r: Registry, nd: NoteDraft, newId: string)
    ensures var (q, o) := Apply(r, CreateNote(nd), newId);
      if nd.meetingId !in r.meetings || nd.id in r.notes then o == Failed && q == r
      else
        && nd.id in q.notes
        && q.notes[nd.id] == Note(nd.id, nd.meetingId, nd.dialect, nd.contentMd, nd.primaryPath)
        && o == GotNote(q.notes[nd.id])
        && OtherNotes(r, q, nd.id) && q.meetings == r.meetings && SameFolders(r, q) && SameTagging(r, q)
  {
  }

  /** The new note may take the id of an old note of the same meeting, since that one goes. */
  lemma ReplaceMeetingNoteDoes(r: Registry, meetingId: string, nd: NoteDraft, newId: string)
    ensures var (q, o) := Apply(r, ReplaceMeetingNote(meetingId, nd), newId);
      if || nd.meetingId != meetingId || meetingId !in r.meetings
         || (nd.id in r.notes && r.notes[nd.id].meetingId != meetingId) then o == Failed && q == r
      else
        && nd.id in q.notes
        && q.notes[nd.id] == Note(nd.id, meetingId, nd.dialect, nd.contentMd, nd.primaryPath)
        && o == GotNote(q.notes[nd.id])
        && (forall n | n != nd.id :: n in q.notes <==> n in r.notes && r.notes[n].meetingId != meetingId)
        && (forall n | n in q.notes && n != nd.id :: q.notes[n] == r.notes[n])
        && q.meetings == r.meetings && SameFolders(r, q) && SameTagging(r, q)
  {
  }

  // -------------------------------------------------------------- spaces and projects

  lemma CreateSpaceDoes(r: Registry, name: string, newId: string)
    ensures var (q, o) := Apply(r, CreateSpace(name), newId);
      if newId in r.spaces then o == Failed && q == r
      else
        && newId in q.spaces && q.spaces[newId].id == newId && q.spaces[newId].name == name
        && o == GotSpace(q.spaces[newId])
        && (forall x | x in r.spaces :: r.spaces[x].position < q.spaces[newId].position)
        && (r.spaces == map[] ==> q.spaces[newId].position == 0)
        && (r.spaces != map[] ==> exists x | x in r.spaces :: r.spaces[x].position == q.spaces[newId].position - 1)
        && OtherSpaces(r, q, newId) && q.projects == r.projects && q.spaceOf == r.spaceOf && q.projectOf == r.projectOf
        && q.meetings == r.meetings && q.notes == r.notes && SameTagging(r, q)
  {
    SpaceGoesLast(r.spaces);
  }

  lemma SpaceGoesLast(spaces: map<string, Space>)
    ensures var p := NextPosition(SpacePositions(spaces));
      && (forall x | x in spaces :: spaces[x].position < p)
      && (spaces == map[] ==> p == 0)
      && (spaces != map[] ==> exists x | x in spaces :: spaces[x].position == p - 1)
  {
    var ps := SpacePositions(spaces);
    assert forall x :: x in ps <==> x in spaces;
    NextPositionAbove(ps);
    assert forall x | x in spaces :: spaces[x].position == ps[x];
    if spaces != map[] {
      var x :| x in spaces;
      assert x in ps;
      assert IsMax(ps, NextPosition(ps) - 1);
    }
  }

  lemma RenameSpaceDoes(r: Registry, id: string, name: string, newId: string)
    ensures var (q, o) := Apply(r, RenameSpace(id, name), newId);
      if id !in r.spaces then o == Failed && q == r
      else
        && o == Done && id in q.spaces && q.spaces[id].name == name
        && q.spaces[id].id == r.spaces[id].id && q.spaces[id].position == r.spaces[id].position
        && OtherSpaces(r, q, id) && q.projects == r.projects && q.spaceOf == r.spaceOf && q.projectOf == r.projectOf
        && q.meetings == r.meetings && q.notes == r.notes && SameTagging(r, q)
  {
  }

  /** The projects of the space go with it, and every assignment to it or to them. */
  lemma DeleteSpaceDoes(r: Registry, id: string, newId: string)
    ensures var (q, o) := Apply(r, DeleteSpace(id), newId);
      if id !in r.spaces then o == Failed && q == r
      else
        && o == Done && id !in q.spaces && OtherSpaces(r, q, id)
        && (forall p :: p in q.projects <==> p in r.projects && r.projects[p].spaceId != id)
        && (forall p | p in q.projects :: q.projects[p] == r.projects[p])
        && (forall m :: m in q.spaceOf <==> m in r.spaceOf && r.spaceOf[m] != id)
        && (forall m | m in q.spaceOf :: q.spaceOf[m] == r.spaceOf[m])
        && (forall m :: m in q.projectOf <==>
              m in r.projectOf && !(r.projectOf[m] in r.projects && r.projects[r.projectOf[m]].spaceId == id))
        && (forall m | m in q.projectOf :: q.projectOf[m] == r.projectOf[m])
        && q.meetings == r.meetings && q.notes == r.notes && SameTagging(r, q)
  {
  }

  lemma CreateProjectDoes(r: Registry, spaceId: string, name: string, newId: string)
    ensures var (q, o) := Apply(r, CreateProject(spaceId, name), newId);
      if spaceId !in r.spaces || newId in r.projects then o == Failed && q == r
      else
        var mine := set p | p in r.projects && r.projects[p].spaceId == spaceId;
        && newId in q.projects && q.projects[newId].id == newId && q.projects[newId].spaceId == spaceId
        && q.projects[newId].name == name && o == GotProject(q.projects[newId])
        && (forall p | p in mine :: r.projects[p].position < q.projects[newId].position)
        && (mine == {} ==> q.projects[newId].position == 0)
        && (mine != {} ==> exists p | p in mine :: r.projects[p].position == q.projects[newId].position - 1)
        && OtherProjects(r, q, newId) && q.spaces == r.spaces && q.spaceOf == r.spaceOf && q.projectOf == r.projectOf
        && q.meetings == r.meetings && q.notes == r.notes && SameTagging(r, q)
  {
    ProjectGoesLast(r.projects, spaceId);
  }

  lemma ProjectGoesLast(projects: map<string, Project>, spaceId: string)
    ensures var mine := (set p | p in projects && projects[p].spaceId == spaceId);
      var next := NextPosition(ProjectPositions(projects, spaceId));
      && (forall p | p in mine :: projects[p].position < next)
      && (mine == {} ==> next == 0)
      && (mine != {} ==> exists p | p in mine :: projects[p].position == next - 1)
  {
    var ps := ProjectPositions(projects, spaceId);
    var mine := set p | p in projects && projects[p].spaceId == spaceId;
    assert forall p :: p in ps <==> p in mine;
    NextPositionAbove(ps);
    assert forall p | p in mine :: projects[p].position == ps[p];
    if mine != {} {
      var p :| p in mine;
      assert p in ps;
      assert IsMax(ps, NextPosition(ps) - 1);
    }
    assert ps.Keys == mine;
  }

  lemma RenameProjectDoes(r: Registry, id: string, name: string, newId: string)
    ensures var (q, o) := Apply(r, RenameProject(id, name), newId);
      if id !in r.projects then o == Failed && q == r
      else
        && o == Done && id in q.projects && q.projects[id].name == name
        && q.projects[id].id == r.projects[id].id && q.projects[id].spaceId == r.projects[id].spaceId
        && q.projects[id].position == r.projects[id].position
        && OtherProjects(r, q, id) && q.spaces == r.spaces && q.spaceOf == r.spaceOf && q.projectOf == r.projectOf
        && q.meetings == r.meetings && q.notes == r.notes && SameTagging(r, q)
  {
  }

  /** Its meetings keep their space. */
  lemma DeleteProjectDoes(r: Registry, id: string, newId: string)
    ensures var (q, o) := Apply(r, DeleteProject(id), newId);
      if id !in r.projects then o == Failed && q == r
      else
        && o == Done && id !in q.projects && OtherProjects(r, q, id)
        && (forall m :: m in q.projectOf <==> m in r.projectOf && r.projectOf[m] != id)
        && (forall m | m in q.projectOf :: q.projectOf[m] == r.projectOf[m])
        && q.spaceOf == r.spaceOf && q.spaces == r.spaces
        && q.meetings == r.meetings && q.notes == r.notes && SameTagging(r, q)
  {
  }

  // ---------------------------------------------------------------------------- tags

  lemma CreateTagDoes(r: Registry, name: string, newId: string)
    ensures var (q, o) := Apply(r, CreateTag(name), newId);
      if exists t | t in r.tags :: r.tags[t].name == name then
        q == r && o.GotTag? && o.tag.name == name && exists t | t in r.tags :: r.tags[t] == o.tag
      else if newId in r.tags then o == Failed && q == r
      else
        && newId in q.tags && q.tags[newId] == Tag(newId, name) && o == GotTag(q.tags[newId])
        && OtherTags(r, q, newId) && q.tagged == r.tagged
        && q.meetings == r.meetings && q.notes == r.notes && SameFolders(r, q)
  {
  }

  lemma DeleteTagDoes(r: Registry, id: string, newId: string)
    ensures var (q, o) := Apply(r, DeleteTag(id), newId);
      if id !in r.tags then o == Failed && q == r
      else
        && o == Done && id !in q.tags && OtherTags(r, q, id)
        && (forall p :: p in q.tagged <==> p in r.tagged && p.1 != id)
        && q.meetings == r.meetings && q.notes == r.notes && SameFolders(r, q)
  {
  }

  /** Afterwards the listing by that tag has the meeting, and every other listing by a
      tag has what it had. */
  lemma TagMeetingDoes(r: Registry, meetingId: string, tagId: string, newId: string)
    ensures var (q, o) := Apply(r, TagMeeting(meetingId, tagId), newId);
      if meetingId !in r.meetings || tagId !in r.tags then o == Failed && q == r
      else
        && o == Done && (forall p :: p in q.tagged <==> p in r.tagged || p == (meetingId, tagId))
        && (forall m, t :: Matches(q, ByTag(t), m) <==> Matches(r, ByTag(t), m) || (m == meetingId && t == tagId))
        && q.tags == r.tags && q.meetings == r.meetings && q.notes == r.notes && SameFolders(r, q)
  {
  }

  lemma UntagMeetingDoes(r: Registry, meetingId: string, tagId: string, newId: string)
    ensures var (q, o) := Apply(r, UntagMeeting(meetingId, tagId), newId);
      if meetingId !in r.meetings || tagId !in r.tags then o == Failed && q == r
      else
        && o == Done && (forall p :: p in q.tagged <==> p in r.tagged && p != (meetingId, tagId))
        && (forall m, t :: Matches(q, ByTag(t), m) <==> Matches(r, ByTag(t), m) && !(m == meetingId && t == tagId))
        && q.tags == r.tags && q.meetings == r.meetings && q.notes == r.notes && SameFolders(r, q)
  {
  }

  // --------------------------------------------------------------------- assignments

  /** A project brings its space along; a space alone, or nothing, takes the meeting out
      of its project. */
  lemma AssignMeetingDoes(r: Registry, meetingId: string, space: Option<string>, project: Option<string>,
                          newId: string)
    ensures var (q, o) := Apply(r, AssignMeeting(meetingId, space, project), newId);
      if || meetingId !in r.meetings
         || (project.Some? && project.value !in r.projects)
         || (project.None? && space.Some? && space.value !in r.spaces) then o == Failed && q == r
      else
        && o == Done && OtherAssignments(r, q, meetingId)
        && (project.Some? ==>
              && meetingId in q.projectOf && q.projectOf[meetingId] == project.value
              && meetingId in q.spaceOf && q.spaceOf[meetingId] == r.projects[project.value].spaceId)
        && (project.None? ==> meetingId !in q.projectOf)
        && (project.None? && space.Some? ==> meetingId in q.spaceOf && q.spaceOf[meetingId] == space.value)
        && (project.None? && space.None? ==> meetingId !in q.spaceOf)
        && q.spaces == r.spaces && q.projects == r.projects
        && q.meetings == r.meetings && q.notes == r.notes && SameTagging(r, q)
  {
  }

  // ------------------------------------------------------------------------ listings

  function ByTag(tag: string): (f: Filter)
  {
    Filter(None, None, Some(tag), false)
  }

  /** What each part of a filter asks for; together they ask for all of it. */
  lemma FilterAsks(r: Registry, f: Filter, m: string)
    ensures f == Filter(None, None, None, false) ==> Matches(r, f, m)
    ensures f == ByTag(if f.tagId.Some? then f.tagId.value else "") ==>
              (Matches(r, f, m) <==> (m, f.tagId.value) in r.tagged)
    ensures Matches(r, f, m) ==>
      && (f.spaceId.Some? ==> m in r.spaceOf && r.spaceOf[m] == f.spaceId.value)
      && (f.projectId.Some? ==> m in r.projectOf && r.projectOf[m] == f.projectId.value)
      && (f.tagId.Some? ==> (m, f.tagId.value) in r.tagged)
      && (f.unsorted ==> m !in r.spaceOf)
    ensures !Matches(r, f, m) ==>
      || (f.spaceId.Some? && !(m in r.spaceOf && r.spaceOf[m] == f.spaceId.value))
      || (f.projectId.Some? && !(m in r.projectOf && r.projectOf[m] == f.projectId.value))
      || (f.tagId.Some? && (m, f.tagId.value) !in r.tagged)
      || (f.unsorted && m in r.spaceOf)
  {
  }

  /** What a row of a listing shows, field by field, and the order of the rows. */
  lemma ListingShows(r: Registry, f: Filter, rows: seq<MeetingSummary>, i: nat)
    requires IsMeetingListing(r, f, rows) && i < |rows|
    ensures rows[i].id in r.meetings
    ensures var row, m := rows[i], r.meetings[rows[i].id];
      && row.title == m.title && row.startedAt == m.startedAt && row.endedAt == m.endedAt && row.language == m.language
      && row.durationMs == (if m.durationMs.Some? then m.durationMs.value else 0)
      && (row.hasNotes <==> exists n | n in r.notes :: r.notes[n].meetingId == row.id)
      && row.spaceId == (if row.id in r.spaceOf then Some(r.spaceOf[row.id]) else None)
      && row.projectId == (if row.id in r.projectOf then Some(r.projectOf[row.id]) else None)
      && (forall t :: t in row.tags <==> (row.id, t) in r.tagged)
      && (forall j | i < j < |rows| :: StrLe(rows[j].startedAt, row.startedAt) && rows[j].id != row.id)
  {
    assert rows[i] in rows;
    forall j | i < j < |rows|
      ensures StrLe(rows[j].startedAt, rows[i].startedAt) && rows[j].id != rows[i].id
    {
      assert rows[j] in rows && NewestFirst(rows[i], rows[j]);
      if rows[j].id == rows[i].id {
        SummaryUnique(r, rows[i], rows[j]);
      }
    }
  }

  /** A listing has a row for each meeting that matches, and for no other. */
  lemma ListingHas(r: Registry, f: Filter, rows: seq<MeetingSummary>, m: string)
    requires IsMeetingListing(r, f, rows)
    ensures (exists i | 0 <= i < |rows| :: rows[i].id == m) <==> m in r.meetings && Matches(r, f, m)
  {
    if i :| 0 <= i < |rows| && rows[i].id == m {
      assert rows[i] in rows;
    }
    if m in r.meetings && Matches(r, f, m) {
      assert HasRow(rows, m);
    }
  }
}
