/** The SQLite `Storage` of `rusqlite_storage.rs`: tables, the constraints on them and the
    foreign-key actions that the schema declares. A registry is what the tables stand
    for: the assignment of a meeting is two nullable columns of its row, a tag on a
    meeting is a row of its own, and a duration goes through a signed column. Each
    operation is the statements that the adapter sends, in a transaction where it opens
    one, and is proved against the reference operation. */
module RelationalStorage {
  import opened Options
  import opened Sorting
  import opened Registry
  import opened RegistryRuns
  import opened RegistryListing

  type i64 = x: int | -0x8000_0000_0000_0000 <= x < 0x8000_0000_0000_0000

  datatype MeetingRow = MeetingRow(
    id: string, title: string, startedAt: string, endedAt: Option<string>, durationMs: Option<i64>,
    language: string, dirPath: string, spaceId: Option<string>, projectId: Option<string>)

  /** `v as i64`: a column holds 64 signed bits. */
  function AsSigned(v: u64): (i: i64)
  {
    if v < 0x8000_0000_0000_0000 then v else v - 0x1_0000_0000_0000_0000
  }

  /** The read side clamps a negative column to zero. */
  function ReadDuration(i: i64): (v: u64)
  {
    if i < 0 then 0 else i
  }

  function MeetingOf(row: MeetingRow): (m: Meeting)
  {
    Meeting(row.id, row.title, row.startedAt, row.endedAt,
            if row.durationMs.Some? then Some(ReadDuration(row.durationMs.value)) else None,
            row.language, row.dirPath)
  }

  /** What reading a stored duration gives back. */
  function Stored(v: u64): (r: u64)
  {
    ReadDuration(AsSigned(v))
  }

  function StoredOption(v: Option<u64>): (r: Option<u64>)
  {
    if v.Some? then Some(Stored(v.value)) else None
  }

  /** A duration survives the column if and only if it is below 2^63. */
  lemma StoredFaithfully(v: u64)
    ensures Stored(v) == v <==> v < 0x8000_0000_0000_0000
  {
  }

  type MeetingTable = map<string, MeetingRow>

  function Meetings(t: MeetingTable): (r: map<string, Meeting>)
  {
    map id | id in t :: MeetingOf(t[id])
  }

  function SpaceColumn(t: MeetingTable): (r: map<string, string>)
  {
    map id | id in t && t[id].spaceId.Some? :: t[id].spaceId.value
  }

  function ProjectColumn(t: MeetingTable): (r: map<string, string>)
  {
    map id | id in t && t[id].projectId.Some? :: t[id].projectId.value
  }

  // --------------------------------------------------------- foreign-key actions

  /** `meeting.space_id … ON DELETE SET NULL`. */
  function SpaceSetNull(t: MeetingTable, gone: set<string>): (r: MeetingTable)
  {
    map id | id in t :: if t[id].spaceId.Some? && t[id].spaceId.value in gone then t[id].(spaceId := None) else t[id]
  }

  /** `meeting.project_id … ON DELETE SET NULL`. */
  function ProjectSetNull(t: MeetingTable, gone: set<string>): (r: MeetingTable)
  {
    map id | id in t ::
      if t[id].projectId.Some? && t[id].projectId.value in gone then t[id].(projectId := None) else t[id]
  }

  lemma SpaceSetNullView(t: MeetingTable, gone: set<string>)
    ensures var t' := SpaceSetNull(t, gone);
            && Meetings(t') == Meetings(t)
            && SpaceColumn(t') == WithoutValues(SpaceColumn(t), gone)
            && ProjectColumn(t') == ProjectColumn(t)
  {
    var t' := SpaceSetNull(t, gone);
    assert t'.Keys == t.Keys;
    assert forall id | id in t :: t'[id].projectId == t[id].projectId && MeetingOf(t'[id]) == MeetingOf(t[id]);
    assert forall id | id in t ::
        t'[id].spaceId == (if t[id].spaceId.Some? && t[id].spaceId.value in gone then None else t[id].spaceId);
  }

  lemma ProjectSetNullView(t: MeetingTable, gone: set<string>)
    ensures var t' := ProjectSetNull(t, gone);
            && Meetings(t') == Meetings(t)
            && SpaceColumn(t') == SpaceColumn(t)
            && ProjectColumn(t') == WithoutValues(ProjectColumn(t), gone)
  {
  }

  lemma RowWritten(t: MeetingTable, id: string, row: MeetingRow)
    ensures var t' := t[id := row];
            && Meetings(t') == Meetings(t)[id := MeetingOf(row)]
            && SpaceColumn(t') == Assigned(SpaceColumn(t), id, row.spaceId)
            && ProjectColumn(t') == Assigned(ProjectColumn(t), id, row.projectId)
  {
  }

  lemma RowErased(t: MeetingTable, id: string)
    ensures var t' := t - {id};
            && Meetings(t') == Meetings(t) - {id}
            && SpaceColumn(t') == SpaceColumn(t) - {id}
            && ProjectColumn(t') == ProjectColumn(t) - {id}
  {
  }

  class Database {
    var meeting: MeetingTable
    var note: map<string, Note>
    var space: map<string, Space>
    var project: map<string, Project>
    var tag: map<string, Tag>
    var meetingTag: set<(string, string)>

    /** The registry these tables stand for. */
    ghost function View(): (r: Registry)
      reads this
    {
      Registry(Meetings(meeting), note, space, project, tag, meetingTag, SpaceColumn(meeting), ProjectColumn(meeting))
    }

    constructor ()
      ensures View() == EMPTY
    {
      meeting, note, space, project, tag, meetingTag := map[], map[], map[], map[], map[], {};
    }

    // ------------------------------------------------------ statements of the engine

    /** INSERT INTO meeting: primary key, unique directory, references. */
    method InsertMeeting(row: MeetingRow) returns (ok: bool)
      requires row.spaceId == None && row.projectId == None
      modifies this`meeting
      ensures ok == (row.id !in old(meeting) && !DirTaken(Meetings(old(meeting)), row.dirPath))
      ensures meeting == if ok then old(meeting)[row.id := row] else old(meeting)
    {
      if row.id in meeting || exists id | id in meeting :: meeting[id].dirPath == row.dirPath {
        assert row.id in meeting || DirTaken(Meetings(meeting), row.dirPath) by {
          if row.id !in meeting {
            var id :| id in meeting && meeting[id].dirPath == row.dirPath;
            assert id in Meetings(meeting);
          }
        }
        return false;
      }
      assert !DirTaken(Meetings(meeting), row.dirPath);
      meeting := meeting[row.id := row];
      ok := true;
    }

    /** INSERT INTO note: primary key and the reference to the meeting. */
    method InsertNote(n: Note) returns (ok: bool)
      modifies this`note
      ensures ok == (n.id !in old(note) && n.meetingId in meeting)
      ensures note == if ok then old(note)[n.id := n] else old(note)
    {
      ok := n.id !in note && n.meetingId in meeting;
      if ok {
        note := note[n.id := n];
      }
    }

    /** DELETE FROM project, for a set of keys: meeting.project_id is set to null. */
    method DeleteProjects(ids: set<string>)
      modifies this`project, this`meeting
      ensures project == old(project) - ids
      ensures meeting == ProjectSetNull(old(meeting), ids)
    {
      project := project - ids;
      meeting := ProjectSetNull(meeting, ids);
    }

    /** DELETE FROM space WHERE id: projects cascade, meeting.space_id is set to null. */
    method DeleteSpaceRow(id: string)
      modifies this`space, this`project, this`meeting
      ensures space == old(space) - {id}
      ensures project == old(project) - ProjectsOf(old(project), id)
      ensures meeting == SpaceSetNull(ProjectSetNull(old(meeting), ProjectsOf(old(project), id)), {id})
    {
      space := space - {id};
      DeleteProjects(set p | p in project && project[p].spaceId == id);
      meeting := SpaceSetNull(meeting, {id});
    }

    /** DELETE FROM meeting WHERE id: notes and tag rows cascade. */
    method DeleteMeetingRow(id: string)
      modifies this`meeting, this`note, this`meetingTag
      ensures meeting == old(meeting) - {id}
      ensures note == NotesExcept(old(note), id)
      ensures meetingTag == set p | p in old(meetingTag) && p.0 != id
    {
      meeting := meeting - {id};
      note := map n | n in note && note[n].meetingId != id :: note[n];
      meetingTag := set p | p in meetingTag && p.0 != id;
    }

    // ------------------------------------------------------------------ the adapter

    method CreateMeeting(d: MeetingDraft) returns (r: Result<Meeting>)
      modifies this
      ensures (View(), MeetingOutcome(r)) == DoCreateMeeting(old(View()), d)
    {
      var row := MeetingRow(d.id, d.title, d.startedAt, None, None, d.language, d.dirPath, None, None);
      RowWritten(meeting, d.id, row);
      AbsentUnassigned(d.id);
      var taken := d.id in meeting;
      var ok := InsertMeeting(row);
      if !ok {
        return Err(if taken then AlreadyExists(d.id, "meeting") else UniqueConflict("meeting", "dir_path", d.dirPath));
      }
      r := Ok(Meeting(d.id, d.title, d.startedAt, None, None, d.language, d.dirPath));
    }

    lemma AbsentUnassigned(id: string)
      ensures id !in meeting ==>
                && SpaceColumn(meeting) - {id} == SpaceColumn(meeting)
                && ProjectColumn(meeting) - {id} == ProjectColumn(meeting)
    {
    }

    /** One transaction: a failing note insert rolls the meeting back. The state
        holds the duration as the column reads back; the answer echoes the draft. */
    method CreateMeetingWithNote(d: MeetingDraft, nd: NoteDraft, endedAt: Option<string>, durationMs: Option<u64>)
        returns (r: Result<(Meeting, Note)>)
      modifies this
      ensures View() == DoCreateMeetingWithNote(old(View()), d, nd, endedAt, StoredOption(durationMs)).0
      ensures BothOutcome(r) == DoCreateMeetingWithNote(old(View()), d, nd, endedAt, durationMs).1
    {
      if nd.meetingId != d.id {
        return Err(Sql);
      }
      var meeting0, note0 := meeting, note;
      var column := if durationMs.Some? then Some(AsSigned(durationMs.value)) else None;
      var row := MeetingRow(d.id, d.title, d.startedAt, endedAt, column, d.language, d.dirPath, None, None);
      RowWritten(meeting, d.id, row);
      AbsentUnassigned(d.id);
      var taken := d.id in meeting;
      var ok := InsertMeeting(row);
      if !ok {
        return Err(if taken then AlreadyExists(d.id, "meeting") else UniqueConflict("meeting", "dir_path", d.dirPath));
      }
      var n := Note(nd.id, nd.meetingId, nd.dialect, nd.contentMd, nd.primaryPath);
      ok := InsertNote(n);
      if !ok {
        meeting, note := meeting0, note0;
        return Err(AlreadyExists(nd.id, "note"));
      }
      r := Ok((Meeting(d.id, d.title, d.startedAt, endedAt, durationMs, d.language, d.dirPath), n));
    }

    method GetMeeting(id: string) returns (r: Result<Meeting>)
      ensures r == if id in View().meetings then Ok(View().meetings[id]) else Err(NotFound(id, "meeting"))
    {
      if id in meeting {
        return Ok(MeetingOf(meeting[id]));
      }
      r := Err(NotFound(id, "meeting"));
    }

    /** UPDATE, then read the row back. */
    method UpdateMeetingEnded(id: string, end: string, duration: u64) returns (r: Result<Meeting>)
      modifies this
      ensures (View(), MeetingOutcome(r)) == DoUpdateMeetingEnded(old(View()), id, end, Stored(duration))
    {
      if id !in meeting {
        return Err(NotFound(id, "meeting"));
      }
      var row := meeting[id].(endedAt := Some(end), durationMs := Some(AsSigned(duration)));
      RowWritten(meeting, id, row);
      SameAssignment(id);
      meeting := meeting[id := row];
      r := GetMeeting(id);
    }

    lemma SameAssignment(id: string)
      requires id in meeting
      ensures Assigned(SpaceColumn(meeting), id, meeting[id].spaceId) == SpaceColumn(meeting)
      ensures Assigned(ProjectColumn(meeting), id, meeting[id].projectId) == ProjectColumn(meeting)
    {
    }

    method RenameMeeting(id: string, title: string) returns (r: Result<Meeting>)
      modifies this
      ensures (View(), MeetingOutcome(r)) == DoRenameMeeting(old(View()), id, title)
    {
      if id !in meeting {
        return Err(NotFound(id, "meeting"));
      }
      var row := meeting[id].(title := title);
      RowWritten(meeting, id, row);
      SameAssignment(id);
      meeting := meeting[id := row];
      r := GetMeeting(id);
    }

    method DeleteMeeting(id: string) returns (r: Result<()>)
      modifies this
      ensures (View(), UnitOutcome(r)) == DoDeleteMeeting(old(View()), id)
    {
      if id !in meeting {
        return Err(NotFound(id, "meeting"));
      }
      RowErased(meeting, id);
      DeleteMeetingRow(id);
      r := Ok(());
    }

    method CreateNote(d: NoteDraft) returns (r: Result<Note>)
      modifies this
      ensures (View(), NoteOutcome(r)) == DoCreateNote(old(View()), d)
    {
      if d.meetingId !in meeting {
        return Err(NotFound(d.meetingId, "meeting"));
      }
      var n := Note(d.id, d.meetingId, d.dialect, d.contentMd, d.primaryPath);
      var ok := InsertNote(n);
      if !ok {
        return Err(AlreadyExists(d.id, "note"));
      }
      r := Ok(n);
    }

    /** One transaction: delete the meeting's notes, insert the new one, or roll back. */
    method ReplaceMeetingNote(meetingId: string, d: NoteDraft) returns (r: Result<Note>)
      modifies this
      ensures (View(), NoteOutcome(r)) == DoReplaceMeetingNote(old(View()), meetingId, d)
    {
      if d.meetingId != meetingId {
        return Err(Sql);
      }
      if meetingId !in meeting {
        return Err(NotFound(meetingId, "meeting"));
      }
      var note0 := note;
      note := map n | n in note && note[n].meetingId != meetingId :: note[n];
      var n := Note(d.id, d.meetingId, d.dialect, d.contentMd, d.primaryPath);
      var ok := InsertNote(n);
      if !ok {
        note := note0;
        return Err(AlreadyExists(d.id, "note"));
      }
      r := Ok(n);
    }

    method CreateSpace(newId: string, name: string) returns (r: Result<Space>)
      modifies this
      ensures (View(), SpaceOutcome(r)) == DoCreateSpace(old(View()), name, newId)
    {
      var position := ComputeNextPosition(map s | s in space :: space[s].position);
      if newId in space {
        return Err(Sql);
      }
      var row := Space(newId, name, position);
      space := space[newId := row];
      r := Ok(row);
    }

    method RenameSpace(id: string, name: string) returns (r: Result<()>)
      modifies this
      ensures (View(), UnitOutcome(r)) == DoRenameSpace(old(View()), id, name)
    {
      if id !in space {
        return Err(NotFound(id, "space"));
      }
      space := space[id := space[id].(name := name)];
      r := Ok(());
    }

    method DeleteSpace(id: string) returns (r: Result<()>)
      modifies this
      ensures (View(), UnitOutcome(r)) == DoDeleteSpace(old(View()), id)
    {
      if id !in space {
        return Err(NotFound(id, "space"));
      }
      ProjectSetNullView(meeting, ProjectsOf(project, id));
      SpaceSetNullView(ProjectSetNull(meeting, ProjectsOf(project, id)), {id});
      DeleteSpaceRow(id);
      r := Ok(());
    }

    method CreateProject(newId: string, spaceId: string, name: string) returns (r: Result<Project>)
      modifies this
      ensures (View(), ProjectOutcome(r)) == DoCreateProject(old(View()), spaceId, name, newId)
    {
      if spaceId !in space {
        return Err(NotFound(spaceId, "space"));
      }
      var position := ComputeNextPosition(
        map p | p in project && project[p].spaceId == spaceId :: project[p].position);
      if newId in project {
        return Err(Sql);
      }
      var row := Project(newId, spaceId, name, position);
      project := project[newId := row];
      r := Ok(row);
    }

    method RenameProject(id: string, name: string) returns (r: Result<()>)
      modifies this
      ensures (View(), UnitOutcome(r)) == DoRenameProject(old(View()), id, name)
    {
      if id !in project {
        return Err(NotFound(id, "project"));
      }
      project := project[id := project[id].(name := name)];
      r := Ok(());
    }

    method DeleteProject(id: string) returns (r: Result<()>)
      modifies this
      ensures (View(), UnitOutcome(r)) == DoDeleteProject(old(View()), id)
    {
      if id !in project {
        return Err(NotFound(id, "project"));
      }
      ProjectSetNullView(meeting, {id});
      DeleteProjects({id});
      r := Ok(());
    }

    /** The unique name makes the row that is found the only one. */
    method CreateTag(newId: string, name: string) returns (r: Result<Tag>)
      modifies this
      ensures TagsOk(old(tag)) ==> (View(), TagOutcome(r)) == DoCreateTag(old(View()), name, newId)
    {
      if t :| t in tag && tag[t].name == name {
        assert NameTaken(tag, name);
        return Ok(tag[t]);
      }
      assert !NameTaken(tag, name);
      if newId in tag {
        return Err(Sql);
      }
      var row := Tag(newId, name);
      tag := tag[newId := row];
      r := Ok(row);
    }

    /** DELETE FROM tag: tag rows of meetings cascade. */
    method DeleteTag(id: string) returns (r: Result<()>)
      modifies this
      ensures (View(), UnitOutcome(r)) == DoDeleteTag(old(View()), id)
    {
      if id !in tag {
        return Err(NotFound(id, "tag"));
      }
      tag := tag - {id};
      meetingTag := set p | p in meetingTag && p.1 != id;
      r := Ok(());
    }

    method TagMeeting(meetingId: string, tagId: string) returns (r: Result<()>)
      modifies this
      ensures (View(), UnitOutcome(r)) == DoTagMeeting(old(View()), meetingId, tagId)
    {
      if meetingId !in meeting {
        return Err(NotFound(meetingId, "meeting"));
      }
      if tagId !in tag {
        return Err(NotFound(tagId, "tag"));
      }
      meetingTag := meetingTag + {(meetingId, tagId)};
      r := Ok(());
    }

    method UntagMeeting(meetingId: string, tagId: string) returns (r: Result<()>)
      modifies this
      ensures (View(), UnitOutcome(r)) == DoUntagMeeting(old(View()), meetingId, tagId)
    {
      if meetingId !in meeting {
        return Err(NotFound(meetingId, "meeting"));
      }
      if tagId !in tag {
        return Err(NotFound(tagId, "tag"));
      }
      meetingTag := meetingTag - {(meetingId, tagId)};
      r := Ok(());
    }

    method AssignMeeting(meetingId: string, spaceId: Option<string>, projectId: Option<string>) returns (r: Result<()>)
      modifies this
      ensures (View(), UnitOutcome(r)) == DoAssignMeeting(old(View()), meetingId, spaceId, projectId)
    {
      if meetingId !in meeting {
        return Err(NotFound(meetingId, "meeting"));
      }
      var targetSpace := spaceId;
      if projectId.Some? {
        if projectId.value !in project {
          return Err(NotFound(projectId.value, "project"));
        }
        targetSpace := Some(project[projectId.value].spaceId);
      } else if spaceId.Some? && spaceId.value !in space {
        return Err(NotFound(spaceId.value, "space"));
      }
      var row := meeting[meetingId].(spaceId := targetSpace, projectId := projectId);
      RowWritten(meeting, meetingId, row);
      assert Meetings(meeting)[meetingId := MeetingOf(row)] == Meetings(meeting);
      meeting := meeting[meetingId := row];
      r := Ok(());
    }

    method ListSpaces() returns (rows: seq<Space>)
      requires SpacesOk(space)
      ensures IsSpaceListing(space, rows)
    {
      rows := RegistryListing.ListSpaces(space);
    }

    method ListProjectsOf(spaceId: string) returns (rows: seq<Project>)
      requires ProjectsOk(project, space.Keys)
      ensures IsProjectListing(project, spaceId, rows)
    {
      rows := RegistryListing.ListProjects(project, spaceId);
    }

    /** SELECT tag_id … WHERE meeting_id … ORDER BY tag_id. */
    method TagIdsForMeeting(meetingId: string) returns (ids: seq<string>)
      ensures Sorted(ids, StrLe) && NoDuplicates(ids)
      ensures forall t :: t in ids <==> (meetingId, t) in meetingTag
    {
      var all := set p | p in meetingTag && p.0 == meetingId :: p.1;
      var left, collected := all, [];
      while left != {}
        invariant left <= all
        invariant NoDuplicates(collected)
        invariant forall t :: t in collected <==> t in all - left
        decreases left
      {
        var t :| t in left;
        assert t !in collected;
        left := left - {t};
        collected := collected + [t];
      }
      ids := Sort(collected, StrLe);
      StrLeIsPreorder();
      SortSorted(collected, StrLe);
      PermutationNoDuplicates(collected, ids);
      SameElements(collected, ids);
      assert forall t :: t in all <==> (meetingId, t) in meetingTag;
    }

    method Summarize(id: string) returns (row: MeetingSummary)
      requires id in meeting
      ensures IsSummary(View(), row) && row.id == id
    {
      var m := meeting[id];
      var ids := TagIdsForMeeting(id);
      row := MeetingSummary(
        id, m.title, m.startedAt, m.endedAt,
        if m.durationMs.Some? then ReadDuration(m.durationMs.value) else 0, m.language,
        exists n | n in note :: note[n].meetingId == id,
        m.spaceId, m.projectId, ids);
    }

    /** SELECT … ORDER BY started_at DESC. */
    method SelectMeetings() returns (rows: seq<MeetingSummary>)
      ensures Sorted(rows, NewestFirst) && NoDuplicates(rows)
      ensures forall row | row in rows :: IsSummary(View(), row)
      ensures forall id | id in meeting :: HasRow(rows, id)
    {
      var collected: seq<MeetingSummary> := [];
      var left := meeting.Keys;
      while left != {}
        invariant left <= meeting.Keys
        invariant forall row | row in collected :: IsSummary(View(), row) && row.id in meeting.Keys - left
        invariant forall id | id in meeting.Keys - left :: HasRow(collected, id)
        invariant NoDuplicates(collected)
        decreases left
      {
        var id :| id in left;
        var row := Summarize(id);
        HasRowAppended(collected, row);
        collected := collected + [row];
        left := left - {id};
      }
      rows := Sort(collected, NewestFirst);
      NewestFirstIsPreorder();
      SortSorted(collected, NewestFirst);
      PermutationNoDuplicates(collected, rows);
      SameElements(collected, rows);
      HasRowPermuted(collected, rows);
    }

    /** The four tests of the row loop. */
    method Passes(f: Filter, summary: MeetingSummary) returns (ok: bool)
      requires IsSummary(View(), summary)
      ensures ok == Matches(View(), f, summary.id)
    {
      if f.unsorted && summary.spaceId.Some? {
        return false;
      }
      if f.spaceId.Some? && summary.spaceId != f.spaceId {
        return false;
      }
      if f.projectId.Some? && summary.projectId != f.projectId {
        return false;
      }
      if f.tagId.Some? && f.tagId.value !in summary.tags {
        return false;
      }
      return true;
    }

    /** Filtering happens row by row, after the sorted query. */
    method ListMeetingsFiltered(f: Filter) returns (rows: seq<MeetingSummary>)
      ensures IsMeetingListing(View(), f, rows)
    {
      var all := SelectMeetings();
      rows := [];
      for i := 0 to |all|
        invariant forall row :: row in rows <==> row in all[..i] && Matches(View(), f, row.id)
        invariant Sorted(rows, NewestFirst) && NoDuplicates(rows)
      {
        assert all[..i + 1] == all[..i] + [all[i]];
        assert all[i] in all;
        var ok := Passes(f, all[i]);
        if ok {
          StillSorted(all, i, rows);
          rows := rows + [all[i]];
        }
      }
      assert all[..|all|] == all;
      FilteredListing(View(), f, all, rows);
    }
  }

  /** Dropping the rows that do not match leaves a listing. */
  lemma FilteredListing(r: Registry, f: Filter, all: seq<MeetingSummary>, rows: seq<MeetingSummary>)
    requires forall row | row in all :: IsSummary(r, row)
    requires forall id | id in r.meetings :: HasRow(all, id)
    requires forall row :: row in rows <==> row in all && Matches(r, f, row.id)
    requires Sorted(rows, NewestFirst) && NoDuplicates(rows)
    ensures IsMeetingListing(r, f, rows)
  {
    forall id | id in r.meetings && Matches(r, f, id)
      ensures HasRow(rows, id)
    {
      assert HasRow(all, id);
      var j :| 0 <= j < |all| && all[j].id == id;
      assert all[j] in rows;
      var k :| 0 <= k < |rows| && rows[k] == all[j];
    }
  }

  lemma StillSorted(all: seq<MeetingSummary>, i: nat, rows: seq<MeetingSummary>)
    requires i < |all| && Sorted(all, NewestFirst) && NoDuplicates(all)
    requires forall row | row in rows :: row in all[..i]
    requires Sorted(rows, NewestFirst) && NoDuplicates(rows)
    ensures Sorted(rows + [all[i]], NewestFirst) && NoDuplicates(rows + [all[i]])
  {
    forall j | 0 <= j < |rows|
      ensures NewestFirst(rows[j], all[i]) && rows[j] != all[i]
    {
      assert rows[j] in rows;
      var k :| 0 <= k < i && all[..i][k] == rows[j];
    }
  }
}
