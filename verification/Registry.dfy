/** The meeting registry as the `Storage` port describes it, free of any
    representation: the reference that both adapters are proved against. A registry is a
    value; each operation takes one to the next with an outcome, and a failing operation
    leaves it as it was. Fresh ids are arguments, so that two adapters that draw the same
    ids can be compared step by step. What every operation keeps is stated here, what
    follows for whole runs in the module on runs. */
module Registry {
  import opened Options

  type u64 = x: int | 0 <= x < 0x1_0000_0000_0000_0000

  datatype MeetingDraft = MeetingDraft(id: string, title: string, startedAt: string, language: string, dirPath: string)

  datatype Meeting = Meeting(
    id: string, title: string, startedAt: string, endedAt: Option<string>, durationMs: Option<u64>,
    language: string, dirPath: string)

  datatype NoteDraft = NoteDraft(id: string, meetingId: string, dialect: string, contentMd: string, primaryPath: string)

  /** `created_at` is a wall-clock value and is not kept. */
  datatype Note = Note(id: string, meetingId: string, dialect: string, contentMd: string, primaryPath: string)

  datatype Space = Space(id: string, name: string, position: int)

  datatype Project = Project(id: string, spaceId: string, name: string, position: int)

  datatype Tag = Tag(id: string, name: string)

  datatype StorageError =
    | NotFound(id: string, kind: string)
    | AlreadyExists(id: string, kind: string)
    | UniqueConflict(kind: string, field: string, value: string)
    | Sql

  datatype Registry = Registry(
    meetings: map<string, Meeting>,
    notes: map<string, Note>,
    spaces: map<string, Space>,
    projects: map<string, Project>,
    tags: map<string, Tag>,
    tagged: set<(string, string)>,
    spaceOf: map<string, string>,
    projectOf: map<string, string>)

  const EMPTY: Registry := Registry(map[], map[], map[], map[], map[], {}, map[], map[])

  /** The operations that may change the registry. The id that a creation draws
      is passed beside the operation. */
  datatype Op =
    | CreateMeeting(draft: MeetingDraft)
    | CreateMeetingWithNote(draft: MeetingDraft, note: NoteDraft, endedAt: Option<string>, durationMs: Option<u64>)
    | UpdateMeetingEnded(id: string, end: string, duration: u64)
    | RenameMeeting(id: string, title: string)
    | DeleteMeeting(id: string)
    | CreateNote(note: NoteDraft)
    | ReplaceMeetingNote(meetingId: string, note: NoteDraft)
    | CreateSpace(name: string)
    | RenameSpace(id: string, name: string)
    | DeleteSpace(id: string)
    | CreateProject(spaceId: string, name: string)
    | RenameProject(id: string, name: string)
    | DeleteProject(id: string)
    | CreateTag(name: string)
    | DeleteTag(id: string)
    | TagMeeting(meetingId: string, tagId: string)
    | UntagMeeting(meetingId: string, tagId: string)
    | AssignMeeting(meetingId: string, space: Option<string>, project: Option<string>)

  datatype Outcome =
    | Failed
    | Done
    | GotMeeting(meeting: Meeting)
    | GotBoth(meeting: Meeting, note: Note)
    | GotNote(note: Note)
    | GotSpace(space: Space)
    | GotProject(project: Project)
    | GotTag(tag: Tag)

  datatype Result<+T> = Ok(value: T) | Err(error: StorageError)

  function MeetingOutcome(r: Result<Meeting>): (o: Outcome) { if r.Ok? then GotMeeting(r.value) else Failed }

  function BothOutcome(r: Result<(Meeting, Note)>): (o: Outcome)
  {
    if r.Ok? then GotBoth(r.value.0, r.value.1) else Failed
  }

  function NoteOutcome(r: Result<Note>): (o: Outcome) { if r.Ok? then GotNote(r.value) else Failed }

  function SpaceOutcome(r: Result<Space>): (o: Outcome) { if r.Ok? then GotSpace(r.value) else Failed }

  function ProjectOutcome(r: Result<Project>): (o: Outcome) { if r.Ok? then GotProject(r.value) else Failed }

  function TagOutcome(r: Result<Tag>): (o: Outcome) { if r.Ok? then GotTag(r.value) else Failed }

  function UnitOutcome(r: Result<()>): (o: Outcome) { if r.Ok? then Done else Failed }

  // ---------------------------------------------------------------- semantics

  function NewMeeting(d: MeetingDraft, endedAt: Option<string>, durationMs: Option<u64>): (m: Meeting)
  {
    Meeting(d.id, d.title, d.startedAt, endedAt, durationMs, d.language, d.dirPath)
  }

  function NewNote(d: NoteDraft): (n: Note)
  {
    Note(d.id, d.meetingId, d.dialect, d.contentMd, d.primaryPath)
  }

  predicate DirTaken(meetings: map<string, Meeting>, dirPath: string)
  {
    exists m | m in meetings :: meetings[m].dirPath == dirPath
  }

  function NotesExcept(notes: map<string, Note>, meetingId: string): (r: map<string, Note>)
  {
    map n | n in notes && notes[n].meetingId != meetingId :: notes[n]
  }

  function WithoutValues(m: map<string, string>, values: set<string>): (r: map<string, string>)
  {
    map k | k in m && m[k] !in values :: m[k]
  }

  function Assigned(m: map<string, string>, key: string, value: Option<string>): (r: map<string, string>)
  {
    if value.Some? then m[key := value.value] else m - {key}
  }

  function ProjectsOf(projects: map<string, Project>, spaceId: string): (r: set<string>)
  {
    set p | p in projects && projects[p].spaceId == spaceId
  }

  function SpacePositions(spaces: map<string, Space>): (r: map<string, int>)
  {
    map s | s in spaces :: spaces[s].position
  }

  function ProjectPositions(projects: map<string, Project>, spaceId: string): (r: map<string, int>)
  {
    map p | p in projects && projects[p].spaceId == spaceId :: projects[p].position
  }

  ghost predicate IsMax(ps: map<string, int>, m: int)
  {
    && (exists k | k in ps :: ps[k] == m)
    && (forall k | k in ps :: ps[k] <= m)
  }

  lemma {:induction false} MaxExists(ps: map<string, int>)
    requires ps != map[]
    ensures exists m :: IsMax(ps, m)
    decreases ps.Keys
  {
    assert ps.Keys != {};
    var k :| k in ps;
    var others := ps - {k};
    if others == map[] {
      assert forall j | j in ps :: j == k || j in others;
      assert IsMax(ps, ps[k]);
    } else {
      MaxExists(others);
      var m :| IsMax(others, m);
      assert forall j | j in ps :: j == k || (j in others && others[j] == ps[j]);
      assert IsMax(ps, if ps[k] <= m then m else ps[k]);
    }
  }

  /** One past the largest position in use. */
  ghost function NextPosition(ps: map<string, int>): (p: int)
    ensures ps == map[] ==> p == 0
    ensures ps != map[] ==> IsMax(ps, p - 1)
  {
    if ps == map[] then 0 else
    MaxExists(ps);
    var m :| IsMax(ps, m);
    m + 1
  }

  /** `next_position`: the maximum in one pass over the rows, in any order. */
  method ComputeNextPosition(ps: map<string, int>) returns (p: int)
    ensures p == NextPosition(ps)
  {
    if ps.Keys == {} {
      return 0;
    }
    var first :| first in ps.Keys;
    var max := ps[first];
    var left := ps.Keys - {first};
    while left != {}
      invariant left <= ps.Keys
      invariant exists k | k in ps :: ps[k] == max
      invariant forall k | k in ps :: k in left || ps[k] <= max
      decreases left
    {
      var k :| k in left;
      left := left - {k};
      max := if max < ps[k] then ps[k] else max;
    }
    p := max + 1;
  }

  predicate NameTaken(tags: map<string, Tag>, name: string)
  {
    exists t | t in tags :: tags[t].name == name
  }

  function DoCreateMeeting(r: Registry, d: MeetingDraft): (out: (Registry, Outcome))
    ensures out.1.Failed? ==> out.0 == r
  {
    if d.id in r.meetings || DirTaken(r.meetings, d.dirPath) then (r, Failed)
    else
      var m := NewMeeting(d, None, None);
      (r.(meetings := r.meetings[d.id := m]), GotMeeting(m))
  }

  function DoCreateMeetingWithNote(r: Registry, d: MeetingDraft, nd: NoteDraft, endedAt: Option<string>,
                                   durationMs: Option<u64>): (out: (Registry, Outcome))
    ensures out.1.Failed? ==> out.0 == r
  {
    if d.id in r.meetings || DirTaken(r.meetings, d.dirPath) || nd.meetingId != d.id || nd.id in r.notes
    then (r, Failed)
    else
      var m, n := NewMeeting(d, endedAt, durationMs), NewNote(nd);
      (r.(meetings := r.meetings[d.id := m], notes := r.notes[nd.id := n]), GotBoth(m, n))
  }

  function DoUpdateMeetingEnded(r: Registry, id: string, end: string, duration: u64): (out: (Registry, Outcome))
    ensures out.1.Failed? ==> out.0 == r
  {
    if id !in r.meetings then (r, Failed)
    else
      var m := r.meetings[id].(endedAt := Some(end), durationMs := Some(duration));
      (r.(meetings := r.meetings[id := m]), GotMeeting(m))
  }

  function DoRenameMeeting(r: Registry, id: string, title: string): (out: (Registry, Outcome))
    ensures out.1.Failed? ==> out.0 == r
  {
    if id !in r.meetings then (r, Failed)
    else
      var m := r.meetings[id].(title := title);
      (r.(meetings := r.meetings[id := m]), GotMeeting(m))
  }

  function DoDeleteMeeting(r: Registry, id: string): (out: (Registry, Outcome))
    ensures out.1.Failed? ==> out.0 == r
  {
    if id !in r.meetings then (r, Failed)
    else
      (r.(meetings := r.meetings - {id}, notes := NotesExcept(r.notes, id),
          tagged := (set p | p in r.tagged && p.0 != id),
          spaceOf := r.spaceOf - {id}, projectOf := r.projectOf - {id}), Done)
  }

  function DoCreateNote(r: Registry, nd: NoteDraft): (out: (Registry, Outcome))
    ensures out.1.Failed? ==> out.0 == r
  {
    if nd.meetingId !in r.meetings || nd.id in r.notes then (r, Failed)
    else (r.(notes := r.notes[nd.id := NewNote(nd)]), GotNote(NewNote(nd)))
  }

  function DoReplaceMeetingNote(r: Registry, meetingId: string, nd: NoteDraft): (out: (Registry, Outcome))
    ensures out.1.Failed? ==> out.0 == r
  {
    if nd.meetingId != meetingId || meetingId !in r.meetings || nd.id in NotesExcept(r.notes, meetingId)
    then (r, Failed)
    else (r.(notes := NotesExcept(r.notes, meetingId)[nd.id := NewNote(nd)]), GotNote(NewNote(nd)))
  }

  ghost function DoCreateSpace(r: Registry, name: string, newId: string): (out: (Registry, Outcome))
    ensures out.1.Failed? ==> out.0 == r
  {
    if newId in r.spaces then (r, Failed)
    else
      var s := Space(newId, name, NextPosition(SpacePositions(r.spaces)));
      (r.(spaces := r.spaces[newId := s]), GotSpace(s))
  }

  function DoRenameSpace(r: Registry, id: string, name: string): (out: (Registry, Outcome))
    ensures out.1.Failed? ==> out.0 == r
  {
    if id !in r.spaces then (r, Failed)
    else (r.(spaces := r.spaces[id := r.spaces[id].(name := name)]), Done)
  }

  function DoDeleteSpace(r: Registry, id: string): (out: (Registry, Outcome))
    ensures out.1.Failed? ==> out.0 == r
  {
    if id !in r.spaces then (r, Failed)
    else
      var gone := ProjectsOf(r.projects, id);
      (r.(spaces := r.spaces - {id}, projects := r.projects - gone,
          projectOf := WithoutValues(r.projectOf, gone),
          spaceOf := WithoutValues(r.spaceOf, {id})), Done)
  }

  ghost function DoCreateProject(r: Registry, spaceId: string, name: string, newId: string): (out: (Registry, Outcome))
    ensures out.1.Failed? ==> out.0 == r
  {
    if spaceId !in r.spaces || newId in r.projects then (r, Failed)
    else
      var p := Project(newId, spaceId, name, NextPosition(ProjectPositions(r.projects, spaceId)));
      (r.(projects := r.projects[newId := p]), GotProject(p))
  }

  function DoRenameProject(r: Registry, id: string, name: string): (out: (Registry, Outcome))
    ensures out.1.Failed? ==> out.0 == r
  {
    if id !in r.projects then (r, Failed)
    else (r.(projects := r.projects[id := r.projects[id].(name := name)]), Done)
  }

  function DoDeleteProject(r: Registry, id: string): (out: (Registry, Outcome))
    ensures out.1.Failed? ==> out.0 == r
  {
    if id !in r.projects then (r, Failed)
    else (r.(projects := r.projects - {id}, projectOf := WithoutValues(r.projectOf, {id})), Done)
  }

  ghost function DoCreateTag(r: Registry, name: string, newId: string): (out: (Registry, Outcome))
    ensures out.1.Failed? ==> out.0 == r
  {
    if NameTaken(r.tags, name) then
      var t :| t in r.tags && r.tags[t].name == name;
      (r, GotTag(r.tags[t]))
    else if newId in r.tags then (r, Failed)
    else (r.(tags := r.tags[newId := Tag(newId, name)]), GotTag(Tag(newId, name)))
  }

  function DoDeleteTag(r: Registry, id: string): (out: (Registry, Outcome))
    ensures out.1.Failed? ==> out.0 == r
  {
    if id !in r.tags then (r, Failed)
    else (r.(tags := r.tags - {id}, tagged := (set p | p in r.tagged && p.1 != id)), Done)
  }

  function DoTagMeeting(r: Registry, meetingId: string, tagId: string): (out: (Registry, Outcome))
    ensures out.1.Failed? ==> out.0 == r
  {
    if meetingId !in r.meetings || tagId !in r.tags then (r, Failed)
    else (r.(tagged := r.tagged + {(meetingId, tagId)}), Done)
  }

  function DoUntagMeeting(r: Registry, meetingId: string, tagId: string): (out: (Registry, Outcome))
    ensures out.1.Failed? ==> out.0 == r
  {
    if meetingId !in r.meetings || tagId !in r.tags then (r, Failed)
    else (r.(tagged := r.tagged - {(meetingId, tagId)}), Done)
  }

  function DoAssignMeeting(r: Registry, meetingId: string, space: Option<string>, project: Option<string>)
      : (out: (Registry, Outcome))
    ensures out.1.Failed? ==> out.0 == r
  {
    if meetingId !in r.meetings then (r, Failed)
    else if project.Some? then
      if project.value !in r.projects then (r, Failed)
      else
        (r.(spaceOf := r.spaceOf[meetingId := r.projects[project.value].spaceId],
            projectOf := r.projectOf[meetingId := project.value]), Done)
    else if space.Some? && space.value !in r.spaces then (r, Failed)
    else (r.(spaceOf := Assigned(r.spaceOf, meetingId, space), projectOf := r.projectOf - {meetingId}), Done)
  }

  /** What each operation does. A failing one changes nothing. */
  ghost function Apply(r: Registry, op: Op, newId: string): (out: (Registry, Outcome))
    ensures out.1.Failed? ==> out.0 == r
  {
    match op
    case CreateMeeting(d) => DoCreateMeeting(r, d)
    case CreateMeetingWithNote(d, nd, endedAt, durationMs) => DoCreateMeetingWithNote(r, d, nd, endedAt, durationMs)
    case UpdateMeetingEnded(id, end, duration) => DoUpdateMeetingEnded(r, id, end, duration)
    case RenameMeeting(id, title) => DoRenameMeeting(r, id, title)
    case DeleteMeeting(id) => DoDeleteMeeting(r, id)
    case CreateNote(nd) => DoCreateNote(r, nd)
    case ReplaceMeetingNote(meetingId, nd) => DoReplaceMeetingNote(r, meetingId, nd)
    case CreateSpace(name) => DoCreateSpace(r, name, newId)
    case RenameSpace(id, name) => DoRenameSpace(r, id, name)
    case DeleteSpace(id) => DoDeleteSpace(r, id)
    case CreateProject(spaceId, name) => DoCreateProject(r, spaceId, name, newId)
    case RenameProject(id, name) => DoRenameProject(r, id, name)
    case DeleteProject(id) => DoDeleteProject(r, id)
    case CreateTag(name) => DoCreateTag(r, name, newId)
    case DeleteTag(id) => DoDeleteTag(r, id)
    case TagMeeting(meetingId, tagId) => DoTagMeeting(r, meetingId, tagId)
    case UntagMeeting(meetingId, tagId) => DoUntagMeeting(r, meetingId, tagId)
    case AssignMeeting(meetingId, space, project) => DoAssignMeeting(r, meetingId, space, project)
  }

  // ---------------------------------------------------------------- integrity

  /** Every meeting is stored under its own id and no directory is used twice. */
  ghost predicate MeetingsOk(meetings: map<string, Meeting>)
  {
    && (forall m | m in meetings :: meetings[m].id == m)
    && (forall a, b | a in meetings && b in meetings && meetings[a].dirPath == meetings[b].dirPath :: a == b)
  }

  ghost predicate NotesOk(notes: map<string, Note>, meetingIds: set<string>)
  {
    forall n | n in notes :: notes[n].id == n && notes[n].meetingId in meetingIds
  }

  ghost predicate SpacesOk(spaces: map<string, Space>)
  {
    && (forall s | s in spaces :: spaces[s].id == s)
    && (forall a, b | a in spaces && b in spaces && spaces[a].position == spaces[b].position :: a == b)
  }

  ghost predicate ProjectsOk(projects: map<string, Project>, spaceIds: set<string>)
  {
    && (forall p | p in projects :: projects[p].id == p && projects[p].spaceId in spaceIds)
    && (forall a, b | a in projects && b in projects && projects[a].spaceId == projects[b].spaceId
                      && projects[a].position == projects[b].position :: a == b)
  }

  ghost predicate TagsOk(tags: map<string, Tag>)
  {
    && (forall t | t in tags :: tags[t].id == t)
    && (forall a, b | a in tags && b in tags && tags[a].name == tags[b].name :: a == b)
  }

  ghost predicate TaggedOk(tagged: set<(string, string)>, meetingIds: set<string>, tagIds: set<string>)
  {
    forall p | p in tagged :: p.0 in meetingIds && p.1 in tagIds
  }

  /** Assignments resolve, and a meeting with a project is in that project's space. */
  ghost predicate AssignmentsOk(r: Registry)
  {
    && (forall m | m in r.spaceOf :: m in r.meetings && r.spaceOf[m] in r.spaces)
    && (forall m | m in r.projectOf ::
          && r.projectOf[m] in r.projects
          && m in r.spaceOf && r.spaceOf[m] == r.projects[r.projectOf[m]].spaceId)
  }

  ghost predicate Integrity(r: Registry)
  {
    && MeetingsOk(r.meetings)
    && NotesOk(r.notes, r.meetings.Keys)
    && SpacesOk(r.spaces)
    && ProjectsOk(r.projects, r.spaces.Keys)
    && TagsOk(r.tags)
    && TaggedOk(r.tagged, r.meetings.Keys, r.tags.Keys)
    && AssignmentsOk(r)
  }

  lemma NextPositionAbove(ps: map<string, int>)
    ensures forall k | k in ps :: ps[k] < NextPosition(ps)
  {
    if ps != map[] {
      assert IsMax(ps, NextPosition(ps) - 1);
    }
  }

  lemma SpaceAppended(spaces: map<string, Space>, id: string, name: string)
    requires SpacesOk(spaces)
    ensures id !in spaces ==>
              SpacesOk(spaces[id := Space(id, name, NextPosition(SpacePositions(spaces)))])
  {
    var ps := SpacePositions(spaces);
    NextPositionAbove(ps);
    assert forall s | s in spaces :: spaces[s].position == ps[s] < NextPosition(ps);
  }

  lemma ProjectAppended(projects: map<string, Project>, spaceIds: set<string>, id: string, spaceId: string,
                        name: string)
    requires ProjectsOk(projects, spaceIds) && spaceId in spaceIds
    ensures id !in projects ==>
              ProjectsOk(projects[id := Project(id, spaceId, name, NextPosition(ProjectPositions(projects, spaceId)))],
                         spaceIds)
  {
    var ps := ProjectPositions(projects, spaceId);
    NextPositionAbove(ps);
    assert forall p | p in projects && projects[p].spaceId == spaceId ::
        projects[p].position == ps[p] < NextPosition(ps);
  }

  lemma TagAppended(tags: map<string, Tag>, id: string, name: string)
    requires TagsOk(tags) && id !in tags && !NameTaken(tags, name)
    ensures TagsOk(tags[id := Tag(id, name)])
  {
  }

  lemma MeetingAdded(r: Registry, m: Meeting)
    requires Integrity(r) && m.id !in r.meetings && !DirTaken(r.meetings, m.dirPath)
    ensures Integrity(r.(meetings := r.meetings[m.id := m]))
  {
    var meetings := r.meetings[m.id := m];
    assert MeetingsOk(meetings);
    assert r.meetings.Keys <= meetings.Keys;
    assert NotesOk(r.notes, meetings.Keys) && TaggedOk(r.tagged, meetings.Keys, r.tags.Keys);
  }

  lemma NoteAdded(r: Registry, n: Note)
    requires Integrity(r) && n.meetingId in r.meetings
    ensures Integrity(r.(notes := r.notes[n.id := n]))
  {
  }

  lemma MeetingAndNoteAdded(r: Registry, m: Meeting, n: Note)
    requires Integrity(r) && m.id !in r.meetings && !DirTaken(r.meetings, m.dirPath) && n.meetingId == m.id
    ensures Integrity(r.(meetings := r.meetings[m.id := m], notes := r.notes[n.id := n]))
  {
    MeetingAdded(r, m);
    NoteAdded(r.(meetings := r.meetings[m.id := m]), n);
  }

  lemma CreateMeetingKeeps(r: Registry, d: MeetingDraft)
    requires Integrity(r)
    ensures Integrity(DoCreateMeeting(r, d).0)
  {
    if d.id !in r.meetings && !DirTaken(r.meetings, d.dirPath) {
      MeetingAdded(r, NewMeeting(d, None, None));
    }
  }

  lemma CreateMeetingWithNoteKeeps(r: Registry, d: MeetingDraft, nd: NoteDraft, endedAt: Option<string>,
                                   durationMs: Option<u64>)
    requires Integrity(r)
    ensures Integrity(DoCreateMeetingWithNote(r, d, nd, endedAt, durationMs).0)
  {
    if d.id !in r.meetings && !DirTaken(r.meetings, d.dirPath) && nd.meetingId == d.id {
      MeetingAndNoteAdded(r, NewMeeting(d, endedAt, durationMs), NewNote(nd));
    }
  }

  lemma UpdateMeetingEndedKeeps(r: Registry, id: string, end: string, duration: u64)
    requires Integrity(r)
    ensures Integrity(DoUpdateMeetingEnded(r, id, end, duration).0)
  {
  }

  lemma RenameMeetingKeeps(r: Registry, id: string, title: string)
    requires Integrity(r)
    ensures Integrity(DoRenameMeeting(r, id, title).0)
  {
  }

  lemma DeleteMeetingKeeps(r: Registry, id: string)
    requires Integrity(r)
    ensures Integrity(DoDeleteMeeting(r, id).0)
  {
  }

  lemma CreateNoteKeeps(r: Registry, nd: NoteDraft)
    requires Integrity(r)
    ensures Integrity(DoCreateNote(r, nd).0)
  {
  }

  lemma ReplaceMeetingNoteKeeps(r: Registry, meetingId: string, nd: NoteDraft)
    requires Integrity(r)
    ensures Integrity(DoReplaceMeetingNote(r, meetingId, nd).0)
  {
  }

  lemma CreateSpaceKeeps(r: Registry, name: string, newId: string)
    requires Integrity(r)
    ensures Integrity(DoCreateSpace(r, name, newId).0)
  {
    SpaceAppended(r.spaces, newId, name);
  }

  lemma RenameSpaceKeeps(r: Registry, id: string, name: string)
    requires Integrity(r)
    ensures Integrity(DoRenameSpace(r, id, name).0)
  {
  }

  lemma DeleteSpaceKeeps(r: Registry, id: string)
    requires Integrity(r)
    ensures Integrity(DoDeleteSpace(r, id).0)
  {
  }

  lemma CreateProjectKeeps(r: Registry, spaceId: string, name: string, newId: string)
    requires Integrity(r)
    ensures Integrity(DoCreateProject(r, spaceId, name, newId).0)
  {
    if spaceId in r.spaces {
      ProjectAppended(r.projects, r.spaces.Keys, newId, spaceId, name);
    }
  }

  lemma RenameProjectKeeps(r: Registry, id: string, name: string)
    requires Integrity(r)
    ensures Integrity(DoRenameProject(r, id, name).0)
  {
  }

  lemma DeleteProjectKeeps(r: Registry, id: string)
    requires Integrity(r)
    ensures Integrity(DoDeleteProject(r, id).0)
  {
  }

  lemma CreateTagKeeps(r: Registry, name: string, newId: string)
    requires Integrity(r)
    ensures Integrity(DoCreateTag(r, name, newId).0)
  {
    if !NameTaken(r.tags, name) && newId !in r.tags {
      TagAppended(r.tags, newId, name);
      var r' := DoCreateTag(r, name, newId).0;
      assert r' == r.(tags := r.tags[newId := Tag(newId, name)]);
      assert TaggedOk(r'.tagged, r'.meetings.Keys, r'.tags.Keys);
    } else {
      assert DoCreateTag(r, name, newId).0 == r;
    }
  }

  lemma DeleteTagKeeps(r: Registry, id: string)
    requires Integrity(r)
    ensures Integrity(DoDeleteTag(r, id).0)
  {
  }

  lemma TagMeetingKeeps(r: Registry, meetingId: string, tagId: string)
    requires Integrity(r)
    ensures Integrity(DoTagMeeting(r, meetingId, tagId).0)
  {
  }

  lemma UntagMeetingKeeps(r: Registry, meetingId: string, tagId: string)
    requires Integrity(r)
    ensures Integrity(DoUntagMeeting(r, meetingId, tagId).0)
  {
  }

  lemma AssignMeetingKeeps(r: Registry, meetingId: string, space: Option<string>, project: Option<string>)
    requires Integrity(r)
    ensures Integrity(DoAssignMeeting(r, meetingId, space, project).0)
  {
  }

  lemma KeepsMeetingSide(r: Registry, op: Op, newId: string)
    requires Integrity(r)
    requires op.CreateMeeting? || op.CreateMeetingWithNote? || op.UpdateMeetingEnded? || op.RenameMeeting?
          || op.DeleteMeeting? || op.CreateNote? || op.ReplaceMeetingNote?
    ensures Integrity(Apply(r, op, newId).0)
  {
    match op {
      case CreateMeeting(d) => CreateMeetingKeeps(r, d);
      case CreateMeetingWithNote(d, nd, endedAt, durationMs) =>
        CreateMeetingWithNoteKeeps(r, d, nd, endedAt, durationMs);
      case UpdateMeetingEnded(id, end, duration) => UpdateMeetingEndedKeeps(r, id, end, duration);
      case RenameMeeting(id, title) => RenameMeetingKeeps(r, id, title);
      case DeleteMeeting(id) => DeleteMeetingKeeps(r, id);
      case CreateNote(nd) => CreateNoteKeeps(r, nd);
      case ReplaceMeetingNote(meetingId, nd) => ReplaceMeetingNoteKeeps(r, meetingId, nd);
    }
  }

  lemma KeepsSpaceSide(r: Registry, op: Op, newId: string)
    requires Integrity(r)
    requires op.CreateSpace? || op.RenameSpace? || op.DeleteSpace?
    ensures Integrity(Apply(r, op, newId).0)
  {
    match op {
      case CreateSpace(name) => CreateSpaceKeeps(r, name, newId);
      case RenameSpace(id, name) => RenameSpaceKeeps(r, id, name);
      case DeleteSpace(id) => DeleteSpaceKeeps(r, id);
    }
  }

  lemma KeepsProjectSide(r: Registry, op: Op, newId: string)
    requires Integrity(r)
    requires op.CreateProject? || op.RenameProject? || op.DeleteProject?
    ensures Integrity(Apply(r, op, newId).0)
  {
    match op {
      case CreateProject(spaceId, name) => CreateProjectKeeps(r, spaceId, name, newId);
      case RenameProject(id, name) => RenameProjectKeeps(r, id, name);
      case DeleteProject(id) => DeleteProjectKeeps(r, id);
    }
  }

  /** What every operation keeps. */
  lemma KeepsIntegrity(r: Registry, op: Op, newId: string)
    requires Integrity(r)
    ensures Integrity(Apply(r, op, newId).0)
  {
    match op {
      case CreateTag(name) => CreateTagKeeps(r, name, newId);
      case DeleteTag(id) => DeleteTagKeeps(r, id);
      case TagMeeting(meetingId, tagId) => TagMeetingKeeps(r, meetingId, tagId);
      case UntagMeeting(meetingId, tagId) => UntagMeetingKeeps(r, meetingId, tagId);
      case AssignMeeting(meetingId, space, project) => AssignMeetingKeeps(r, meetingId, space, project);
      case CreateSpace(_) => KeepsSpaceSide(r, op, newId);
      case RenameSpace(_, _) => KeepsSpaceSide(r, op, newId);
      case DeleteSpace(_) => KeepsSpaceSide(r, op, newId);
      case CreateProject(_, _) => KeepsProjectSide(r, op, newId);
      case RenameProject(_, _) => KeepsProjectSide(r, op, newId);
      case DeleteProject(_) => KeepsProjectSide(r, op, newId);
      case _ => KeepsMeetingSide(r, op, newId);
    }
  }
}
