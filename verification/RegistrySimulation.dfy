/** The two adapters driven by one sequence of operations. Each step draws its fresh id
    from the counters of the in-memory adapter and hands it to the database, so that
    both answer alike; the one thing on which they differ is a duration that a signed
    column cannot hold. */
module RegistrySimulation {
  import opened Options
  import opened Registry
  import opened RegistryRuns
  import Memory = InMemoryStorage
  import Sql = RelationalStorage

  /** Durations a signed 64-bit column can hold. */
  predicate Narrow(op: Op)
  {
    match op
    case CreateMeetingWithNote(_, _, _, durationMs) => durationMs.Some? ==> durationMs.value < 0x8000_0000_0000_0000
    case UpdateMeetingEnded(_, _, duration) => duration < 0x8000_0000_0000_0000
    case _ => true
  }

  /** The operation whose effect the database shows afterwards. */
  function AsStored(op: Op): (r: Op)
  {
    match op
    case CreateMeetingWithNote(d, n, e, durationMs) => CreateMeetingWithNote(d, n, e, Sql.StoredOption(durationMs))
    case UpdateMeetingEnded(id, end, duration) => UpdateMeetingEnded(id, end, Sql.Stored(duration))
    case _ => op
  }

  lemma NarrowIsStored(op: Op)
    ensures AsStored(op) == op <==> Narrow(op)
  {
    match op {
      case UpdateMeetingEnded(_, _, duration) => Sql.StoredFaithfully(duration);
      case CreateMeetingWithNote(_, _, _, durationMs) =>
        if durationMs.Some? {
          Sql.StoredFaithfully(durationMs.value);
        }
      case _ =>
    }
  }

  /** What refuses an operation that carries a duration: an unknown meeting, a taken id
      or directory, or a note that belongs elsewhere or whose id is taken. */
  predicate Refused(r: Registry, op: Op)
  {
    match op
    case UpdateMeetingEnded(id, _, _) => id !in r.meetings
    case CreateMeetingWithNote(d, n, _, _) =>
      d.id in r.meetings || DirTaken(r.meetings, d.dirPath) || n.meetingId != d.id || n.id in r.notes
    case _ => false
  }

  /** On every registry, an operation leaves in the database what it says if and only if
      its duration fits the column or it is refused. */
  lemma StoredAsGiven(r: Registry, op: Op, newId: string)
    ensures Apply(r, op, newId).0 == Apply(r, AsStored(op), newId).0 <==> Narrow(op) || Refused(r, op)
  {
    NarrowIsStored(op);
    match op {
      case UpdateMeetingEnded(id, _, duration) =>
        if id in r.meetings {
          assert Apply(r, op, newId).0.meetings[id].durationMs == Some(duration);
          assert Apply(r, AsStored(op), newId).0.meetings[id].durationMs == Some(Sql.Stored(duration));
        }
      case CreateMeetingWithNote(d, _, _, durationMs) =>
        if !Refused(r, op) {
          assert Apply(r, op, newId).0.meetings[d.id].durationMs == durationMs;
          assert Apply(r, AsStored(op), newId).0.meetings[d.id].durationMs == Sql.StoredOption(durationMs);
        }
      case _ =>
    }
  }

  /** The id the in-memory counters will give to a creation. */
  function NextId(op: Op, mem: Memory.Store): (id: string)
    reads mem
  {
    match op
    case CreateSpace(_) => Memory.NumberedId("space_", mem.nextSpaceId)
    case CreateProject(_, _) => Memory.NumberedId("project_", mem.nextProjectId)
    case CreateTag(_) => Memory.NumberedId("tag_", mem.nextTagId)
    case _ => ""
  }

  method ExecuteInMemory(mem: Memory.Store, op: Op) returns (o: Outcome)
    requires mem.Valid() && TagsOk(mem.tags) && ProjectsOk(mem.projects, mem.spaces.Keys)
    modifies mem
    ensures mem.Valid()
    ensures (mem.View(), o) == Apply(old(mem.View()), op, old(NextId(op, mem)))
  {
    match op {
      case CreateMeeting(d) =>
        var r := mem.CreateMeeting(d);
        return MeetingOutcome(r);
      case CreateMeetingWithNote(d, n, e, t) =>
        var r := mem.CreateMeetingWithNote(d, n, e, t);
        return BothOutcome(r);
      case UpdateMeetingEnded(id, end, t) =>
        var r := mem.UpdateMeetingEnded(id, end, t);
        return MeetingOutcome(r);
      case RenameMeeting(id, title) =>
        var r := mem.RenameMeeting(id, title);
        return MeetingOutcome(r);
      case DeleteMeeting(id) =>
        var r := mem.DeleteMeeting(id);
        return UnitOutcome(r);
      case CreateNote(n) =>
        var r := mem.CreateNote(n);
        return NoteOutcome(r);
      case ReplaceMeetingNote(m, n) =>
        var r := mem.ReplaceMeetingNote(m, n);
        return NoteOutcome(r);
      case _ => o := ExecuteFolderOrTag(mem, op);
    }
  }

  method ExecuteFolderOrTag(mem: Memory.Store, op: Op) returns (o: Outcome)
    requires mem.Valid() && TagsOk(mem.tags) && ProjectsOk(mem.projects, mem.spaces.Keys)
    requires !op.CreateMeeting? && !op.CreateMeetingWithNote? && !op.UpdateMeetingEnded? && !op.RenameMeeting?
          && !op.DeleteMeeting? && !op.CreateNote? && !op.ReplaceMeetingNote?
    modifies mem
    ensures mem.Valid()
    ensures (mem.View(), o) == Apply(old(mem.View()), op, old(NextId(op, mem)))
  {
    match op {
      case CreateSpace(name) =>
        var r := mem.CreateSpace(name);
        return SpaceOutcome(r);
      case RenameSpace(id, name) =>
        var r := mem.RenameSpace(id, name);
        return UnitOutcome(r);
      case DeleteSpace(id) =>
        var r := mem.DeleteSpace(id);
        return UnitOutcome(r);
      case CreateProject(s, name) =>
        var r := mem.CreateProject(s, name);
        return ProjectOutcome(r);
      case RenameProject(id, name) =>
        var r := mem.RenameProject(id, name);
        return UnitOutcome(r);
      case DeleteProject(id) =>
        var r := mem.DeleteProject(id);
        return UnitOutcome(r);
      case CreateTag(name) =>
        var r := mem.CreateTag(name);
        return TagOutcome(r);
      case DeleteTag(id) =>
        var r := mem.DeleteTag(id);
        return UnitOutcome(r);
      case TagMeeting(m, t) =>
        var r := mem.TagMeeting(m, t);
        return UnitOutcome(r);
      case UntagMeeting(m, t) =>
        var r := mem.UntagMeeting(m, t);
        return UnitOutcome(r);
      case AssignMeeting(m, s, p) =>
        var r := mem.AssignMeeting(m, s, p);
        return UnitOutcome(r);
    }
  }

  /** The database answers a wide creation with the draft's duration, and stores
      what the column can hold. */
  method ExecuteSql(db: Sql.Database, op: Op, newId: string) returns (o: Outcome)
    requires TagsOk(db.tag)
    modifies db
    ensures db.View() == Apply(old(db.View()), AsStored(op), newId).0
    ensures Narrow(op) ==> o == Apply(old(db.View()), op, newId).1
  {
    NarrowIsStored(op);
    match op {
      case CreateMeeting(d) =>
        var r := db.CreateMeeting(d);
        return MeetingOutcome(r);
      case CreateMeetingWithNote(d, n, e, t) =>
        var r := db.CreateMeetingWithNote(d, n, e, t);
        return BothOutcome(r);
      case UpdateMeetingEnded(id, end, t) =>
        var r := db.UpdateMeetingEnded(id, end, t);
        return MeetingOutcome(r);
      case RenameMeeting(id, title) =>
        var r := db.RenameMeeting(id, title);
        return MeetingOutcome(r);
      case DeleteMeeting(id) =>
        var r := db.DeleteMeeting(id);
        return UnitOutcome(r);
      case CreateNote(n) =>
        var r := db.CreateNote(n);
        return NoteOutcome(r);
      case ReplaceMeetingNote(m, n) =>
        var r := db.ReplaceMeetingNote(m, n);
        return NoteOutcome(r);
      case _ => o := ExecuteSqlFolderOrTag(db, op, newId);
    }
  }

  method ExecuteSqlFolderOrTag(db: Sql.Database, op: Op, newId: string) returns (o: Outcome)
    requires TagsOk(db.tag)
    requires !op.CreateMeeting? && !op.CreateMeetingWithNote? && !op.UpdateMeetingEnded? && !op.RenameMeeting?
          && !op.DeleteMeeting? && !op.CreateNote? && !op.ReplaceMeetingNote?
    modifies db
    ensures (db.View(), o) == Apply(old(db.View()), op, newId)
  {
    match op {
      case CreateSpace(name) =>
        var r := db.CreateSpace(newId, name);
        return SpaceOutcome(r);
      case RenameSpace(id, name) =>
        var r := db.RenameSpace(id, name);
        return UnitOutcome(r);
      case DeleteSpace(id) =>
        var r := db.DeleteSpace(id);
        return UnitOutcome(r);
      case CreateProject(s, name) =>
        var r := db.CreateProject(newId, s, name);
        return ProjectOutcome(r);
      case RenameProject(id, name) =>
        var r := db.RenameProject(id, name);
        return UnitOutcome(r);
      case DeleteProject(id) =>
        var r := db.DeleteProject(id);
        return UnitOutcome(r);
      case CreateTag(name) =>
        var r := db.CreateTag(newId, name);
        return TagOutcome(r);
      case DeleteTag(id) =>
        var r := db.DeleteTag(id);
        return UnitOutcome(r);
      case TagMeeting(m, t) =>
        var r := db.TagMeeting(m, t);
        return UnitOutcome(r);
      case UntagMeeting(m, t) =>
        var r := db.UntagMeeting(m, t);
        return UnitOutcome(r);
      case AssignMeeting(m, s, p) =>
        var r := db.AssignMeeting(m, s, p);
        return UnitOutcome(r);
    }
  }

  /** One operation on both adapters, from equal registries: they agree afterwards if
      and only if its duration fits the column or the operation is refused. */
  method StepBoth(mem: Memory.Store, db: Sql.Database, op: Op) returns (a: Outcome, b: Outcome, newId: string)
    requires mem.Valid() && mem.View() == db.View() && Integrity(mem.View())
    modifies mem, db
    ensures mem.Valid()
    ensures (mem.View(), a) == Apply(old(mem.View()), op, newId)
    ensures db.View() == Apply(old(mem.View()), AsStored(op), newId).0
    ensures mem.View() == db.View() <==> Narrow(op) || Refused(old(mem.View()), op)
    ensures Narrow(op) ==> a == b
  {
    StoredAsGiven(mem.View(), op, NextId(op, mem));
    newId := NextId(op, mem);
    a := ExecuteInMemory(mem, op);
    b := ExecuteSql(db, op, newId);
  }

  /** Both adapters hold the registry `r`. */
  ghost predicate Hold(mem: Memory.Store, db: Sql.Database, r: Registry)
    reads mem, db
  {
    mem.Valid() && mem.View() == r && db.View() == r
  }

  method StartBoth() returns (mem: Memory.Store, db: Sql.Database)
    ensures fresh(mem) && fresh(db) && Hold(mem, db, EMPTY)
  {
    mem := new Memory.Store();
    db := new Sql.Database();
  }

  /** One more operation of a run. */
  method ContinueBoth(mem: Memory.Store, db: Sql.Database, op: Op, ghost steps: seq<(Op, string)>)
      returns (a: Outcome, b: Outcome, newId: string)
    requires Hold(mem, db, Run(steps).reg) && Narrow(op)
    modifies mem, db
    ensures Hold(mem, db, Run(steps + [(op, newId)]).reg)
    ensures a == b
  {
    RunHasIntegrity(steps);
    a, b, newId := StepBoth(mem, db, op);
    RunExtended(steps, op, newId);
  }

  /** The operations of `steps` are those of `ops`. */
  ghost predicate Does(steps: seq<(Op, string)>, ops: seq<Op>)
  {
    |steps| == |ops| && forall i | 0 <= i < |ops| :: steps[i].0 == ops[i]
  }

  lemma DoesOneMore(steps: seq<(Op, string)>, ops: seq<Op>, i: nat, newId: string)
    requires i < |ops| && Does(steps, ops[..i])
    ensures Does(steps + [(ops[i], newId)], ops[..i + 1])
  {
  }

  /** The operations one by one, from registries that are still empty. */
  method ContinueAll(mem: Memory.Store, db: Sql.Database, ops: seq<Op>)
      returns (inMemory: seq<Outcome>, sql: seq<Outcome>, ghost steps: seq<(Op, string)>)
    requires Hold(mem, db, EMPTY) && forall i | 0 <= i < |ops| :: Narrow(ops[i])
    modifies mem, db
    ensures Does(steps, ops) && Hold(mem, db, Run(steps).reg)
    ensures inMemory == sql && |sql| == |ops|
  {
    inMemory, sql, steps := [], [], [];
    for i := 0 to |ops|
      invariant Does(steps, ops[..i]) && Hold(mem, db, Run(steps).reg)
      invariant inMemory == sql && |sql| == i
    {
      var a, b, newId := ContinueBoth(mem, db, ops[i], steps);
      inMemory, sql := inMemory + [a], sql + [b];
      DoesOneMore(steps, ops, i, newId);
      steps := steps + [(ops[i], newId)];
    }
    assert ops[..|ops|] == ops;
  }

  /** Every sequence of operations takes both adapters from empty to the same
      registry, with the same answer at every step; that registry is the one of
      the reference run, so it has integrity and lists in creation order. */
  method RunBoth(ops: seq<Op>) returns (mem: Memory.Store, db: Sql.Database, inMemory: seq<Outcome>, sql: seq<Outcome>,
                                        ghost steps: seq<(Op, string)>)
    requires forall i | 0 <= i < |ops| :: Narrow(ops[i])
    ensures mem.Valid() && mem.View() == db.View() == Run(steps).reg
    ensures Does(steps, ops) && Sound(Run(steps))
    ensures inMemory == sql && |sql| == |ops|
  {
    mem, db := StartBoth();
    inMemory, sql, steps := ContinueAll(mem, db, ops);
    RunIsSound(steps);
  }

  lemma RunHasIntegrity(steps: seq<(Op, string)>)
    ensures Integrity(Run(steps).reg)
  {
    RunIsSound(steps);
  }

  lemma RunExtended(steps: seq<(Op, string)>, op: Op, newId: string)
    ensures Run(steps + [(op, newId)]).reg == Apply(Run(steps).reg, op, newId).0
  {
    var longer := steps + [(op, newId)];
    assert longer[..|longer| - 1] == steps;
  }

  /** From any state: ending a meeting with a duration of 2^63 or more leaves zero in
      the database and the duration in memory, so that the adapters differ. */
  method WideDurationDiverges(mem: Memory.Store, db: Sql.Database, id: string, end: string, duration: u64)
    requires mem.Valid() && mem.View() == db.View() && Integrity(mem.View())
    requires id in mem.View().meetings && duration >= 0x8000_0000_0000_0000
    modifies mem, db
    ensures id in mem.View().meetings && mem.View().meetings[id].durationMs == Some(duration)
    ensures id in db.View().meetings && db.View().meetings[id].durationMs == Some(0)
  {
    var a, b, newId := StepBoth(mem, db, UpdateMeetingEnded(id, end, duration));
  }
}
