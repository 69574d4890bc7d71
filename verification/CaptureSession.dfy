/** The two-party capture session. */
module CaptureSession {
  // The adapter is `screencapturekit_capture.rs`, the sidecar `main.swift`.

  import opened Options

  // The adapter is called from any number of threads. Each step is what happens between
  // two points where another party may run.

  datatype Request = Start(m: string) | Stop(m: string)

  /** The child process: its `current` session, the meetings whose recorders run, and
      the one request or response on the pipes. A recorder may outlive its session. */
  datatype Sidecar = Sidecar(
    alive: bool,
    current: Option<string>,
    running: multiset<string>,
    inbox: Option<Request>,
    outbox: Option<bool>)

  const FRESH: Sidecar := Sidecar(true, None, multiset{}, None, None)
  const DEAD: Sidecar := Sidecar(false, None, multiset{}, None, None)

  /** Where a thread stands in `start_capture` or `stop_capture`. */
  datatype Pc =
    | StartWaiting(m: string)   // before taking the state lock
    | StartReading(m: string)   // request written, state lock held
    | StartReturned(m: string)  // the sidecar said yes; not yet in the map
    | StopWaiting(m: string)    // before taking the sessions lock
    | StopChecked(m: string)    // in the map, sessions lock held
    | StopReading(m: string)    // request written, both locks held
    | StopReturned(m: string)   // the sidecar said yes; sessions lock held

  datatype Tid = Thread(number: nat)

  datatype State = State(
    slot: Option<Sidecar>,
    sessions: set<string>,
    stateLock: Option<Tid>,
    sessionsLock: Option<Tid>,
    threads: map<Tid, Pc>)

  const INIT: State := State(None, {}, None, None, map[])

  /** How `ensure_spawned`, the encoding and the write go. */
  datatype SendFate = Sent | SpawnFails | EncodeFails | WriteFails

  /** How the recorder takes a start or a stop: a stop that throws may have stopped the
      stream or not. */
  datatype RecorderFate = Obeys | Throws | ThrowsStopped

  datatype Step =
    | CallStart(t: Tid, m: string)
    | CallStop(t: Tid, m: string)
    | Send(t: Tid, fate: SendFate)
    | Handle(recorder: RecorderFate)  // the sidecar serves its request
    | Die                       // the sidecar crashes or exits
    | Receive(t: Tid)           // a well-formed response with the right id
    | ReadFails(t: Tid)         // end of file, truncation, undecodable or mismatched line
    | Insert(t: Tid)
    | Check(t: Tid)
    | Remove(t: Tid)

  // ------------------------------------------------------------------ the sidecar

  /** One request in the loop of `main.swift`. A stop that throws ends the session all
      the same. */
  function Serve(s: Sidecar, fate: RecorderFate): (r: Sidecar)
    requires s.inbox.Some?
  {
    match s.inbox.value
    case Start(m) =>
      if s.current.Some? || !fate.Obeys? then s.(inbox := None, outbox := Some(false))
      else s.(inbox := None, outbox := Some(true), current := Some(m), running := s.running + multiset{m})
    case Stop(m) =>
      if s.current != Some(m) then s.(inbox := None, outbox := Some(false))
      else
        s.(inbox := None, outbox := Some(fate.Obeys?), current := None,
           running := if fate.Throws? then s.running else s.running - multiset{m})
  }

  // ------------------------------------------------------------------ the adapter

  function Gone(s: State, t: Tid): (r: State)
  {
    s.(threads := s.threads - {t},
       stateLock := if s.stateLock == Some(t) then None else s.stateLock,
       sessionsLock := if s.sessionsLock == Some(t) then None else s.sessionsLock)
  }

  function Written(s: State, t: Tid, fate: SendFate, request: Request, pc: Pc): (r: State)
  {
    if s.slot.None? && fate.SpawnFails? then Gone(s, t)
    else
      var child := if s.slot.Some? then s.slot.value else FRESH;
      if fate.EncodeFails? then Gone(s.(slot := Some(child)), t)
      else if fate.WriteFails? then Gone(s.(slot := None), t)
      else
        s.(slot := Some(if child.alive then child.(inbox := Some(request), outbox := None) else child),
           stateLock := Some(t), threads := s.threads[t := pc])
  }

  predicate Serving(s: State)
  {
    s.slot.Some? && s.slot.value.alive && s.slot.value.inbox.Some?
  }

  /** A step that is not enabled changes nothing. */
  function Do(s: State, step: Step): (r: State)
  {
    match step
    case CallStart(t, m) => if t in s.threads then s else s.(threads := s.threads[t := StartWaiting(m)])
    case CallStop(t, m) => if t in s.threads then s else s.(threads := s.threads[t := StopWaiting(m)])
    case Send(t, fate) =>
      if t !in s.threads || s.stateLock.Some? then s
      else if s.threads[t].StartWaiting? then Written(s, t, fate, Start(s.threads[t].m), StartReading(s.threads[t].m))
      else if s.threads[t].StopChecked? then Written(s, t, fate, Stop(s.threads[t].m), StopReading(s.threads[t].m))
      else s
    case Handle(fate) =>
      if Serving(s) then s.(slot := Some(Serve(s.slot.value, fate))) else s
    case Die => if s.slot.Some? then s.(slot := Some(DEAD)) else s
    case Receive(t) =>
      if t !in s.threads || s.slot.None? || s.slot.value.outbox.None? then s
      else
        var yes, drained := s.slot.value.outbox.value, s.(slot := Some(s.slot.value.(outbox := None)));
        if s.threads[t].StartReading? then
          if yes then drained.(stateLock := None, threads := s.threads[t := StartReturned(s.threads[t].m)])
          else Gone(drained, t)
        else if s.threads[t].StopReading? then
          if yes then drained.(stateLock := None, threads := s.threads[t := StopReturned(s.threads[t].m)])
          else Gone(drained, t)
        else s
    case ReadFails(t) =>
      if t in s.threads && (s.threads[t].StartReading? || s.threads[t].StopReading?) then Gone(s.(slot := None), t)
      else s
    case Insert(t) =>
      if t in s.threads && s.threads[t].StartReturned? && s.sessionsLock.None? then
        Gone(s.(sessions := s.sessions + {s.threads[t].m}), t)
      else s
    case Check(t) =>
      if t in s.threads && s.threads[t].StopWaiting? && s.sessionsLock.None? then
        if s.threads[t].m in s.sessions then
          s.(sessionsLock := Some(t), threads := s.threads[t := StopChecked(s.threads[t].m)])
        else Gone(s, t)
      else s
    case Remove(t) =>
      if t in s.threads && s.threads[t].StopReturned? then
        Gone(s.(sessions := s.sessions - {s.threads[t].m}), t)
      else s
  }

  function Run(steps: seq<Step>): (s: State)
  {
    if steps == [] then INIT else Do(Run(steps[..|steps| - 1]), steps[|steps| - 1])
  }

  // -------------------------------------------------------------------- safety

  /** The live sidecar records the meeting: in its session, or, with `strays`, by any
      recorder that runs. */
  predicate Recording(s: State, m: string, strays: bool)
  {
    && s.slot.Some? && s.slot.value.alive
    && if strays then m in s.slot.value.running else s.slot.value.current == Some(m)
  }

  /** The step starts a second recorder for a meeting whose first one still runs. */
  predicate Restarts(s: State, step: Step)
  {
    && step == Handle(Obeys) && Serving(s)
    && s.slot.value.current.None?
    && s.slot.value.inbox.value.Start? && s.slot.value.inbox.value.m in s.slot.value.running
  }

  ghost predicate NoRestart(steps: seq<Step>)
  {
    steps == []
    || (NoRestart(steps[..|steps| - 1]) && !Restarts(Run(steps[..|steps| - 1]), steps[|steps| - 1]))
  }

  /** A start of m that the sidecar has granted and the map does not show yet. */
  predicate Granted(s: State, t: Tid, m: string)
  {
    && t in s.threads
    && (s.threads[t] == StartReturned(m)
        || (s.threads[t] == StartReading(m) && s.slot.Some? && s.slot.value.outbox == Some(true)))
  }

  ghost predicate SomeGranted(s: State, m: string)
  {
    exists t :: Granted(s, t, m)
  }

  predicate HoldsState(pc: Pc)
  {
    pc.StartReading? || pc.StopReading?
  }

  predicate HoldsMap(pc: Pc)
  {
    pc.StopChecked? || pc.StopReading? || pc.StopReturned?
  }

  /** The state lock is held by exactly the thread that is past taking it. */
  ghost predicate StateLockOk(threads: map<Tid, Pc>, lock: Option<Tid>)
  {
    && (lock.Some? ==> lock.value in threads && HoldsState(threads[lock.value]))
    && (forall t | t in threads && HoldsState(threads[t]) :: lock == Some(t))
  }

  ghost predicate MapLockOk(threads: map<Tid, Pc>, lock: Option<Tid>)
  {
    && (lock.Some? ==> lock.value in threads && HoldsMap(threads[lock.value]))
    && (forall t | t in threads && HoldsMap(threads[t]) :: lock == Some(t))
  }

  ghost predicate LocksOk(s: State)
  {
    StateLockOk(s.threads, s.stateLock) && MapLockOk(s.threads, s.sessionsLock)
  }

  /** The current session has a recorder, and a dead child has nothing. Without
      restarts no meeting has two recorders. */
  ghost predicate RecordersOk(c: Sidecar, strays: bool)
  {
    && (c.current.Some? ==> c.current.value in c.running)
    && (strays ==> forall m :: c.running[m] <= 1)
    && (!c.alive ==> c == DEAD)
  }

  /** The pipe carries the request of the thread that holds the state lock, or the
      answer to it; otherwise it is empty. A stop that was granted ended the recording. */
  predicate PipeOk(c: Sidecar, holder: Option<Pc>, strays: bool)
  {
    && (holder.None? ==> c.inbox.None? && c.outbox.None?)
    && (c.inbox.Some? ==> c.outbox.None?)
    && (c.inbox.Some? && holder.Some? && holder.value.StartReading? ==> c.inbox.value == Start(holder.value.m))
    && (c.inbox.Some? && holder.Some? && holder.value.StopReading? ==> c.inbox.value == Stop(holder.value.m))
    && (c.outbox == Some(true) && holder.Some? && holder.value.StopReading? ==>
          c.current.None? && (strays ==> holder.value.m !in c.running))
  }

  function Holder(s: State): (pc: Option<Pc>)
  {
    if s.stateLock.Some? && s.stateLock.value in s.threads then Some(s.threads[s.stateLock.value]) else None
  }

  ghost predicate SidecarOk(s: State, strays: bool)
  {
    s.slot.Some? ==> RecordersOk(s.slot.value, strays) && PipeOk(s.slot.value, Holder(s), strays)
  }

  /** What is recorded is in the map or about to be, also when a stop of the same
      meeting is about to take it out. */
  ghost predicate NoOrphan(s: State, strays: bool)
  {
    && (forall m | Recording(s, m, strays) :: m in s.sessions || SomeGranted(s, m))
    && (forall t, m | t in s.threads && s.threads[t] == StopReturned(m) && Recording(s, m, strays) :: SomeGranted(s, m))
  }

  ghost predicate Inv(s: State, strays: bool)
  {
    LocksOk(s) && SidecarOk(s, strays) && NoOrphan(s, strays)
  }

  lemma GoneKeepsLocks(s: State, t: Tid)
    requires LocksOk(s)
    ensures LocksOk(Gone(s, t))
  {
  }

  lemma MoveKeepsLocks(threads: map<Tid, Pc>, t: Tid, pc: Pc, stateLock: Option<Tid>, mapLock: Option<Tid>)
    requires StateLockOk(threads, stateLock) && MapLockOk(threads, mapLock)
    requires t in threads && HoldsState(threads[t]) ==> stateLock == Some(t)
    requires t in threads && HoldsMap(threads[t]) ==> HoldsMap(pc)
    requires HoldsMap(pc) ==> mapLock == Some(t) || mapLock.None?
    requires HoldsState(pc) ==> stateLock.None?
    ensures StateLockOk(threads[t := pc],
              if HoldsState(pc) then Some(t) else if stateLock == Some(t) then None else stateLock)
    ensures MapLockOk(threads[t := pc], if HoldsMap(pc) then Some(t) else mapLock)
  {
  }

  lemma LocksKept(s: State, step: Step)
    requires LocksOk(s)
    ensures LocksOk(Do(s, step))
  {
    match step {
      case CallStart(t, m) =>
        if t !in s.threads {
          MoveKeepsLocks(s.threads, t, StartWaiting(m), s.stateLock, s.sessionsLock);
        }
      case CallStop(t, m) =>
        if t !in s.threads {
          MoveKeepsLocks(s.threads, t, StopWaiting(m), s.stateLock, s.sessionsLock);
        }
      case Send(t, fate) => SendKeepsLocks(s, t, fate);
      case Handle(fate) =>
      case Die =>
      case Receive(t) => ReceiveKeepsLocks(s, t);
      case ReadFails(t) => GoneKeepsLocks(s.(slot := None), t);
      case Insert(t) =>
        if t in s.threads {
          GoneKeepsLocks(s.(sessions := s.sessions + {s.threads[t].m}), t);
        }
      case Check(t) =>
        if t in s.threads && s.sessionsLock.None? {
          GoneKeepsLocks(s, t);
          if s.threads[t].StopWaiting? {
            MoveKeepsLocks(s.threads, t, StopChecked(s.threads[t].m), s.stateLock, s.sessionsLock);
          }
        }
      case Remove(t) =>
        if t in s.threads {
          GoneKeepsLocks(s.(sessions := s.sessions - {s.threads[t].m}), t);
        }
    }
  }

  lemma SendKeepsLocks(s: State, t: Tid, fate: SendFate)
    requires LocksOk(s)
    ensures LocksOk(Do(s, Send(t, fate)))
  {
    if t in s.threads && s.stateLock.None? {
      GoneKeepsLocks(s, t);
      if s.threads[t].StartWaiting? {
        MoveKeepsLocks(s.threads, t, StartReading(s.threads[t].m), s.stateLock, s.sessionsLock);
      } else if s.threads[t].StopChecked? {
        MoveKeepsLocks(s.threads, t, StopReading(s.threads[t].m), s.stateLock, s.sessionsLock);
      }
    }
  }

  lemma ReceiveKeepsLocks(s: State, t: Tid)
    requires LocksOk(s)
    ensures LocksOk(Do(s, Receive(t)))
  {
    if t in s.threads && s.slot.Some? {
      GoneKeepsLocks(s.(slot := Some(s.slot.value.(outbox := None))), t);
      if s.threads[t].StartReading? {
        MoveKeepsLocks(s.threads, t, StartReturned(s.threads[t].m), s.stateLock, s.sessionsLock);
      } else if s.threads[t].StopReading? {
        MoveKeepsLocks(s.threads, t, StopReturned(s.threads[t].m), s.stateLock, s.sessionsLock);
      }
    }
  }

  lemma ServeKeeps(c: Sidecar, pc: Pc, fate: RecorderFate, strays: bool)
    requires RecordersOk(c, strays) && PipeOk(c, Some(pc), strays) && c.inbox.Some? && c.alive && HoldsState(pc)
    requires strays && fate.Obeys? && c.current.None? && c.inbox.value.Start? ==> c.inbox.value.m !in c.running
    ensures RecordersOk(Serve(c, fate), strays) && PipeOk(Serve(c, fate), Some(pc), strays)
  {
  }

  /** Writing a request to an idle child. */
  lemma WriteKeeps(s: State, t: Tid, fate: SendFate, request: Request, pc: Pc, strays: bool)
    requires SidecarOk(s, strays) && s.stateLock.None?
    requires (pc.StartReading? && request == Start(pc.m)) || (pc.StopReading? && request == Stop(pc.m))
    ensures SidecarOk(Written(s, t, fate, request, pc), strays)
  {
  }

  lemma SendKeepsSidecar(s: State, t: Tid, fate: SendFate, strays: bool)
    requires SidecarOk(s, strays)
    ensures SidecarOk(Do(s, Send(t, fate)), strays)
  {
    if t in s.threads && s.stateLock.None? {
      var m := s.threads[t].m;
      WriteKeeps(s, t, fate, Start(m), StartReading(m), strays);
      WriteKeeps(s, t, fate, Stop(m), StopReading(m), strays);
    }
  }

  lemma ReceiveEmptiesPipe(s: State, t: Tid)
    requires StateLockOk(s.threads, s.stateLock)
    ensures var s' := Do(s, Receive(t));
            s' == s || (s'.stateLock.None? && s.slot.Some? && s.slot.value.outbox.Some?
                        && s'.slot == Some(s.slot.value.(outbox := None)))
  {
    if t in s.threads && HoldsState(s.threads[t]) {
      assert s.stateLock == Some(t);
    }
  }

  lemma DrainKeeps(c: Sidecar, holder: Option<Pc>, strays: bool)
    requires RecordersOk(c, strays) && PipeOk(c, holder, strays) && c.outbox.Some?
    ensures RecordersOk(c.(outbox := None), strays) && PipeOk(c.(outbox := None), None, strays)
  {
  }

  lemma ReceiveKeepsSidecar(s: State, t: Tid, strays: bool)
    requires LocksOk(s) && SidecarOk(s, strays)
    ensures SidecarOk(Do(s, Receive(t)), strays)
  {
    ReceiveEmptiesPipe(s, t);
    if s.slot.Some? && s.slot.value.outbox.Some? {
      DrainKeeps(s.slot.value, Holder(s), strays);
    }
  }

  lemma SidecarKept(s: State, step: Step, strays: bool)
    requires LocksOk(s) && SidecarOk(s, strays) && (strays ==> !Restarts(s, step))
    ensures SidecarOk(Do(s, step), strays)
  {
    match step {
      case Send(t, fate) => SendKeepsSidecar(s, t, fate, strays);
      case Receive(t) => ReceiveKeepsSidecar(s, t, strays);
      case Handle(fate) =>
        if Serving(s) {
          ServeKeeps(s.slot.value, s.threads[s.stateLock.value], fate, strays);
        }
      case Die =>
      case ReadFails(t) =>
      case _ => QuietStep(s, step);
    }
  }

  /** The other steps leave the child and the holder of the state lock alone. */
  lemma QuietStep(s: State, step: Step)
    requires LocksOk(s) && (step.CallStart? || step.CallStop? || step.Insert? || step.Check? || step.Remove?)
    ensures var s' := Do(s, step);
            && s'.slot == s.slot && s'.stateLock == s.stateLock
            && (s.stateLock.Some? ==>
                  s.stateLock.value in s'.threads && s'.threads[s.stateLock.value] == s.threads[s.stateLock.value])
  {
  }

  /** Only the sidecar serving a request can start a recording. */
  lemma OnlyServingStarts(s: State, step: Step, m: string, strays: bool)
    ensures Recording(Do(s, step), m, strays) && !step.Handle? ==> Recording(s, m, strays)
  {
  }

  /** Only a new grant makes a meeting recorded. */
  lemma RecordingStarts(s: State, step: Step, m: string, strays: bool)
    requires Inv(s, strays) && Recording(Do(s, step), m, strays) && !Recording(s, m, strays)
    ensures SomeGranted(Do(s, step), m)
  {
    OnlyServingStarts(s, step, m, strays);
    var c := s.slot.value;
    assert Granted(Do(s, step), s.stateLock.value, m);
  }

  /** A grant lasts until its insertion or the end of the recording. */
  lemma GrantLasts(s: State, step: Step, t: Tid, m: string, strays: bool)
    requires Inv(s, strays) && Granted(s, t, m) && Recording(s, m, strays) && Recording(Do(s, step), m, strays)
    ensures Granted(Do(s, step), t, m) || (step == Insert(t) && m in Do(s, step).sessions)
  {
  }

  lemma NoOrphanKept(s: State, step: Step, strays: bool)
    requires Inv(s, strays)
    ensures NoOrphan(Do(s, step), strays)
  {
    var s' := Do(s, step);
    forall m | Recording(s', m, strays)
      ensures m in s'.sessions || SomeGranted(s', m)
    {
      if !Recording(s, m, strays) {
        RecordingStarts(s, step, m, strays);
      } else if SomeGranted(s, m) {
        var t :| Granted(s, t, m);
        GrantLasts(s, step, t, m, strays);
      }
    }
    forall t, m | t in s'.threads && s'.threads[t] == StopReturned(m) && Recording(s', m, strays)
      ensures SomeGranted(s', m)
    {
      if !Recording(s, m, strays) {
        RecordingStarts(s, step, m, strays);
      } else {
        StopHoldsTheMap(s, step, t, m, strays);
        var g :| Granted(s, g, m);
        GrantLasts(s, step, g, m, strays);
      }
    }
  }

  /** While a stop is between its answer and its removal nobody inserts. */
  lemma StopHoldsTheMap(s: State, step: Step, t: Tid, m: string, strays: bool)
    requires Inv(s, strays) && Recording(s, m, strays) && Recording(Do(s, step), m, strays)
    requires t in Do(s, step).threads && Do(s, step).threads[t] == StopReturned(m)
    ensures SomeGranted(s, m) && (step.Insert? ==> Do(s, step) == s)
  {
  }

  /** What every run keeps, about sessions in every run and about stray recorders too
      in runs without restarts. */
  lemma {:induction false} Always(steps: seq<Step>, strays: bool)
    requires strays ==> NoRestart(steps)
    ensures Inv(Run(steps), strays)
  {
    if steps != [] {
      var s, step := Run(steps[..|steps| - 1]), steps[|steps| - 1];
      Always(steps[..|steps| - 1], strays);
      LocksKept(s, step);
      SidecarKept(s, step, strays);
      NoOrphanKept(s, step, strays);
    }
  }

  /** No orphan recording, in every interleaving: with no call in flight, the meeting of
      the live sidecar's session is in the map. */
  lemma NoOrphanRecording(steps: seq<Step>, m: string)
    requires Run(steps).threads == map[] && Recording(Run(steps), m, false)
    ensures m in Run(steps).sessions
  {
    Always(steps, false);
    assert !SomeGranted(Run(steps), m);
  }

  /** Nor an orphan recorder: the meeting of a recorder that a failed stop left running
      is in the map as well, unless a meeting was started again over such a recorder. */
  lemma NoOrphanRecorder(steps: seq<Step>, m: string)
    requires NoRestart(steps)
    requires Run(steps).threads == map[] && Recording(Run(steps), m, true)
    ensures m in Run(steps).sessions
  {
    Always(steps, true);
    assert !SomeGranted(Run(steps), m);
  }

  // ------------------------------------------------------------- how many recorders

  /** The step is a stop of the current session that throws with the stream still on. */
  predicate LeavesRunning(s: State, step: Step)
  {
    && step == Handle(Throws) && Serving(s)
    && s.slot.value.inbox.value.Stop? && s.slot.value.current == Some(s.slot.value.inbox.value.m)
  }

  /** How many stops of that kind the present child has served. */
  function FailedStops(steps: seq<Step>): (n: nat)
  {
    if steps == [] then 0
    else
      var before, step := steps[..|steps| - 1], steps[|steps| - 1];
      var s, s' := Run(before), Run(steps);
      if s.slot.None? || s'.slot.None? || !s'.slot.value.alive then 0
      else FailedStops(before) + (if LeavesRunning(s, step) then 1 else 0)
  }

  /** Exactly the recorder of the session, if there is one, and one more for each stop
      that failed with the stream still on. */
  lemma {:induction false} RecorderCount(steps: seq<Step>)
    ensures var slot := Run(steps).slot;
      slot.Some? ==> |slot.value.running| == (if slot.value.current.Some? then 1 else 0) + FailedStops(steps)
  {
    if steps != [] {
      var before := steps[..|steps| - 1];
      RecorderCount(before);
      Always(before, false);
      CountStep(Run(before), steps[|steps| - 1]);
    }
  }

  function CurrentCount(c: Sidecar): (n: nat)
  {
    if c.current.Some? then 1 else 0
  }

  /** Serving a request counts the recorder and the session alike, except for a stop that
      throws with the stream still on. */
  lemma ServeCounts(c: Sidecar, recorder: RecorderFate)
    requires RecordersOk(c, false) && c.inbox.Some?
    ensures var stray := c.inbox.value.Stop? && c.current == Some(c.inbox.value.m) && recorder.Throws?;
      |Serve(c, recorder).running| - CurrentCount(Serve(c, recorder))
      == |c.running| - CurrentCount(c) + (if stray then 1 else 0)
  {
  }

  lemma SameChild(s: State, step: Step)
    requires s.slot.Some? && Do(s, step).slot.Some? && Do(s, step).slot.value.alive && !step.Handle?
    ensures Do(s, step).slot.value.running == s.slot.value.running
    ensures Do(s, step).slot.value.current == s.slot.value.current
  {
  }

  lemma NewChild(s: State, step: Step)
    requires SidecarOk(s, false) && Do(s, step).slot.Some? && (s.slot.None? || !Do(s, step).slot.value.alive)
    ensures Do(s, step).slot.value.running == multiset{} && Do(s, step).slot.value.current.None?
  {
  }

  lemma CountStep(s: State, step: Step)
    requires Inv(s, false)
    ensures var s' := Do(s, step);
      && (s'.slot.Some? && (s.slot.None? || !s'.slot.value.alive) ==>
            s'.slot.value.running == multiset{} && s'.slot.value.current.None?)
      && (s'.slot.Some? && s.slot.Some? && s'.slot.value.alive ==>
            |s'.slot.value.running| - CurrentCount(s'.slot.value)
            == |s.slot.value.running| - CurrentCount(s.slot.value) + (if LeavesRunning(s, step) then 1 else 0))
  {
    var s' := Do(s, step);
    if s'.slot.Some? {
      if s.slot.None? || !s'.slot.value.alive {
        NewChild(s, step);
      } else if step.Handle? {
        if Serving(s) {
          ServeCounts(s.slot.value, step.recorder);
        }
      } else {
        SameChild(s, step);
      }
    }
  }

  /** The sidecar runs at most one recorder if and only if no stop failed with the
      stream still on, or one did and no session has begun since. */
  lemma OneRecording(steps: seq<Step>)
    requires Run(steps).slot.Some?
    ensures |Run(steps).slot.value.running| <= 1
       <==> FailedStops(steps) == 0 || (FailedStops(steps) == 1 && Run(steps).slot.value.current.None?)
  {
    RecorderCount(steps);
  }

  // -------------------------------------------------------------- two runs that fail

  /** A whole start or stop by one thread, with the given answer of the recorder. */
  function StartCall(t: Tid, m: string): (r: seq<Step>)
  {
    [CallStart(t, m), Send(t, Sent), Handle(Obeys), Receive(t), Insert(t)]
  }

  function StopCall(t: Tid, m: string, fate: RecorderFate): (r: seq<Step>)
  {
    [CallStop(t, m), Check(t), Send(t, Sent), Handle(fate), Receive(t)] + (if fate.Obeys? then [Remove(t)] else [])
  }

  /** No call is in flight, and the sidecar, if there is one, has no session. */
  predicate Quiet(s: State)
  {
    && s.threads == map[] && s.stateLock.None? && s.sessionsLock.None?
    && (s.slot.Some? ==>
          s.slot.value.alive && s.slot.value.inbox.None? && s.slot.value.outbox.None? && s.slot.value.current.None?)
  }

  function Child(s: State): (c: Sidecar)
  {
    if s.slot.Some? then s.slot.value else FRESH
  }

  /** The state with a session of m on top. */
  function InSession(s: State, m: string): (r: State)
  {
    s.(slot := Some(Child(s).(current := Some(m), running := Child(s).running + multiset{m})),
       sessions := s.sessions + {m})
  }

  lemma OneMoreStep(steps: seq<Step>, step: Step)
    ensures Run(steps + [step]) == Do(Run(steps), step)
  {
    assert (steps + [step])[..|steps|] == steps;
  }

  lemma StartHandled(s: State, t: Tid, m: string)
    requires Quiet(s)
    ensures Do(Do(Do(Do(Do(s, CallStart(t, m)), Send(t, Sent)), Handle(Obeys)), Receive(t)), Insert(t))
         == InSession(s, m)
  {
    assert map[t := StartReturned(m)] - {t} == map[];
  }

  /** A start that goes well. */
  lemma StartRuns(steps: seq<Step>, t: Tid, m: string)
    requires Quiet(Run(steps))
    ensures Run(steps + StartCall(t, m)) == InSession(Run(steps), m)
  {
    var s1 := steps + [CallStart(t, m)];
    var s2 := s1 + [Send(t, Sent)];
    var s3 := s2 + [Handle(Obeys)];
    var s4 := s3 + [Receive(t)];
    OneMoreStep(steps, CallStart(t, m));
    OneMoreStep(s1, Send(t, Sent));
    OneMoreStep(s2, Handle(Obeys));
    OneMoreStep(s3, Receive(t));
    OneMoreStep(s4, Insert(t));
    assert steps + StartCall(t, m) == s4 + [Insert(t)];
    StartHandled(Run(steps), t, m);
  }

  /** The state while the stop of m waits for its answer. */
  function Stopping(s: State, t: Tid, m: string): (r: State)
  {
    var c := Child(InSession(s, m));
    State(Some(c.(inbox := Some(Stop(m)))), s.sessions + {m}, Some(t), Some(t), map[t := StopReading(m)])
  }

  lemma StopSent(steps: seq<Step>, s: State, t: Tid, m: string)
    requires Quiet(s) && Run(steps) == InSession(s, m)
    ensures Run(steps + [CallStop(t, m)] + [Check(t)] + [Send(t, Sent)]) == Stopping(s, t, m)
  {
    var s1 := steps + [CallStop(t, m)];
    OneMoreStep(steps, CallStop(t, m));
    OneMoreStep(s1, Check(t));
    OneMoreStep(s1 + [Check(t)], Send(t, Sent));
  }

  function Ended(s: State, m: string, fate: RecorderFate): (r: State)
  {
    s.(slot := Some(Child(s).(running := if fate.Throws? then Child(s).running + multiset{m} else Child(s).running)),
       sessions := if fate.Obeys? then s.sessions + {m} - {m} else s.sessions + {m})
  }

  /** The state while the sidecar's answer to the stop of m waits to be read. */
  function StopAnswered(s: State, t: Tid, m: string, fate: RecorderFate): (r: State)
  {
    var c := Child(Ended(s, m, fate));
    Stopping(s, t, m).(slot := Some(c.(outbox := Some(fate.Obeys?))))
  }

  lemma StopHandled(s: State, t: Tid, m: string, fate: RecorderFate)
    requires Quiet(s)
    ensures Do(Stopping(s, t, m), Handle(fate)) == StopAnswered(s, t, m, fate)
  {
    StopServedChild(s, m, fate);
  }

  lemma StopServedChild(s: State, m: string, fate: RecorderFate)
    requires Quiet(s)
    ensures Serve(Child(InSession(s, m)).(inbox := Some(Stop(m))), fate)
         == Child(Ended(s, m, fate)).(outbox := Some(fate.Obeys?))
  {
    assert Child(s).running + multiset{m} - multiset{m} == Child(s).running;
  }

  lemma StopRead(s: State, t: Tid, m: string, fate: RecorderFate)
    requires Quiet(s)
    ensures var r := Do(StopAnswered(s, t, m, fate), Receive(t));
      Ended(s, m, fate) == if fate.Obeys? then Do(r, Remove(t)) else r
  {
    assert map[t := StopReading(m)] - {t} == map[] && map[t := StopReturned(m)] - {t} == map[];
  }

  lemma StopServed(steps: seq<Step>, s: State, t: Tid, m: string, fate: RecorderFate)
    requires Quiet(s) && Run(steps) == Stopping(s, t, m)
    ensures Run(steps + [Handle(fate)] + [Receive(t)] + (if fate.Obeys? then [Remove(t)] else [])) == Ended(s, m, fate)
  {
    var s1 := steps + [Handle(fate)];
    var s2 := s1 + [Receive(t)];
    OneMoreStep(steps, Handle(fate));
    OneMoreStep(s1, Receive(t));
    OneMoreStep(s2, Remove(t));
    StopHandled(s, t, m, fate);
    StopRead(s, t, m, fate);
    assert s2 + [] == s2;
  }

  /** A stop after it: the session ends, and the map forgets it only when the recorder
      obeys. */
  lemma StopRuns(steps: seq<Step>, s: State, t: Tid, m: string, fate: RecorderFate)
    requires Quiet(s) && Run(steps) == InSession(s, m)
    ensures Run(steps + StopCall(t, m, fate)) == Ended(s, m, fate)
  {
    StopSent(steps, s, t, m);
    var sent := steps + [CallStop(t, m)] + [Check(t)] + [Send(t, Sent)];
    StopServed(sent, s, t, m, fate);
    var rest := if fate.Obeys? then [Remove(t)] else [];
    assert steps + StopCall(t, m, fate) == sent + [Handle(fate)] + [Receive(t)] + rest;
  }

  /** After a stop that failed with the stream still on, the next start runs a second
      recorder. */
  lemma TwoRecorders(t: Tid, a: string, b: string)
    ensures var slot := Run(StartCall(t, a) + StopCall(t, a, Throws) + StartCall(t, b)).slot;
      slot.Some? && slot.value.running == multiset{a, b}
  {
    StartRuns([], t, a);
    assert [] + StartCall(t, a) == StartCall(t, a);
    StopRuns(StartCall(t, a), INIT, t, a, Throws);
    StartRuns(StartCall(t, a) + StopCall(t, a, Throws), t, b);
  }

  /** Whenever a stray recorder runs and no call is in flight, starting its meeting again
      and stopping it leaves the recorder running with the meeting out of the map. */
  lemma RestartOrphans(steps: seq<Step>, t: Tid, m: string)
    requires Quiet(Run(steps)) && Recording(Run(steps), m, true)
    ensures var s := Run(steps + StartCall(t, m) + StopCall(t, m, Obeys));
      s.threads == map[] && Recording(s, m, true) && m !in s.sessions
  {
    StartRuns(steps, t, m);
    StopRuns(steps + StartCall(t, m), Run(steps), t, m, Obeys);
  }

  /** Such a recorder is there after one start and one stop that fails. */
  lemma StrayAfterFailedStop(t: Tid, m: string)
    ensures var s := Run(StartCall(t, m) + StopCall(t, m, Throws));
      Quiet(s) && Recording(s, m, true) && m in s.sessions
  {
    StartRuns([], t, m);
    assert [] + StartCall(t, m) == StartCall(t, m);
    StopRuns(StartCall(t, m), INIT, t, m, Throws);
  }
}
