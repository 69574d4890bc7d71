/** Routing of job events to callbacks, `EventStreamActor.swift`. */
module EventStream {
  // The replay buffer keeps a job's terminal event until its callback is registered.

  datatype Event =
    | JobDone(job: string, payload: string)
    | JobError(job: string, payload: string)
    | JobProgress(job: string, payload: string)
    | Unknown

  predicate Terminal(e: Event)
  {
    e.JobDone? || e.JobError?
  }

  datatype Handler = Handler(number: nat)

  datatype Entry = Entry(jobId: string, event: Event)

  /** One invocation of a handler. */
  datatype Delivery = Delivery(handler: Handler, event: Event)

  datatype State = State(callbacks: map<string, Handler>, buffer: seq<Entry>, log: seq<Delivery>)

  const INIT: State := State(map[], [], [])
  const MAX_BUFFER_SIZE: nat := 64

  datatype Op = Register(job: string, handler: Handler) | Unregister(job: string) | Stop | Route(event: Event)

  // ------------------------------------------------------- the actor's operations

  predicate Holds(buffer: seq<Entry>, job: string)
  {
    exists i | 0 <= i < |buffer| :: buffer[i].jobId == job
  }

  /** Position of the job's oldest entry, or the length when there is none. */
  function FirstIndex(buffer: seq<Entry>, job: string): (i: nat)
    ensures i <= |buffer|
    ensures i < |buffer| ==> buffer[i].jobId == job
    ensures forall k | 0 <= k < i :: buffer[k].jobId != job
  {
    if buffer == [] || buffer[0].jobId == job then 0 else 1 + FirstIndex(buffer[1..], job)
  }

  function WithoutJob(buffer: seq<Entry>, job: string): (r: seq<Entry>)
    ensures |r| <= |buffer|
  {
    if buffer == [] then []
    else (if buffer[0].jobId == job then [] else [buffer[0]]) + WithoutJob(buffer[1..], job)
  }

  function DoRegister(s: State, job: string, handler: Handler): (r: State)
  {
    var i := FirstIndex(s.buffer, job);
    if i < |s.buffer| then
      s.(buffer := s.buffer[..i] + s.buffer[i + 1..], log := s.log + [Delivery(handler, s.buffer[i].event)])
    else s.(callbacks := s.callbacks[job := handler])
  }

  function DoUnregister(s: State, job: string): (r: State)
  {
    s.(callbacks := s.callbacks - {job}, buffer := WithoutJob(s.buffer, job))
  }

  function Appended(buffer: seq<Entry>, x: Entry): (r: seq<Entry>)
  {
    (if |buffer| >= MAX_BUFFER_SIZE then buffer[1..] else buffer) + [x]
  }

  function DoRoute(s: State, event: Event): (r: State)
  {
    if event.Unknown? then s
    else if event.job in s.callbacks then
      var called := s.(log := s.log + [Delivery(s.callbacks[event.job], event)]);
      if Terminal(event) then called.(callbacks := s.callbacks - {event.job}) else called
    else if Terminal(event) then s.(buffer := Appended(s.buffer, Entry(event.job, event)))
    else s
  }

  function Do(s: State, op: Op): (r: State)
  {
    match op
    case Register(job, handler) => DoRegister(s, job, handler)
    case Unregister(job) => DoUnregister(s, job)
    case Stop => State(map[], [], s.log)
    case Route(event) => DoRoute(s, event)
  }

  /** The actor itself. `log` is what its handlers have seen. */
  class EventStreamActor {
    var callbacks: map<string, Handler>
    var eventBuffer: seq<Entry>
    var log: seq<Delivery>

    ghost function Now(): (s: State)
      reads this
    {
      State(callbacks, eventBuffer, log)
    }

    constructor ()
      ensures Now() == INIT
    {
      callbacks, eventBuffer, log := map[], [], [];
    }

    method RegisterCallback(jobId: string, handler: Handler)
      modifies this
      ensures Now() == Do(old(Now()), Register(jobId, handler))
    {
      var idx := FirstIndex(eventBuffer, jobId);
      if idx < |eventBuffer| {
        log := log + [Delivery(handler, eventBuffer[idx].event)];
        eventBuffer := eventBuffer[..idx] + eventBuffer[idx + 1..];
        return;
      }
      callbacks := callbacks[jobId := handler];
    }

    method UnregisterCallback(jobId: string)
      modifies this
      ensures Now() == Do(old(Now()), Unregister(jobId))
    {
      callbacks := callbacks - {jobId};
      eventBuffer := WithoutJob(eventBuffer, jobId);
    }

    method StopAll()
      modifies this
      ensures Now() == Do(old(Now()), Stop)
    {
      callbacks := map[];
      eventBuffer := [];
    }

    method RouteEvent(event: Event)
      modifies this
      ensures Now() == Do(old(Now()), Route(event))
    {
      match event {
        case JobDone(jobId, _) =>
          RouteTerminal(jobId, event);
        case JobError(jobId, _) =>
          RouteTerminal(jobId, event);
        case JobProgress(jobId, _) =>
          if jobId in callbacks {
            log := log + [Delivery(callbacks[jobId], event)];
          }
        case Unknown =>
      }
    }

    method RouteTerminal(jobId: string, event: Event)
      requires Terminal(event) && event.job == jobId
      modifies this
      ensures Now() == DoRoute(old(Now()), event)
    {
      if jobId in callbacks {
        log := log + [Delivery(callbacks[jobId], event)];
        callbacks := callbacks - {jobId};
      } else {
        if |eventBuffer| >= MAX_BUFFER_SIZE {
          eventBuffer := eventBuffer[1..];
        }
        eventBuffer := eventBuffer + [Entry(jobId, event)];
      }
    }
  }

  // -------------------------------------------------------------- every reachable state

  function RunFrom(s: State, ops: seq<Op>): (r: State)
    decreases ops
  {
    if ops == [] then s else RunFrom(Do(s, ops[0]), ops[1..])
  }

  lemma {:induction false} RunFromConcat(s: State, a: seq<Op>, b: seq<Op>)
    ensures RunFrom(s, a + b) == RunFrom(RunFrom(s, a), b)
    decreases a
  {
    if a == [] {
      assert a + b == b;
    } else {
      assert (a + b)[1..] == a[1..] + b;
      RunFromConcat(Do(s, a[0]), a[1..], b);
    }
  }

  /** The buffer is bounded and holds terminal events only, under their own job, and
      no job is both registered and buffered. */
  ghost predicate Inv(s: State)
  {
    && |s.buffer| <= MAX_BUFFER_SIZE
    && forall i | 0 <= i < |s.buffer| ::
         && Terminal(s.buffer[i].event)
         && s.buffer[i].event.job == s.buffer[i].jobId
         && s.buffer[i].jobId !in s.callbacks
  }

  lemma {:induction false} WithoutJobMembers(buffer: seq<Entry>, job: string)
    ensures forall x | x in WithoutJob(buffer, job) :: x in buffer && x.jobId != job
  {
    if buffer != [] {
      WithoutJobMembers(buffer[1..], job);
    }
  }

  lemma StepKeepsInv(s: State, op: Op)
    requires Inv(s)
    ensures Inv(Do(s, op))
  {
    if op.Unregister? {
      var kept := WithoutJob(s.buffer, op.job);
      WithoutJobMembers(s.buffer, op.job);
      forall i | 0 <= i < |kept|
        ensures kept[i] in s.buffer && kept[i].jobId != op.job
      {
        assert kept[i] in kept;
      }
    }
  }

  lemma {:induction false} Reachable(s: State, ops: seq<Op>)
    requires Inv(s)
    ensures Inv(RunFrom(s, ops))
    decreases ops
  {
    if ops != [] {
      StepKeepsInv(s, ops[0]);
      Reachable(Do(s, ops[0]), ops[1..]);
    }
  }

  // ----------------------------------------------------------- one job through a run

  /** What the handlers of one job have seen. */
  function Seen(log: seq<Delivery>, job: string): (r: seq<Delivery>)
  {
    if log == [] then []
    else
      var last := log[|log| - 1];
      Seen(log[..|log| - 1], job) + (if !last.event.Unknown? && last.event.job == job then [last] else [])
  }

  lemma SeenAppend(log: seq<Delivery>, d: Delivery, job: string)
    ensures Seen(log + [d], job) == Seen(log, job) + (if !d.event.Unknown? && d.event.job == job then [d] else [])
  {
    assert (log + [d])[..|log|] == log;
  }

  /** Neither registers nor unregisters the job, nor routes a terminal event of it. */
  predicate LeavesAlone(op: Op, job: string)
  {
    match op
    case Register(j, _) => j != job
    case Unregister(j) => j != job
    case Stop => true
    case Route(e) => Terminal(e) ==> e.job != job
  }

  predicate AllLeaveAlone(ops: seq<Op>, job: string)
  {
    forall i | 0 <= i < |ops| :: LeavesAlone(ops[i], job)
  }

  predicate NoStop(ops: seq<Op>)
  {
    Stop !in ops
  }

  /** The job is neither registered nor buffered. */
  predicate Absent(s: State, job: string)
  {
    job !in s.callbacks && !Holds(s.buffer, job)
  }

  lemma {:induction false} StaysAbsent(s: State, ops: seq<Op>, job: string)
    requires Inv(s) && Absent(s, job) && AllLeaveAlone(ops, job)
    ensures Absent(RunFrom(s, ops), job)
    ensures Seen(RunFrom(s, ops).log, job) == Seen(s.log, job)
    decreases ops
  {
    if ops != [] {
      AbsentStep(s, ops[0], job);
      BufferedUnseen(s, ops[0], job);
      StepKeepsInv(s, ops[0]);
      StaysAbsent(Do(s, ops[0]), ops[1..], job);
    }
  }

  lemma StillNotHeld(buffer: seq<Entry>, job: string, other: string)
    requires !Holds(buffer, other)
    ensures !Holds(WithoutJob(buffer, job), other)
  {
    WithoutJobMembers(buffer, job);
    var kept := WithoutJob(buffer, job);
    forall i | 0 <= i < |kept|
      ensures kept[i].jobId != other
    {
      assert kept[i] in kept;
    }
  }

  lemma AbsentStep(s: State, op: Op, job: string)
    requires Inv(s) && Absent(s, job) && LeavesAlone(op, job)
    ensures Absent(Do(s, op), job)
  {
    if op.Unregister? {
      StillNotHeld(s.buffer, op.job, job);
    }
  }

  /** The progress events of a job among some operations, as its handler sees them. */
  function ProgressSeen(ops: seq<Op>, job: string, h: Handler): (r: seq<Delivery>)
  {
    if ops == [] then []
    else
      (if ops[0].Route? && ops[0].event.JobProgress? && ops[0].event.job == job then [Delivery(h, ops[0].event)]
       else [])
      + ProgressSeen(ops[1..], job, h)
  }

  lemma ProgressSeenSplit(ops: seq<Op>, job: string, h: Handler)
    requires ops != []
    ensures ProgressSeen(ops, job, h) == ProgressSeen([ops[0]], job, h) + ProgressSeen(ops[1..], job, h)
  {
    assert [ops[0]][1..] == [];
  }

  lemma {:induction false} StaysRegistered(s: State, ops: seq<Op>, job: string, h: Handler)
    requires Inv(s) && job in s.callbacks && s.callbacks[job] == h
    requires AllLeaveAlone(ops, job) && NoStop(ops)
    ensures job in RunFrom(s, ops).callbacks && RunFrom(s, ops).callbacks[job] == h
    ensures Seen(RunFrom(s, ops).log, job) == Seen(s.log, job) + ProgressSeen(ops, job, h)
    decreases ops
  {
    if ops != [] {
      RegisteredStep(s, ops[0], job, h);
      StepKeepsInv(s, ops[0]);
      StaysRegistered(Do(s, ops[0]), ops[1..], job, h);
      ProgressSeenSplit(ops, job, h);
    }
  }

  lemma RegisteredStep(s: State, op: Op, job: string, h: Handler)
    requires Inv(s) && job in s.callbacks && s.callbacks[job] == h
    requires LeavesAlone(op, job) && op != Stop
    ensures job in Do(s, op).callbacks && Do(s, op).callbacks[job] == h
    ensures Seen(Do(s, op).log, job) == Seen(s.log, job) + ProgressSeen([op], job, h)
  {
    assert [op][1..] == [];
    match op
    case Register(j, g) =>
      var i := FirstIndex(s.buffer, j);
      if i < |s.buffer| {
        SeenAppend(s.log, Delivery(g, s.buffer[i].event), job);
      }
    case Unregister(j) =>
    case Route(e) =>
      if !e.Unknown? && e.job in s.callbacks {
        SeenAppend(s.log, Delivery(s.callbacks[e.job], e), job);
      }
  }

  // -------------------------------------------------------------- while it is buffered

  /** The operation puts an event into the buffer. */
  predicate Buffers(s: State, op: Op)
  {
    op.Route? && Terminal(op.event) && op.event.job !in s.callbacks
  }

  /** How many events a run puts into the buffer. */
  function BufferedDuring(s: State, ops: seq<Op>): (n: nat)
    decreases ops
  {
    if ops == [] then 0 else (if Buffers(s, ops[0]) then 1 else 0) + BufferedDuring(Do(s, ops[0]), ops[1..])
  }

  /** The operation takes an entry out of the buffer. */
  predicate Removes(s: State, op: Op)
  {
    (op.Register? || op.Unregister?) && Holds(s.buffer, op.job)
  }

  predicate NothingRemoved(s: State, ops: seq<Op>)
    decreases ops
  {
    ops == [] || (!Removes(s, ops[0]) && NothingRemoved(Do(s, ops[0]), ops[1..]))
  }

  /** The job's one entry, `behind` places before the end of the buffer. */
  predicate OneEntry(s: State, job: string, e: Event, behind: nat)
  {
    && job !in s.callbacks
    && behind < |s.buffer|
    && s.buffer[|s.buffer| - 1 - behind] == Entry(job, e)
    && forall i | 0 <= i < |s.buffer| :: s.buffer[i].jobId == job ==> i == |s.buffer| - 1 - behind
  }

  /** Taking out one job's entries keeps every other entry, no later than it was. */
  lemma {:induction false} WithoutJobKeeps(buffer: seq<Entry>, job: string, p: nat) returns (q: nat)
    requires p < |buffer| && buffer[p].jobId != job
    requires forall i | 0 <= i < |buffer| :: buffer[i].jobId == buffer[p].jobId ==> i == p
    ensures q <= p && q < |WithoutJob(buffer, job)|
    ensures WithoutJob(buffer, job)[q] == buffer[p]
    ensures |WithoutJob(buffer, job)| - q <= |buffer| - p
    ensures forall i | 0 <= i < |WithoutJob(buffer, job)| ::
      WithoutJob(buffer, job)[i].jobId == buffer[p].jobId ==> i == q
    ensures !Holds(buffer, job) ==> WithoutJob(buffer, job) == buffer
  {
    var rest := WithoutJob(buffer[1..], job);
    if p == 0 {
      q := 0;
      WithoutJobMembers(buffer[1..], job);
      forall i | 0 <= i < |rest|
        ensures rest[i].jobId != buffer[0].jobId
      {
        assert rest[i] in rest;
        assert rest[i] in buffer[1..];
      }
      AbsentJobChangesNothing(buffer, job);
    } else {
      forall i | 0 <= i < |buffer[1..]| && buffer[1..][i].jobId == buffer[1..][p - 1].jobId
        ensures i == p - 1
      {
        assert buffer[1..][i] == buffer[i + 1];
      }
      var r := WithoutJobKeeps(buffer[1..], job, p - 1);
      q := if buffer[0].jobId == job then r else r + 1;
      AbsentJobChangesNothing(buffer, job);
    }
  }

  lemma {:induction false} AbsentJobChangesNothing(buffer: seq<Entry>, job: string)
    ensures !Holds(buffer, job) ==> WithoutJob(buffer, job) == buffer
  {
    if buffer != [] && !Holds(buffer, job) {
      forall i | 0 <= i < |buffer[1..]|
        ensures buffer[1..][i].jobId != job
      {
        assert buffer[1..][i] == buffer[i + 1];
      }
      AbsentJobChangesNothing(buffer[1..], job);
      assert buffer == [buffer[0]] + buffer[1..];
    }
  }

  /** A replay for another job takes an entry from before or from behind. */
  lemma ReplayBeside(s: State, j: string, h: Handler, job: string, e: Event, behind: nat) returns (now: nat)
    requires OneEntry(s, job, e, behind) && j != job
    ensures OneEntry(DoRegister(s, j, h), job, e, now)
    ensures now <= behind
    ensures !Holds(s.buffer, j) ==> now == behind
  {
    var p := |s.buffer| - 1 - behind;
    var i := FirstIndex(s.buffer, j);
    now := if i < p || i == |s.buffer| then behind else behind - 1;
  }

  lemma UnregisterBeside(s: State, j: string, job: string, e: Event, behind: nat) returns (now: nat)
    requires OneEntry(s, job, e, behind) && j != job
    ensures OneEntry(DoUnregister(s, j), job, e, now)
    ensures now <= behind
    ensures !Holds(s.buffer, j) ==> now == behind
  {
    var q := WithoutJobKeeps(s.buffer, j, |s.buffer| - 1 - behind);
    now := |WithoutJob(s.buffer, j)| - 1 - q;
  }

  lemma AppendBehind(s: State, x: Event, job: string, e: Event, behind: nat)
    requires |s.buffer| <= MAX_BUFFER_SIZE && OneEntry(s, job, e, behind)
    requires Terminal(x) && x.job != job && x.job !in s.callbacks && behind + 1 < MAX_BUFFER_SIZE
    ensures OneEntry(DoRoute(s, x), job, e, behind + 1)
  {
    var p := |s.buffer| - 1 - behind;
    var r := Appended(s.buffer, Entry(x.job, x));
    var shift := if |s.buffer| >= MAX_BUFFER_SIZE then 1 else 0;
    assert r[p - shift] == s.buffer[p];
    forall i | 0 <= i < |r| && r[i].jobId == job
      ensures i == |r| - 1 - (behind + 1)
    {
      assert i < |r| - 1 && r[i] == s.buffer[i + shift];
    }
  }

  /** Operations on other jobs show this job's handler nothing. */
  lemma BufferedUnseen(s: State, op: Op, job: string)
    requires Inv(s) && job !in s.callbacks && LeavesAlone(op, job)
    ensures Seen(Do(s, op).log, job) == Seen(s.log, job)
  {
    match op
    case Register(j, h) =>
      var i := FirstIndex(s.buffer, j);
      if i < |s.buffer| {
        SeenAppend(s.log, Delivery(h, s.buffer[i].event), job);
      }
    case Unregister(j) =>
    case Stop =>
    case Route(x) =>
      if !x.Unknown? && x.job in s.callbacks {
        SeenAppend(s.log, Delivery(s.callbacks[x.job], x), job);
      }
  }

  /** One step with another job: the entry survives unless it has 63 events behind it
      and another is buffered; the number behind it grows by at most the one buffered
      event, and by exactly that when nothing is taken out. */
  lemma BufferedStep(s: State, op: Op, job: string, e: Event, behind: nat) returns (now: nat)
    requires Inv(s) && OneEntry(s, job, e, behind)
    requires LeavesAlone(op, job) && op != Stop
    requires behind + (if Buffers(s, op) then 1 else 0) < MAX_BUFFER_SIZE
    ensures OneEntry(Do(s, op), job, e, now)
    ensures now <= behind + (if Buffers(s, op) then 1 else 0)
    ensures !Removes(s, op) ==> now == behind + (if Buffers(s, op) then 1 else 0)
    ensures Inv(Do(s, op))
    ensures Seen(Do(s, op).log, job) == Seen(s.log, job)
  {
    StepKeepsInv(s, op);
    BufferedUnseen(s, op, job);
    now := behind;
    match op
    case Register(j, h) =>
      now := ReplayBeside(s, j, h, job, e, behind);
    case Unregister(j) =>
      now := UnregisterBeside(s, j, job, e, behind);
    case Route(x) =>
      if Buffers(s, op) {
        AppendBehind(s, x, job, e, behind);
        now := behind + 1;
      }
  }

  lemma {:induction false} StaysBuffered(s: State, ops: seq<Op>, job: string, e: Event, behind: nat) returns (now: nat)
    requires Inv(s) && OneEntry(s, job, e, behind)
    requires AllLeaveAlone(ops, job) && NoStop(ops)
    requires behind + BufferedDuring(s, ops) < MAX_BUFFER_SIZE
    ensures OneEntry(RunFrom(s, ops), job, e, now)
    ensures Seen(RunFrom(s, ops).log, job) == Seen(s.log, job)
    decreases ops
  {
    if ops == [] {
      now := behind;
    } else {
      var next := BufferedStep(s, ops[0], job, e, behind);
      now := StaysBuffered(Do(s, ops[0]), ops[1..], job, e, next);
    }
  }

  /** The 64th event buffered behind an entry pushes it out, wherever the entry stood
      in the buffer to begin with. */
  lemma {:induction false} PushedOut(s: State, ops: seq<Op>, job: string, e: Event, behind: nat)
    requires Inv(s) && OneEntry(s, job, e, behind)
    requires AllLeaveAlone(ops, job) && NoStop(ops) && NothingRemoved(s, ops)
    requires behind + BufferedDuring(s, ops) >= MAX_BUFFER_SIZE
    ensures Absent(RunFrom(s, ops), job)
    ensures Seen(RunFrom(s, ops).log, job) == Seen(s.log, job)
    decreases ops
  {
    StepKeepsInv(s, ops[0]);
    if behind + 1 == MAX_BUFFER_SIZE && Buffers(s, ops[0]) {
      assert !Holds(Do(s, ops[0]).buffer, job);
      StaysAbsent(Do(s, ops[0]), ops[1..], job);
    } else {
      var next := BufferedStep(s, ops[0], job, e, behind);
      PushedOut(Do(s, ops[0]), ops[1..], job, e, next);
    }
  }

  // --------------------------------------------------------------------- no lost wakeup

  lemma JustRegistered(before: seq<Op>, job: string, h: Handler) returns (s: State)
    requires AllLeaveAlone(before, job)
    ensures s == Do(RunFrom(INIT, before), Register(job, h))
    ensures Inv(s) && job in s.callbacks && s.callbacks[job] == h && Seen(s.log, job) == []
  {
    Reachable(INIT, before);
    StaysAbsent(INIT, before, job);
    StepKeepsInv(RunFrom(INIT, before), Register(job, h));
    s := Do(RunFrom(INIT, before), Register(job, h));
  }

  lemma DeliveredLive(s: State, e: Event, h: Handler) returns (t: State)
    requires Inv(s) && Terminal(e) && e.job in s.callbacks && s.callbacks[e.job] == h
    ensures t == Do(s, Route(e)) && Inv(t) && Absent(t, e.job)
    ensures Seen(t.log, e.job) == Seen(s.log, e.job) + [Delivery(h, e)]
  {
    t := Do(s, Route(e));
    StepKeepsInv(s, Route(e));
    SeenAppend(s.log, Delivery(h, e), e.job);
  }

  lemma Replayed(s: State, e: Event, behind: nat, h: Handler) returns (t: State)
    requires Inv(s) && Terminal(e) && OneEntry(s, e.job, e, behind)
    ensures t == Do(s, Register(e.job, h)) && Inv(t) && Absent(t, e.job)
    ensures Seen(t.log, e.job) == Seen(s.log, e.job) + [Delivery(h, e)]
  {
    t := Do(s, Register(e.job, h));
    StepKeepsInv(s, Register(e.job, h));
    var i := FirstIndex(s.buffer, e.job);
    assert s.buffer[|s.buffer| - 1 - behind].jobId == e.job;
    SeenAppend(s.log, Delivery(h, e), e.job);
  }

  /** Registered first: the handler sees the progress events in between, then the
      terminal event once, then nothing. */
  lemma RegisteredFirst(before: seq<Op>, h: Handler, between: seq<Op>, e: Event, after: seq<Op>)
    requires Terminal(e)
    requires AllLeaveAlone(before, e.job) && AllLeaveAlone(between, e.job) && AllLeaveAlone(after, e.job)
    requires NoStop(between)
    ensures Seen(RunFrom(INIT, before + [Register(e.job, h)] + between + [Route(e)] + after).log, e.job)
         == ProgressSeen(between, e.job, h) + [Delivery(h, e)]
  {
    var s := JustRegistered(before, e.job, h);
    RegisteredSees(s, h, between, e, after);
    FiveParts(before, Register(e.job, h), between, Route(e), after);
  }

  /** From a state in which the handler is registered. */
  lemma RegisteredSees(s: State, h: Handler, between: seq<Op>, e: Event, after: seq<Op>)
    requires Terminal(e) && AllLeaveAlone(between, e.job) && AllLeaveAlone(after, e.job) && NoStop(between)
    requires Inv(s) && e.job in s.callbacks && s.callbacks[e.job] == h && Seen(s.log, e.job) == []
    ensures Seen(RunFrom(Do(RunFrom(s, between), Route(e)), after).log, e.job)
         == ProgressSeen(between, e.job, h) + [Delivery(h, e)]
  {
    Reachable(s, between);
    StaysRegistered(s, between, e.job, h);
    LastSeen(RunFrom(s, between), h, e, after);
  }

  /** The terminal event, and nothing after it. */
  lemma LastSeen(s: State, h: Handler, e: Event, after: seq<Op>)
    requires Terminal(e) && AllLeaveAlone(after, e.job)
    requires Inv(s) && e.job in s.callbacks && s.callbacks[e.job] == h
    ensures Seen(RunFrom(Do(s, Route(e)), after).log, e.job) == Seen(s.log, e.job) + [Delivery(h, e)]
  {
    var t := DeliveredLive(s, e, h);
    StaysAbsent(t, after, e.job);
  }

  lemma FiveParts(a: seq<Op>, x: Op, b: seq<Op>, y: Op, c: seq<Op>)
    ensures RunFrom(INIT, a + [x] + b + [y] + c)
         == RunFrom(Do(RunFrom(Do(RunFrom(INIT, a), x), b), y), c)
  {
    RunFromConcat(INIT, a + [x] + b + [y], c);
    RunFromConcat(INIT, a + [x] + b, [y]);
    RunFromConcat(INIT, a + [x], b);
    RunFromConcat(INIT, a, [x]);
    assert [x][1..] == [] && [y][1..] == [];
  }

  /** The state in which a terminal event that no handler waits for has just come in. */
  lemma JustBuffered(before: seq<Op>, e: Event) returns (s: State)
    requires Terminal(e) && AllLeaveAlone(before, e.job)
    ensures s == Do(RunFrom(INIT, before), Route(e))
    ensures Inv(s) && OneEntry(s, e.job, e, 0) && Seen(s.log, e.job) == []
  {
    Reachable(INIT, before);
    StaysAbsent(INIT, before, e.job);
    StepKeepsInv(RunFrom(INIT, before), Route(e));
    s := Do(RunFrom(INIT, before), Route(e));
  }

  /** Terminal event first: as long as fewer than 64 events are buffered before the
      registration, the handler sees it once, and nothing else before or after. */
  lemma TerminalFirst(before: seq<Op>, e: Event, between: seq<Op>, h: Handler, after: seq<Op>)
    requires Terminal(e)
    requires AllLeaveAlone(before, e.job) && AllLeaveAlone(between, e.job) && AllLeaveAlone(after, e.job)
    requires NoStop(between)
    requires BufferedDuring(Do(RunFrom(INIT, before), Route(e)), between) < 64
    ensures Seen(RunFrom(INIT, before + [Route(e)] + between + [Register(e.job, h)] + after).log, e.job)
         == [Delivery(h, e)]
  {
    var s := JustBuffered(before, e);
    var behind := StaysBuffered(s, between, e.job, e, 0);
    Reachable(s, between);
    var t := Replayed(RunFrom(s, between), e, behind, h);
    StaysAbsent(t, after, e.job);
    FiveParts(before, Route(e), between, Register(e.job, h), after);
  }

  lemma {:induction false} SeenInLog(log: seq<Delivery>, job: string)
    ensures forall d :: d in Seen(log, job) <==> d in log && !d.event.Unknown? && d.event.job == job
  {
    if log != [] {
      SeenInLog(log[..|log| - 1], job);
      assert log == log[..|log| - 1] + [log[|log| - 1]];
    }
  }

  lemma NotSeenInStep(s: State, op: Op, h: Handler, e: Event)
    requires Inv(s) && Terminal(e) && !Holds(s.buffer, e.job) && LeavesAlone(op, e.job)
    ensures !Holds(Do(s, op).buffer, e.job)
    ensures Delivery(h, e) in Do(s, op).log ==> Delivery(h, e) in s.log
  {
    if op.Unregister? {
      StillNotHeld(s.buffer, op.job, e.job);
    }
  }

  /** A terminal event that is not in the buffer and does not come again is not seen. */
  lemma {:induction false} NeverSeen(s: State, ops: seq<Op>, h: Handler, e: Event)
    requires Inv(s) && Terminal(e) && !Holds(s.buffer, e.job) && AllLeaveAlone(ops, e.job)
    ensures Delivery(h, e) in RunFrom(s, ops).log ==> Delivery(h, e) in s.log
    decreases ops
  {
    if ops != [] {
      NotSeenInStep(s, ops[0], h, e);
      StepKeepsInv(s, ops[0]);
      NeverSeen(Do(s, ops[0]), ops[1..], h, e);
    }
  }

  /** The bound is exact: when nothing is taken out of the buffer meanwhile, the
      terminal event reaches the handler if and only if fewer than 64 were buffered. */
  lemma DeliveredIffFewerThan64(before: seq<Op>, e: Event, between: seq<Op>, h: Handler, after: seq<Op>)
    requires Terminal(e)
    requires AllLeaveAlone(before, e.job) && AllLeaveAlone(between, e.job) && AllLeaveAlone(after, e.job)
    requires NoStop(between) && NothingRemoved(Do(RunFrom(INIT, before), Route(e)), between)
    ensures Delivery(h, e) in RunFrom(INIT, before + [Route(e)] + between + [Register(e.job, h)] + after).log
       <==> BufferedDuring(Do(RunFrom(INIT, before), Route(e)), between) < 64
  {
    if BufferedDuring(Do(RunFrom(INIT, before), Route(e)), between) < MAX_BUFFER_SIZE {
      TerminalFirst(before, e, between, h, after);
      SeenInLog(RunFrom(INIT, before + [Route(e)] + between + [Register(e.job, h)] + after).log, e.job);
    } else {
      var s := JustBuffered(before, e);
      PushedOut(s, between, e.job, e, 0);
      Reachable(s, between);
      var s2 := RunFrom(s, between);
      SeenInLog(s2.log, e.job);
      assert Delivery(h, e) !in Seen(s2.log, e.job);
      StepKeepsInv(s2, Register(e.job, h));
      NeverSeen(Do(s2, Register(e.job, h)), after, h, e);
      FiveParts(before, Route(e), between, Register(e.job, h), after);
    }
  }

  // -------------------------------------------------------------- operation by operation

  /** The entries of one job, oldest first. */
  function OfJob(buffer: seq<Entry>, job: string): (r: seq<Entry>)
  {
    if buffer == [] then []
    else (if buffer[0].jobId == job then [buffer[0]] else []) + OfJob(buffer[1..], job)
  }

  lemma {:induction false} OfJobWithout(buffer: seq<Entry>, job: string, other: string)
    ensures OfJob(WithoutJob(buffer, job), other) == if other == job then [] else OfJob(buffer, other)
  {
    if buffer != [] {
      OfJobWithout(buffer[1..], job, other);
      var rest := WithoutJob(buffer[1..], job);
      if buffer[0].jobId == job {
        assert WithoutJob(buffer, job) == [] + rest == rest;
      } else {
        assert WithoutJob(buffer, job) == [buffer[0]] + rest;
        assert ([buffer[0]] + rest)[1..] == rest;
      }
    }
  }

  /** Registering: the oldest event kept for the job is handed over and goes from the
      buffer, and the handler is not kept; without one the handler is kept, and nothing is
      handed over. */
  lemma RegisterDoes(s: State, job: string, h: Handler, i: nat)
    ensures var r := Do(s, Register(job, h));
      && (i < |s.buffer| && s.buffer[i].jobId == job && (forall k | 0 <= k < i :: s.buffer[k].jobId != job) ==>
            && r.log == s.log + [Delivery(h, s.buffer[i].event)] && r.callbacks == s.callbacks
            && r.buffer == s.buffer[..i] + s.buffer[i + 1..])
      && ((forall k | 0 <= k < |s.buffer| :: s.buffer[k].jobId != job) ==>
            && job in r.callbacks && r.callbacks[job] == h && r.log == s.log && r.buffer == s.buffer
            && (forall j | j != job :: j in r.callbacks <==> j in s.callbacks)
            && (forall j | j != job && j in s.callbacks :: r.callbacks[j] == s.callbacks[j]))
  {
    var first := FirstIndex(s.buffer, job);
  }

  /** Unregistering: the job has neither a handler nor an event left, and the others have
      theirs. */
  lemma UnregisterDoes(s: State, job: string)
    ensures var r := Do(s, Unregister(job));
      && r.log == s.log && job !in r.callbacks
      && (forall j | j != job :: j in r.callbacks <==> j in s.callbacks)
      && (forall j | j != job && j in s.callbacks :: r.callbacks[j] == s.callbacks[j])
      && OfJob(r.buffer, job) == [] && (forall j | j != job :: OfJob(r.buffer, j) == OfJob(s.buffer, j))
  {
    forall j
      ensures OfJob(WithoutJob(s.buffer, job), j) == if j == job then [] else OfJob(s.buffer, j)
    {
      OfJobWithout(s.buffer, job, j);
    }
  }

  lemma StopDoes(s: State)
    ensures var r := Do(s, Stop); r.callbacks == map[] && r.buffer == [] && r.log == s.log
  {
  }

  /** Routing: an event goes to the handler of its job, which a done or failed job loses;
      without a handler the end of a job is kept, the oldest of 64 making room, and
      progress is dropped, like anything unknown. */
  lemma RouteDoes(s: State, e: Event)
    ensures var r := Do(s, Route(e));
      if e.Unknown? then r == s
      else if e.job in s.callbacks then
        && r.log == s.log + [Delivery(s.callbacks[e.job], e)] && r.buffer == s.buffer
        && r.callbacks == (if e.JobProgress? then s.callbacks else s.callbacks - {e.job})
      else
        && r.log == s.log && r.callbacks == s.callbacks
        && r.buffer == (if e.JobProgress? then s.buffer
                        else (if |s.buffer| >= 64 then s.buffer[1..] else s.buffer) + [Entry(e.job, e)])
  {
  }

  predicate RegistersNot(ops: seq<Op>, job: string)
  {
    forall i | 0 <= i < |ops| :: !(ops[i].Register? && ops[i].job == job)
  }

  /** An unregistered handler is silent: whatever comes, nothing of its job is delivered
      until someone registers for it again. */
  lemma UnregisteredIsSilent(before: seq<Op>, job: string, after: seq<Op>)
    requires RegistersNot(after, job)
    ensures Seen(RunFrom(INIT, before + [Unregister(job)] + after).log, job) == Seen(RunFrom(INIT, before).log, job)
  {
    var s := RunFrom(INIT, before);
    Reachable(INIT, before);
    StepKeepsInv(s, Unregister(job));
    UnregisterDoes(s, job);
    SilentWithout(Do(s, Unregister(job)), after, job);
    RunFromConcat(INIT, before + [Unregister(job)], after);
    RunFromConcat(INIT, before, [Unregister(job)]);
    assert [Unregister(job)][1..] == [];
  }

  lemma {:induction false} SilentWithout(s: State, ops: seq<Op>, job: string)
    requires Inv(s) && job !in s.callbacks && RegistersNot(ops, job)
    ensures Seen(RunFrom(s, ops).log, job) == Seen(s.log, job)
    decreases ops
  {
    if ops != [] {
      SilentStep(s, ops[0], job);
      StepKeepsInv(s, ops[0]);
      SilentWithout(Do(s, ops[0]), ops[1..], job);
    }
  }

  lemma SilentStep(s: State, op: Op, job: string)
    requires Inv(s) && job !in s.callbacks && !(op.Register? && op.job == job)
    ensures job !in Do(s, op).callbacks && Seen(Do(s, op).log, job) == Seen(s.log, job)
  {
    match op
    case Register(j, h) =>
      var i := FirstIndex(s.buffer, j);
      if i < |s.buffer| {
        SeenAppend(s.log, Delivery(h, s.buffer[i].event), job);
      }
    case Unregister(j) =>
    case Stop =>
    case Route(e) =>
      if !e.Unknown? && e.job in s.callbacks {
        SeenAppend(s.log, Delivery(s.callbacks[e.job], e), job);
      }
  }
}
