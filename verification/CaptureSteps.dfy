/** What each step of the capture session does, field by field. */
module CaptureSteps {
  import opened Options
  import opened CaptureSession

  /** The threads other than `t` are where they were. */
  ghost predicate OtherThreads(s: State, q: State, t: Tid)
  {
    forall u | u != t :: (u in q.threads <==> u in s.threads) && (u in s.threads ==> q.threads[u] == s.threads[u])
  }

  /** The call of `t` is over, and its locks are free. */
  ghost predicate CallOver(s: State, q: State, t: Tid)
  {
    && t !in q.threads && OtherThreads(s, q, t)
    && q.stateLock == (if s.stateLock == Some(t) then None else s.stateLock)
    && q.sessionsLock == (if s.sessionsLock == Some(t) then None else s.sessionsLock)
  }

  // ------------------------------------------------------------------- the sidecar

  /** A start: refused while a session lasts or when the recorder does not start; granted,
      it opens the session and one recorder runs more. */
  lemma StartServed(c: Sidecar, m: string, fate: RecorderFate)
    requires c.inbox == Some(Start(m))
    ensures var d := Serve(c, fate);
      && d.alive == c.alive && d.inbox == None
      && (c.current.Some? || fate != Obeys ==>
            d.outbox == Some(false) && d.current == c.current && d.running == c.running)
      && (c.current.None? && fate == Obeys ==>
            && d.outbox == Some(true) && d.current == Some(m)
            && forall x :: d.running[x] == c.running[x] + (if x == m then 1 else 0))
  {
  }

  /** A stop: refused for anything but the session's meeting; otherwise the session is over,
      with success when the recorder obeys, and its recorder runs on only when it throws
      with the stream still on. */
  lemma StopServed(c: Sidecar, m: string, fate: RecorderFate)
    requires c.inbox == Some(Stop(m)) && (c.current.Some? ==> c.current.value in c.running)
    ensures var d := Serve(c, fate);
      && d.alive == c.alive && d.inbox == None
      && (c.current != Some(m) ==> d.outbox == Some(false) && d.current == c.current && d.running == c.running)
      && (c.current == Some(m) ==>
            && d.current == None && d.outbox == Some(fate == Obeys)
            && forall x :: d.running[x] == c.running[x] - (if x == m && fate != Throws then 1 else 0))
  {
  }

  lemma HandleDoes(s: State, fate: RecorderFate)
    ensures var q := Do(s, Handle(fate));
      && q.sessions == s.sessions && q.threads == s.threads && q.stateLock == s.stateLock
      && q.sessionsLock == s.sessionsLock
      && (s.slot.Some? && s.slot.value.alive && s.slot.value.inbox.Some? ==> q.slot == Some(Serve(s.slot.value, fate)))
      && (s.slot.None? || !s.slot.value.alive || s.slot.value.inbox.None? ==> q.slot == s.slot)
  {
  }

  /** A child that dies has no session, no recorder and nothing on its pipes. */
  lemma DieDoes(s: State)
    ensures var q := Do(s, Die);
      && q.sessions == s.sessions && q.threads == s.threads && q.stateLock == s.stateLock
      && q.sessionsLock == s.sessionsLock && (s.slot.None? ==> q.slot == None)
      && (s.slot.Some? ==>
            && q.slot.Some? && !q.slot.value.alive && q.slot.value.current == None && q.slot.value.running == multiset{}
            && q.slot.value.inbox == None && q.slot.value.outbox == None)
  {
  }

  // ------------------------------------------------------------------- the adapter

  lemma CallsDo(s: State, t: Tid, m: string)
    requires t !in s.threads
    ensures Do(s, CallStart(t, m)) == s.(threads := s.threads[t := StartWaiting(m)])
    ensures Do(s, CallStop(t, m)) == s.(threads := s.threads[t := StopWaiting(m)])
  {
  }

  /** Sending, by a start that waits or a stop that has found its meeting: nothing happens
      while another call has the state lock. */
  lemma SendWaits(s: State, t: Tid, fate: SendFate)
    requires s.stateLock.Some?
    ensures Do(s, Send(t, fate)) == s
  {
  }

  /** The child that a send talks to: the one that is there, or a new one without a session. */
  predicate IsChild(s: State, c: Sidecar)
  {
    if s.slot.Some? then c == s.slot.value
    else c.alive && c.inbox == None && c.outbox == None && c.current == None && c.running == multiset{}
  }

  /** The child `d` is `c` with the request on its pipe, unless it is dead. */
  predicate Asked(c: Sidecar, d: Sidecar, request: Request)
  {
    && d.alive == c.alive && d.current == c.current && d.running == c.running
    && d.inbox == (if c.alive then Some(request) else c.inbox)
    && d.outbox == (if c.alive then None else c.outbox)
  }

  /** A send that goes through: the call takes the state lock, and the child, while it
      lives, has the request and no answer yet. */
  lemma SendDoes(s: State, t: Tid)
    requires t in s.threads && s.stateLock.None? && (s.threads[t].StartWaiting? || s.threads[t].StopChecked?)
    ensures var q, m := Do(s, Send(t, Sent)), s.threads[t].m;
      && q.stateLock == Some(t) && q.sessionsLock == s.sessionsLock && q.sessions == s.sessions
      && OtherThreads(s, q, t) && t in q.threads
      && q.threads[t] == (if s.threads[t].StartWaiting? then StartReading(m) else StopReading(m))
      && q.slot.Some?
      && exists c :: IsChild(s, c) && Asked(c, q.slot.value, if s.threads[t].StartWaiting? then Start(m) else Stop(m))
  {
    var c := if s.slot.Some? then s.slot.value else FRESH;
    assert IsChild(s, c);
    assert Asked(c, Do(s, Send(t, Sent)).slot.value,
                 if s.threads[t].StartWaiting? then Start(s.threads[t].m) else Stop(s.threads[t].m));
  }

  /** A send that fails ends the call: without a child when none can be started, with the
      child when the request cannot be encoded, and without it when it cannot be written. */
  lemma SendFails(s: State, t: Tid, fate: SendFate)
    requires t in s.threads && s.stateLock.None? && (s.threads[t].StartWaiting? || s.threads[t].StopChecked?)
    requires fate == EncodeFails || fate == WriteFails || (fate == SpawnFails && s.slot.None?)
    ensures var q := Do(s, Send(t, fate));
      && CallOver(s, q, t) && q.sessions == s.sessions
      && (fate == SpawnFails ==> q.slot == None) && (fate == WriteFails ==> q.slot == None)
      && (fate == EncodeFails ==> q.slot.Some? && IsChild(s, q.slot.value))
  {
  }

  /** An answer is read: yes lets the call go on without the state lock, no ends it. */
  lemma ReceiveDoes(s: State, t: Tid)
    requires t in s.threads && (s.threads[t].StartReading? || s.threads[t].StopReading?)
    requires s.slot.Some? && s.slot.value.outbox.Some?
    ensures var q, m := Do(s, Receive(t)), s.threads[t].m;
      && q.sessions == s.sessions && q.slot.Some? && q.slot.value.outbox == None
      && q.slot.value.alive == s.slot.value.alive && q.slot.value.inbox == s.slot.value.inbox
      && q.slot.value.current == s.slot.value.current && q.slot.value.running == s.slot.value.running
      && (!s.slot.value.outbox.value ==> CallOver(s, q, t))
      && (s.slot.value.outbox.value ==>
            && OtherThreads(s, q, t) && t in q.threads && q.stateLock == None && q.sessionsLock == s.sessionsLock
            && q.threads[t] == (if s.threads[t].StartReading? then StartReturned(m) else StopReturned(m)))
  {
  }

  /** A read that fails ends the call and gives up the child. */
  lemma ReadFailsDoes(s: State, t: Tid)
    requires t in s.threads && (s.threads[t].StartReading? || s.threads[t].StopReading?)
    ensures var q := Do(s, ReadFails(t)); CallOver(s, q, t) && q.slot == None && q.sessions == s.sessions
  {
  }

  /** A granted start enters the map once no one holds it. */
  lemma InsertDoes(s: State, t: Tid)
    requires t in s.threads && s.threads[t].StartReturned?
    ensures var q, m := Do(s, Insert(t)), s.threads[t].m;
      if s.sessionsLock.Some? then q == s
      else CallOver(s, q, t) && q.slot == s.slot && forall x :: x in q.sessions <==> x in s.sessions || x == m
  {
  }

  /** A stop looks its meeting up, once no one holds the map: it keeps the map when the
      meeting is there, and ends when it is not. */
  lemma CheckDoes(s: State, t: Tid)
    requires t in s.threads && s.threads[t].StopWaiting?
    ensures var q, m := Do(s, Check(t)), s.threads[t].m;
      if s.sessionsLock.Some? then q == s
      else if m in s.sessions then
        && q.sessionsLock == Some(t) && q.stateLock == s.stateLock && q.slot == s.slot && q.sessions == s.sessions
        && OtherThreads(s, q, t) && t in q.threads && q.threads[t] == StopChecked(m)
      else CallOver(s, q, t) && q.slot == s.slot && q.sessions == s.sessions
  {
  }

  /** A granted stop leaves the map. */
  lemma RemoveDoes(s: State, t: Tid)
    requires t in s.threads && s.threads[t].StopReturned?
    ensures var q, m := Do(s, Remove(t)), s.threads[t].m;
      CallOver(s, q, t) && q.slot == s.slot && forall x :: x in q.sessions <==> x in s.sessions && x != m
  {
  }

  /** Steps out of turn do nothing. */
  lemma OutOfTurn(s: State, t: Tid, fate: SendFate, m: string)
    ensures t in s.threads ==> Do(s, CallStart(t, m)) == s && Do(s, CallStop(t, m)) == s
    ensures t !in s.threads || !(s.threads[t].StartWaiting? || s.threads[t].StopChecked?) ==> Do(s, Send(t, fate)) == s
    ensures t !in s.threads || !(s.threads[t].StartReading? || s.threads[t].StopReading?) ==>
              Do(s, Receive(t)) == s && Do(s, ReadFails(t)) == s
    ensures s.slot.None? || s.slot.value.outbox.None? ==> Do(s, Receive(t)) == s
    ensures t !in s.threads || !s.threads[t].StartReturned? ==> Do(s, Insert(t)) == s
    ensures t !in s.threads || !s.threads[t].StopWaiting? ==> Do(s, Check(t)) == s
    ensures t !in s.threads || !s.threads[t].StopReturned? ==> Do(s, Remove(t)) == s
  {
  }

  /** From any state with no call in flight and no session: a start that goes well puts the
      meeting in the map and on record, and a stop that goes well takes it out of both. */
  lemma StartThenStop(steps: seq<Step>, t: Tid, m: string)
    requires Quiet(Run(steps))
    ensures var q := Run(steps + StartCall(t, m));
      && q.threads == map[] && m in q.sessions
      && q.slot.Some? && q.slot.value.current == Some(m) && m in q.slot.value.running
    ensures var q := Run(steps + StartCall(t, m) + StopCall(t, m, Obeys));
      && q.threads == map[] && m !in q.sessions && q.slot.Some? && q.slot.value.current == None
      && (forall x | x != m :: x in q.sessions <==> x in Run(steps).sessions)
  {
    StartRuns(steps, t, m);
    StopRuns(steps + StartCall(t, m), Run(steps), t, m, Obeys);
  }
}
