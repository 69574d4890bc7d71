/** Request and response over a pipe, `foundation_llm.rs`. */
module SidecarRpc {
  import opened Numbers
  import opened Options

  const NEWLINE: byte := 10
  const MAX_RESPONSE_BYTES: nat := 16 * 1024 * 1024

  /** What the next read of the child's stdout meets. When the events run out the
      child stays silent until the deadline. */
  datatype ReadEvent = Chunk(bytes: seq<byte>) | Interrupted | Eof | TimedOut | IoError

  datatype ReadError = Timeout | Broken

  datatype ReadResult = Bytes(buf: seq<byte>) | ReadFailed(error: ReadError)

  /** All bytes that a list of events delivers. */
  function Delivered(events: seq<ReadEvent>): (s: seq<byte>)
  {
    if events == [] then []
    else (if events[0].Chunk? then events[0].bytes else []) + Delivered(events[1..])
  }

  lemma {:induction false} DeliveredConcat(a: seq<ReadEvent>, b: seq<ReadEvent>)
    ensures Delivered(a + b) == Delivered(a) + Delivered(b)
  {
    if a == [] {
      assert a + b == b;
    } else {
      assert (a + b)[1..] == a[1..] + b;
      DeliveredConcat(a[1..], b);
    }
  }

  /** The child is still there and in time. */
  predicate Open(e: ReadEvent)
  {
    e.Chunk? || e.Interrupted?
  }

  /** Reading went on until the events ran out, or until one that ends it. */
  predicate Ended(events: seq<ReadEvent>, used: nat, r: ReadResult, read: seq<byte>)
    requires used <= |events|
  {
    if forall i | 0 <= i < used :: Open(events[i]) then used == |events| && r == ReadFailed(Timeout)
    else
      && (forall i | 0 <= i < used - 1 :: Open(events[i])) && !Open(events[used - 1])
      && (events[used - 1].Eof? ==> r == Bytes(read))
      && (events[used - 1].TimedOut? ==> r == ReadFailed(Timeout))
      && (events[used - 1].IoError? ==> r == ReadFailed(Broken))
  }

  predicate NewlineFree(s: seq<byte>)
  {
    forall i | 0 <= i < |s| :: s[i] != NEWLINE
  }

  predicate IsLine(s: seq<byte>)
  {
    s != [] && s[|s| - 1] == NEWLINE && NewlineFree(s[..|s| - 1])
  }

  /** Position of the first newline. */
  method FindNewline(s: seq<byte>) returns (pos: Option<nat>)
    ensures pos.Some? ==> pos.value < |s| && s[pos.value] == NEWLINE && NewlineFree(s[..pos.value])
    ensures pos.None? ==> NewlineFree(s)
  {
    for i := 0 to |s|
      invariant NewlineFree(s[..i])
    {
      if s[i] == NEWLINE {
        return Some(i);
      }
      assert s[..i + 1] == s[..i] + [s[i]];
    }
    assert s[..|s|] == s;
    pos := None;
  }

  lemma OneMoreEvent(buffered: seq<byte>, events: seq<ReadEvent>, used: nat)
    requires used < |events|
    ensures buffered + Delivered(events[..used + 1])
         == buffered + Delivered(events[..used]) + (if events[used].Chunk? then events[used].bytes else [])
  {
    var e := events[used];
    assert events[..used + 1] == events[..used] + [e];
    DeliveredConcat(events[..used], [e]);
    assert [e][1..] == [] && (e.Chunk? ==> e.bytes + [] == e.bytes);
  }

  /** Moving the bytes up to the newline, or all of them, behind what was read. */
  lemma TakenFromBuffer(buf: seq<byte>, buffered: seq<byte>, pos: Option<nat>)
    requires NewlineFree(buf)
    requires pos.Some? ==>
               pos.value < |buffered| && buffered[pos.value] == NEWLINE && NewlineFree(buffered[..pos.value])
    requires pos.None? ==> NewlineFree(buffered)
    ensures var consumed := if pos.Some? then pos.value + 1 else |buffered|;
      var after := buf + buffered[..consumed];
      && buf + buffered == after + buffered[consumed..]
      && (pos.Some? ==> IsLine(after))
      && (pos.None? ==> NewlineFree(after))
  {
    if pos.Some? {
      var after := buf + buffered[..pos.value + 1];
      assert after[..|after| - 1] == buf + buffered[..pos.value];
    }
  }

  /** No byte is lost or invented: what the reader had buffered and what `used` events
      delivered is what it read and what it keeps. It stops at a line, at the size, or
      with everything read at the event that ends the reading. */
  predicate ReaderDid(buffered0: seq<byte>, events: seq<ReadEvent>, r: ReadResult, buffered: seq<byte>, used: nat,
                      read: seq<byte>)
  {
    && used <= |events| && buffered0 + Delivered(events[..used]) == read + buffered
    && (r.Bytes? ==> r.buf == read)
    && if NewlineFree(read) && |read| < MAX_RESPONSE_BYTES then buffered == [] && Ended(events, used, r, read)
       else r.Bytes? && (IsLine(read) || NewlineFree(read)) && forall i | 0 <= i < used :: Open(events[i])
  }

  lemma ReaderEnds(buffered0: seq<byte>, events: seq<ReadEvent>, used: nat, buf: seq<byte>)
    requires used <= |events| && buffered0 + Delivered(events[..used]) == buf
    requires NewlineFree(buf) && |buf| < MAX_RESPONSE_BYTES && forall i | 0 <= i < used :: Open(events[i])
    ensures used == |events| ==> ReaderDid(buffered0, events, ReadFailed(Timeout), [], used, buf)
    ensures used < |events| && events[used].Eof? ==> ReaderDid(buffered0, events, Bytes(buf), [], used + 1, buf)
    ensures used < |events| && events[used].TimedOut? ==>
              ReaderDid(buffered0, events, ReadFailed(Timeout), [], used + 1, buf)
    ensures used < |events| && events[used].IoError? ==>
              ReaderDid(buffered0, events, ReadFailed(Broken), [], used + 1, buf)
  {
    assert buf + [] == buf;
    if used < |events| {
      OneMoreEvent(buffered0, events, used);
      assert buf + [] == buf;
    }
  }

  /** `read_response_line`: appends to `buf` until a newline, the size cap, the end
      of the stream or an error. A line feed, octet 10, can only be the last octet. */
  method ReadResponseLine(buffered0: seq<byte>, events: seq<ReadEvent>)
      returns (r: ReadResult, buffered: seq<byte>, used: nat, ghost read: seq<byte>)
    ensures ReaderDid(buffered0, events, r, buffered, used, read)
    ensures r.Bytes? && r.buf != [] && r.buf[|r.buf| - 1] == 10 ==> IsLine(r.buf)
    ensures r.Bytes? && r.buf != [] && r.buf[|r.buf| - 1] != 10 ==> NewlineFree(r.buf)
    ensures r.Bytes? ==> forall i | 0 <= i < |r.buf| - 1 :: r.buf[i] != 10
  {
    buffered := buffered0;
    used := 0;
    var buf: seq<byte> := [];
    assert events[..0] == [];
    while true
      invariant used <= |events|
      invariant buffered0 + Delivered(events[..used]) == buf + buffered
      invariant NewlineFree(buf) && |buf| < MAX_RESPONSE_BYTES
      invariant forall i | 0 <= i < used :: Open(events[i])
      decreases |events| - used, |buffered|
    {
      if |buffered| == 0 {
        assert buf + buffered == buf;
        ReaderEnds(buffered0, events, used, buf);
        if used == |events| {
          return ReadFailed(Timeout), buffered, used, buf;
        }
        var e := events[used];
        OneMoreEvent(buffered0, events, used);
        used := used + 1;
        match e {
          case Chunk(bytes) => buffered := bytes;
          case Interrupted => continue;
          case Eof => return Bytes(buf), buffered, used, buf;
          case TimedOut => return ReadFailed(Timeout), buffered, used, buf;
          case IoError => return ReadFailed(Broken), buffered, used, buf;
        }
      } else {
        var pos := FindNewline(buffered);
        var consumed := if pos.Some? then pos.value + 1 else |buffered|;
        TakenFromBuffer(buf, buffered, pos);
        buf := buf + buffered[..consumed];
        buffered := buffered[consumed..];
        if |buf| >= MAX_RESPONSE_BYTES {
          return Bytes(buf), buffered, used, buf;
        }
        if buf[|buf| - 1] == NEWLINE {
          return Bytes(buf), buffered, used, buf;
        }
      }
    }
  }

  // ------------------------------------------------------------------ the adapter

  /** A decoded response line. */
  datatype Response = NotUtf8 | BadJson | Response(id: Option<nat>, error: Option<int>, result: Option<string>)

  datatype Outcome =
    | Answer(value: string)
    | RemoteError(code: int)
    | MissingResult
    | SpawnFailed | EncodeFailed | WriteFailed | TimedOutReading | ReadBroken
    | ExitedSilently | Oversized | Truncated | LineNotUtf8 | LineNotJson
    | IdMismatch | NullId

  /** What a call makes of the response that carries its own id. */
  function OwnOutcome(response: Response): (o: Outcome)
    requires response.Response?
  {
    if response.error.Some? then RemoteError(response.error.value)
    else if response.result.Some? then Answer(response.result.value)
    else MissingResult
  }

  // -------------------------------------------------------------- the child's side

  /** How the pipe behaves while one call reads: `Deliver` hands over the next bytes
      that the child has printed. */
  datatype Step = Deliver(n: nat) | Interrupt | Close | Stall | Break

  /** Everything outside the adapter's control during one call. */
  datatype Call = Call(spawnOk: bool, encodeOk: bool, writeOk: bool, steps: seq<Step>)

  /** What the reads of one call meet when `pipe` is all that the child has printed. */
  function Offer(pipe: seq<byte>, steps: seq<Step>): (events: seq<ReadEvent>)
  {
    if steps == [] then [] else
    match steps[0]
    case Deliver(n) =>
      var k := if n <= |pipe| then n else |pipe|;
      [Chunk(pipe[..k])] + Offer(pipe[k..], steps[1..])
    case Interrupt => [Interrupted] + Offer(pipe, steps[1..])
    case Close => [Eof] + Offer(pipe, steps[1..])
    case Stall => [TimedOut] + Offer(pipe, steps[1..])
    case Break => [IoError] + Offer(pipe, steps[1..])
  }

  lemma {:induction false} OfferIsPrefix(pipe: seq<byte>, steps: seq<Step>, n: nat)
    requires n <= |Offer(pipe, steps)|
    ensures Delivered(Offer(pipe, steps)[..n]) <= pipe
  {
    var events := Offer(pipe, steps);
    if n > 0 {
      assert events[..n][1..] == events[1..][..n - 1];
      match steps[0] {
        case Deliver(m) =>
          var k := if m <= |pipe| then m else |pipe|;
          OfferIsPrefix(pipe[k..], steps[1..], n - 1);
          PrefixAfter(pipe, k, Delivered(events[1..][..n - 1]));
        case _ =>
          OfferIsPrefix(pipe, steps[1..], n - 1);
      }
    }
  }

  lemma PrefixAfter(pipe: seq<byte>, k: nat, tail: seq<byte>)
    requires k <= |pipe| && tail <= pipe[k..]
    ensures pipe[..k] + tail <= pipe
  {
    assert pipe == pipe[..k] + pipe[k..];
  }

  // --------------------------------------------------- how far a call gets with its steps

  predicate Ends(step: Step)
  {
    step.Close? || step.Stall? || step.Break?
  }

  /** The steps before the first that ends the reading. */
  function Lead(steps: seq<Step>): (n: nat)
    ensures n <= |steps|
    ensures forall i | 0 <= i < n :: !Ends(steps[i])
    ensures n < |steps| ==> Ends(steps[n])
  {
    if steps == [] || Ends(steps[0]) then 0 else 1 + Lead(steps[1..])
  }

  /** The bytes that those steps ask to be handed over. */
  function Carried(steps: seq<Step>): (n: nat)
  {
    if steps == [] || Ends(steps[0]) then 0
    else (if steps[0].Deliver? then steps[0].n else 0) + Carried(steps[1..])
  }

  lemma OfferSize(pipe: seq<byte>, steps: seq<Step>)
    ensures |Offer(pipe, steps)| == |steps|
  {
  }

  lemma {:induction false} OfferLeads(pipe: seq<byte>, steps: seq<Step>)
    ensures |Offer(pipe, steps)| == |steps|
    ensures Delivered(Offer(pipe, steps)[..Lead(steps)]) == pipe[..Min(Carried(steps), |pipe|)]
    ensures forall i | 0 <= i < Lead(steps) :: Open(Offer(pipe, steps)[i])
    ensures Lead(steps) < |steps| ==> EndsAs(Offer(pipe, steps)[Lead(steps)], steps[Lead(steps)])
  {
    OfferSize(pipe, steps);
    if steps != [] && !Ends(steps[0]) {
      var k := if steps[0].Deliver? then Min(steps[0].n, |pipe|) else 0;
      OfferLeads(pipe[k..], steps[1..]);
      OfferSplit(pipe, steps, k);
      assert Min(Carried(steps), |pipe|) == Min(k + Carried(steps[1..]), |pipe|);
      LeadSplit(Offer(pipe, steps), Lead(steps[1..]));
      OfferedOnce(pipe, k, Carried(steps[1..]));
    }
  }

  /** The first step that goes on, and what the others are offered. */
  lemma OfferSplit(pipe: seq<byte>, steps: seq<Step>, k: nat)
    requires steps != [] && !Ends(steps[0]) && k == if steps[0].Deliver? then Min(steps[0].n, |pipe|) else 0
    ensures var events := Offer(pipe, steps);
      && events != [] && events[1..] == Offer(pipe[k..], steps[1..]) && Open(events[0])
      && Delivered([events[0]]) == pipe[..k]
  {
    assert pipe[0..] == pipe;
    DeliveredOne(Offer(pipe, steps)[0]);
  }

  lemma DeliveredOne(event: ReadEvent)
    ensures Delivered([event]) == if event.Chunk? then event.bytes else []
  {
    assert [event][1..] == [];
  }

  lemma LeadSplit(events: seq<ReadEvent>, m: nat)
    requires 1 + m <= |events|
    ensures Delivered(events[..1 + m]) == Delivered([events[0]]) + Delivered(events[1..][..m])
  {
    assert events[..1 + m] == [events[0]] + events[1..][..m];
    DeliveredConcat([events[0]], events[1..][..m]);
  }

  lemma OfferedOnce(pipe: seq<byte>, k: nat, more: nat)
    requires k <= |pipe|
    ensures pipe[..k] + pipe[k..][..Min(more, |pipe| - k)] == pipe[..Min(k + more, |pipe|)]
  {
  }

  predicate EndsAs(e: ReadEvent, step: Step)
  {
    (e.Eof? && step.Close?) || (e.TimedOut? && step.Stall?) || (e.IoError? && step.Break?)
  }

  lemma EarlierStays(buffered: seq<byte>, events: seq<ReadEvent>, m: nat, n: nat)
    requires m <= n <= |events|
    ensures buffered + Delivered(events[..m]) <= buffered + Delivered(events[..n])
  {
    assert events[..n] == events[..m] + events[m..n];
    DeliveredConcat(events[..m], events[m..n]);
  }

  lemma NothingAtTheEnd(events: seq<ReadEvent>, n: nat)
    requires n < |events| && !Open(events[n])
    ensures Delivered(events[..n + 1]) == Delivered(events[..n])
  {
    assert events[..n + 1] == events[..n] + [events[n]];
    DeliveredConcat(events[..n], [events[n]]);
    assert [events[n]][1..] == [];
  }

  /** What the reader returns, from all that the events hand over before they end. */
  lemma ReadDecides(buffered0: seq<byte>, events: seq<ReadEvent>, lead: nat, r: ReadResult, buffered: seq<byte>,
                    used: nat, read: seq<byte>)
    requires ReaderDid(buffered0, events, r, buffered, used, read)
    requires lead <= |events| && (forall i | 0 <= i < lead :: Open(events[i]))
    requires lead < |events| ==> !Open(events[lead])
    ensures var have := buffered0 + Delivered(events[..lead]);
      if NewlineFree(read) && |read| < MAX_RESPONSE_BYTES then
        && read == have
        && (lead == |events| ==> r == ReadFailed(Timeout))
        && (lead < |events| && events[lead].Eof? ==> r == Bytes(read))
        && (lead < |events| && events[lead].TimedOut? ==> r == ReadFailed(Timeout))
        && (lead < |events| && events[lead].IoError? ==> r == ReadFailed(Broken))
      else r == Bytes(read) && read <= have && (IsLine(read) || NewlineFree(read))
  {
    var have := buffered0 + Delivered(events[..lead]);
    if NewlineFree(read) && |read| < MAX_RESPONSE_BYTES {
      assert read + buffered == read;
      if forall i | 0 <= i < used :: Open(events[i]) {
        assert lead == used;
      } else {
        assert lead == used - 1;
        NothingAtTheEnd(events, lead);
      }
    } else {
      assert used <= lead;
      EarlierStays(buffered0, events, used, lead);
      assert read <= read + buffered;
    }
  }

  /** Of two beginnings of one text, a line in the longer one is in the shorter one or
      not yet ended there. */
  lemma LineInBeginning(read: seq<byte>, line: seq<byte>, have: seq<byte>)
    requires read <= have && line <= have && IsLine(line)
    ensures NewlineFree(read) ==> |read| < |line|
    ensures IsLine(read) ==> read == line
  {
    if |read| >= |line| {
      assert read[|line| - 1] == have[|line| - 1] == line[|line| - 1];
    }
    if IsLine(read) {
      assert have == read + have[|read|..] == line + have[|line|..];
      SameFirstLine(read, have[|read|..], line, have[|line|..]);
    }
  }

  function Joined(lines: seq<seq<byte>>): (s: seq<byte>)
  {
    if lines == [] then [] else lines[0] + Joined(lines[1..])
  }

  lemma {:induction false} JoinedAppend(lines: seq<seq<byte>>, line: seq<byte>)
    ensures Joined(lines + [line]) == Joined(lines) + line
  {
    if lines == [] {
      assert [line][1..] == [] && line + [] == line;
    } else {
      assert (lines + [line])[1..] == lines[1..] + [line];
      JoinedAppend(lines[1..], line);
    }
  }

  /** All that the child prints in answer to some requests. */
  function Printed(reply: nat -> seq<byte>, ids: seq<nat>): (r: seq<seq<byte>>)
    ensures |r| == |ids| && forall i | 0 <= i < |r| :: r[i] == reply(ids[i])
  {
    if ids == [] then [] else [reply(ids[0])] + Printed(reply, ids[1..])
  }

  lemma PrintedAppend(reply: nat -> seq<byte>, ids: seq<nat>, id: nat)
    ensures Printed(reply, ids + [id]) == Printed(reply, ids) + [reply(id)]
  {
  }

  /** The child owes nothing: for each request written to it one line was taken, and
      what it printed are those lines and what is left. */
  ghost predicate Settled(reply: nat -> seq<byte>, written: seq<nat>, consumed: seq<seq<byte>>, left: seq<byte>)
  {
    && |consumed| == |written|
    && (forall i | 0 <= i < |consumed| :: IsLine(consumed[i]))
    && Joined(consumed) + left == Joined(Printed(reply, written))
  }

  /** One request written, some bytes moved from the pipe to the reader, and one line
      taken by the reader. */
  lemma OneMoreLine(reply: nat -> seq<byte>, written: seq<nat>, consumed: seq<seq<byte>>, buffer: seq<byte>,
                    pipe: seq<byte>, id: nat, moved: seq<byte>, line: seq<byte>, buffer': seq<byte>, pipe': seq<byte>)
    requires Settled(reply, written, consumed, buffer + pipe) && IsLine(line)
    requires pipe + reply(id) == moved + pipe' && buffer + moved == line + buffer'
    ensures Settled(reply, written + [id], consumed + [line], buffer' + pipe')
  {
    PrintedAppend(reply, written, id);
    JoinedAppend(Printed(reply, written), reply(id));
    JoinedAppend(consumed, line);
    calc {
      Joined(consumed) + (buffer + pipe) + reply(id);
      Joined(consumed) + (buffer + (pipe + reply(id)));
      Joined(consumed) + ((buffer + moved) + pipe');
      Joined(consumed) + line + (buffer' + pipe');
    }
  }

  /** Two lines that begin one stream are the same line. */
  lemma SameFirstLine(a: seq<byte>, x: seq<byte>, b: seq<byte>, y: seq<byte>)
    requires IsLine(a) && IsLine(b) && a + x == b + y
    ensures a == b && x == y
  {
    LineNotLonger(a, x, b, y);
    LineNotLonger(b, y, a, x);
    assert a == (a + x)[..|a|] && b == (b + y)[..|b|];
    assert x == (a + x)[|a|..] && y == (b + y)[|b|..];
  }

  lemma LineNotLonger(a: seq<byte>, x: seq<byte>, b: seq<byte>, y: seq<byte>)
    requires IsLine(a) && IsLine(b) && a + x == b + y
    ensures |a| <= |b|
  {
    assert forall i | 0 <= i < |a| - 1 :: (a + x)[i] == a[..|a| - 1][i] != NEWLINE;
    assert (b + y)[|b| - 1] == NEWLINE;
  }

  /** As many lines taken as lines printed: they are the same lines, and nothing is left. */
  lemma {:induction false} SameLines(taken: seq<seq<byte>>, printed: seq<seq<byte>>, left: seq<byte>)
    requires |taken| == |printed| && Joined(taken) + left == Joined(printed)
    requires forall i | 0 <= i < |taken| :: IsLine(taken[i]) && IsLine(printed[i])
    ensures taken == printed && left == []
  {
    if taken != [] {
      assert Joined(taken) + left == taken[0] + (Joined(taken[1..]) + left);
      SameFirstLine(taken[0], Joined(taken[1..]) + left, printed[0], Joined(printed[1..]));
      SameLines(taken[1..], printed[1..], left);
      assert taken == [taken[0]] + taken[1..] && printed == [printed[0]] + printed[1..];
    }
  }

  /** A child that prints one line for each request and owes nothing has nothing left
      to say, and the last line taken is the answer to the last request. */
  lemma NothingLeft(reply: nat -> seq<byte>, written: seq<nat>, consumed: seq<seq<byte>>, left: seq<byte>)
    requires Settled(reply, written, consumed, left) && forall k: nat :: IsLine(reply(k))
    ensures left == [] && consumed == Printed(reply, written)
  {
    SameLines(consumed, Printed(reply, written), left);
  }

  // ------------------------------------------------------------------- by its cause

  /** What one exchange comes to. `have` is what the reader kept from before and what
      the steps hand over until one of them ends the reading. A line in it of at most
      16 MiB is the answer; without a line, the failure is that of the step that ends it,
      or the size. */
  ghost predicate Gets(kept: seq<byte>, pipe: seq<byte>, steps: seq<Step>, failure: Option<Outcome>, line: seq<byte>)
  {
    var have := kept + pipe[..Min(Carried(steps), |pipe|)];
    && (forall l | IsLine(l) && l <= have && |l| <= 16777216 :: failure == None && line == l)
    && (NewlineFree(have) && |have| >= 16777216 ==> failure == Some(Oversized))
    && (NewlineFree(have) && |have| < 16777216 ==>
          if Lead(steps) == |steps| || steps[Lead(steps)].Stall? then failure == Some(TimedOutReading)
          else if steps[Lead(steps)].Break? then failure == Some(ReadBroken)
          else failure == Some(if have == [] then ExitedSilently else Truncated))
  }

  function Kept(slot: Option<seq<byte>>): (s: seq<byte>)
  {
    if slot.Some? then slot.value else []
  }

  /** The reader went over this pipe with this result. */
  ghost predicate Reads(kept: seq<byte>, pipe: seq<byte>, steps: seq<Step>, r: ReadResult, read: seq<byte>)
  {
    exists used: nat, buffered :: ReaderDid(kept, Offer(pipe, steps), r, buffered, used, read)
  }

  lemma ReadsGets(kept: seq<byte>, pipe: seq<byte>, steps: seq<Step>, r: ReadResult, read: seq<byte>)
    requires Reads(kept, pipe, steps, r, read)
    ensures Gets(kept, pipe, steps, Verdict(r), read)
  {
    var events := Offer(pipe, steps);
    var used: nat, buffered :| ReaderDid(kept, events, r, buffered, used, read);
    OfferLeads(pipe, steps);
    ReadDecides(kept, events, Lead(steps), r, buffered, used, read);
    ExchangeGets(kept, pipe, steps, r, read);
  }

  /** How `Exchange` reads the result. */
  function Verdict(r: ReadResult): (failure: Option<Outcome>)
  {
    match r
    case ReadFailed(Timeout) => Some(TimedOutReading)
    case ReadFailed(Broken) => Some(ReadBroken)
    case Bytes(buf) =>
      if buf == [] then Some(ExitedSilently)
      else if buf[|buf| - 1] == NEWLINE then None
      else if |buf| >= MAX_RESPONSE_BYTES then Some(Oversized)
      else Some(Truncated)
  }

  lemma EndsInside(read: seq<byte>, have: seq<byte>)
    requires read <= have && NewlineFree(have)
    ensures !IsLine(read)
  {
    assert forall i | 0 <= i < |read| :: read[i] == have[i];
  }

  lemma ExchangeGets(kept: seq<byte>, pipe: seq<byte>, steps: seq<Step>, r: ReadResult, read: seq<byte>)
    requires var events, lead := Offer(pipe, steps), Lead(steps);
      var have := kept + pipe[..Min(Carried(steps), |pipe|)];
      && |events| == |steps| && (lead < |steps| ==> EndsAs(events[lead], steps[lead]))
      && (r.Bytes? ==> r.buf == read)
      && if NewlineFree(read) && |read| < MAX_RESPONSE_BYTES then
           && read == have
           && (lead == |events| ==> r == ReadFailed(Timeout))
           && (lead < |events| && events[lead].Eof? ==> r == Bytes(read))
           && (lead < |events| && events[lead].TimedOut? ==> r == ReadFailed(Timeout))
           && (lead < |events| && events[lead].IoError? ==> r == ReadFailed(Broken))
         else r == Bytes(read) && read <= have && (IsLine(read) || NewlineFree(read))
    ensures Gets(kept, pipe, steps, Verdict(r), read)
  {
    var have := kept + pipe[..Min(Carried(steps), |pipe|)];
    forall l | IsLine(l) && l <= have && |l| <= 16777216
      ensures Verdict(r) == None && read == l
    {
      LineInBeginning(read, l, have);
    }
    if NewlineFree(have) && !(NewlineFree(read) && |read| < MAX_RESPONSE_BYTES) {
      EndsInside(read, have);
    }
  }

  // -------------------------------------------------------------------- the client

  class Client {
    /** What the child prints in answer to a request, whatever that is. */
    const reply: nat -> seq<byte>

    /** The reader's buffer of the live child, if there is one. */
    var slot: Option<seq<byte>>
    var nextId: nat

    /** What the last child has printed and nobody has read. It is there as long as
        the child is, and a new child comes with a new pipe. */
    var pipe: seq<byte>

    /** History of the last child: ids written to it, lines taken from it. */
    ghost var written: seq<nat>
    ghost var consumed: seq<seq<byte>>

    constructor (reply: nat -> seq<byte>)
      ensures Idle() && slot == None && nextId == 1 && this.reply == reply
    {
      this.reply := reply;
      slot, nextId, pipe := None, 1, [];
      written, consumed := [], [];
    }

    /** Between calls a live child owes nothing, and its requests carry increasing ids. */
    ghost predicate Idle()
      reads this
    {
      slot.Some? ==>
        && Settled(reply, written, consumed, slot.value + pipe)
        && (forall i | 0 <= i < |written| :: written[i] < nextId)
        && (forall i, j | 0 <= i < j < |written| :: written[i] < written[j])
    }

    /** `ensure_spawned`. */
    method EnsureSpawned(ok: bool) returns (live: bool)
      requires Idle()
      modifies this
      ensures live == (old(slot).Some? || ok)
      ensures live <==> slot.Some?
      ensures Idle() && nextId == old(nextId)
      ensures old(slot).Some? ==>
                slot == old(slot) && pipe == old(pipe) && written == old(written) && consumed == old(consumed)
      ensures live && old(slot).None? ==> slot == Some([]) && pipe == [] && written == [] && consumed == []
    {
      if slot.Some? {
        return true;
      }
      if !ok {
        return false;
      }
      slot, pipe := Some([]), [];
      written, consumed := [], [];
      assert [] + slot.value + pipe == [];
      live := true;
    }

    /** The read through the buffer that outlives the call. */
    method ReadLine(steps: seq<Step>) returns (r: ReadResult, ghost moved: seq<byte>, ghost read: seq<byte>)
      requires slot.Some?
      modifies `slot, `pipe
      ensures slot.Some? && old(pipe) == moved + pipe && old(slot.value) + moved == read + slot.value
      ensures r.Bytes? ==> r.buf == read && (read != [] && read[|read| - 1] == NEWLINE ==> IsLine(read))
      ensures Reads(old(slot.value), old(pipe), steps, r, read)
    {
      var events := Offer(pipe, steps);
      var used, buffered;
      r, buffered, used, read := ReadResponseLine(slot.value, events);
      var taken := Delivered(events[..used]);
      moved := taken;
      OfferIsPrefix(pipe, steps, used);
      assert pipe == taken + pipe[|taken|..];
      slot, pipe := Some(buffered), pipe[|taken|..];
    }

    /** The write and read half of `send_request`: a whole line, or the slot is
        cleared and an outcome says why. The request counts as written even when the
        write fails, since the child may have received it. */
    method Exchange(id: nat, call: Call)
        returns (failure: Option<Outcome>, line: seq<byte>, ghost r: ReadResult, ghost read: seq<byte>)
      requires Idle() && slot.Some? && id < nextId && forall i | 0 <= i < |written| :: written[i] < id
      modifies this
      ensures nextId == old(nextId) && Idle()
      ensures written == old(written) + [id]
      ensures failure.Some? ==>
                slot == None && TransportFailure(failure.value) && failure.value !in {SpawnFailed, EncodeFailed}
      ensures failure.None? ==> slot.Some? && consumed == old(consumed) + [line]
      ensures failure.None? ==> Settled(reply, written, consumed, slot.value + pipe)
      ensures !call.writeOk ==> failure == Some(WriteFailed)
      ensures call.writeOk ==> Reads(old(slot.value), old(pipe) + reply(id), call.steps, r, read)
      ensures call.writeOk ==> failure == Verdict(r) && (failure.None? ==> line == read)
    {
      line, r, read := [], Bytes([]), [];
      ghost var before, unread := slot.value, pipe;
      written, pipe := written + [id], pipe + reply(id);
      if !call.writeOk {
        slot := None;
        return Some(WriteFailed), line, r, read;
      }
      ghost var moved;
      var result;
      result, moved, read := ReadLine(call.steps);
      r := result;
      if result.ReadFailed? {
        slot := None;
        return Some(if result.error.Timeout? then TimedOutReading else ReadBroken), line, r, read;
      }
      line := result.buf;
      if |line| == 0 {
        slot := None;
        return Some(ExitedSilently), line, r, read;
      }
      if line[|line| - 1] != NEWLINE {
        slot := None;
        return Some(if |line| >= MAX_RESPONSE_BYTES then Oversized else Truncated), line, r, read;
      }
      OneMoreLine(reply, old(written), consumed, before, unread, id, moved, line, slot.value, pipe);
      consumed := consumed + [line];
      failure := None;
    }

    /** `send_request`, against any child. The id is new; a value or a remote error
        comes from a line that carries that id; and afterwards a live child owes
        nothing. */
    method SendRequest(call: Call, decode: seq<byte> -> Response)
        returns (o: Outcome, id: nat, ghost line: seq<byte>, ghost left: seq<byte>, ghost r: ReadResult)
      requires Idle()
      modifies this
      ensures Idle()
      ensures old(slot).None? && !call.spawnOk <==> o == SpawnFailed
      ensures (old(slot).Some? || call.spawnOk) && !call.encodeOk <==> o == EncodeFailed
      ensures (old(slot).Some? || call.spawnOk) && call.encodeOk && !call.writeOk <==> o == WriteFailed
      ensures (old(slot).Some? || call.spawnOk) && call.encodeOk && call.writeOk ==>
                && Reads(Kept(old(slot)), (if old(slot).Some? then old(pipe) else []) + reply(id), call.steps, r, line)
                && (Verdict(r).Some? <==> TransportFailure(o)) && (Verdict(r).Some? ==> Verdict(r) == Some(o))
      ensures o.SpawnFailed? ==> slot == None && nextId == old(nextId)
      ensures !o.SpawnFailed? ==> id == old(nextId) && nextId == id + 1
      ensures TransportFailure(o) && !o.EncodeFailed? ==> slot == None
      ensures !TransportFailure(o) ==> o == Judge(decode(line), id) && Taken(id, line, left)
      ensures !TransportFailure(o) ==> (slot.Some? <==> o !in {LineNotJson, NullId, IdMismatch})
    {
      id, line, left, r := 0, [], [], Bytes([]);
      var live := EnsureSpawned(call.spawnOk);
      if !live {
        return SpawnFailed, id, line, left, r;
      }
      id := nextId;
      nextId := nextId + 1;
      if !call.encodeOk {
        return EncodeFailed, id, line, left, r;
      }
      o, line, left, r := Converse(id, call, decode);
    }

    /** The part of `send_request` with a live child and an encoded request. */
    method Converse(id: nat, call: Call, decode: seq<byte> -> Response)
        returns (o: Outcome, ghost line: seq<byte>, ghost left: seq<byte>, ghost r: ReadResult)
      requires Idle() && slot.Some? && id < nextId && forall i | 0 <= i < |written| :: written[i] < id
      modifies this
      ensures Idle() && nextId == old(nextId)
      ensures TransportFailure(o) ==> slot == None && o !in {SpawnFailed, EncodeFailed}
      ensures !call.writeOk <==> o == WriteFailed
      ensures call.writeOk ==> Reads(old(slot.value), old(pipe) + reply(id), call.steps, r, line)
      ensures call.writeOk ==>
                (Verdict(r).Some? <==> TransportFailure(o)) && (Verdict(r).Some? ==> Verdict(r) == Some(o))
      ensures !TransportFailure(o) ==> o == Judge(decode(line), id) && Taken(id, line, left)
      ensures !TransportFailure(o) ==> (slot.Some? <==> o !in {LineNotJson, NullId, IdMismatch})
    {
      var failure, taken;
      ghost var read;
      failure, taken, r, read := Exchange(id, call);
      line, left := read, [];
      if failure.Some? {
        return failure.value, line, left, r;
      }
      line := taken;
      left := slot.value + pipe;
      o := Decide(decode(taken), id);
    }

    /** The last request written is this one, the last line taken is this one, and the
        child owes nothing. */
    ghost predicate Taken(id: nat, line: seq<byte>, left: seq<byte>)
      reads this
    {
      && Settled(reply, written, consumed, left)
      && written != [] && written[|written| - 1] == id && consumed[|consumed| - 1] == line
    }

    /** The end of `send_request`: what the decoded line says, and whether the child
        can still be trusted. */
    method Decide(response: Response, id: nat) returns (o: Outcome)
      modifies `slot
      ensures o == Judge(response, id)
      ensures slot == if o in {LineNotJson, NullId, IdMismatch} then None else old(slot)
    {
      match response {
        case NotUtf8 =>
          o := LineNotUtf8;
        case BadJson =>
          slot := None;
          o := LineNotJson;
        case Response(rid, error, result) =>
          if rid.None? {
            slot := None;
            o := NullId;
          } else if rid.value != id {
            slot := None;
            o := IdMismatch;
          } else if error.Some? {
            o := RemoteError(error.value);
          } else if result.None? {
            o := MissingResult;
          } else {
            o := Answer(result.value);
          }
      }
    }
  }

  /** What a decoded line means for the call with this id: a value or a remote
      error only if the line carries the id. */
  function Judge(response: Response, id: nat): (o: Outcome)
    ensures o.Answer? || o.RemoteError? || o.MissingResult? <==> response.Response? && response.id == Some(id)
    ensures !TransportFailure(o)
  {
    match response
    case NotUtf8 => LineNotUtf8
    case BadJson => LineNotJson
    case Response(None, _, _) => NullId
    case Response(Some(rid), _, _) => if rid == id then OwnOutcome(response) else IdMismatch
  }

  /** Outcomes that only a lost or broken pipe, or a request never sent, explains. */
  predicate TransportFailure(o: Outcome)
  {
    o in {SpawnFailed, EncodeFailed, WriteFailed, TimedOutReading, ReadBroken, ExitedSilently, Oversized, Truncated}
  }

  // -------------------------------------------------------- an answering child

  /** A child that answers each request with one line carrying its id. */
  ghost predicate Answers(reply: nat -> seq<byte>, decode: seq<byte> -> Response)
  {
    forall k: nat :: IsLine(reply(k)) && decode(reply(k)).Response? && decode(reply(k)).id == Some(k)
  }

  /** The call is not held up before the read. */
  predicate GoesThrough(call: Call)
  {
    call.spawnOk && call.encodeOk && call.writeOk
  }

  /** The fields of a response that carries the id: an error, else a result, else neither. */
  predicate SaysWhat(response: Response, o: Outcome)
    requires response.Response?
  {
    if response.error.Some? then o == RemoteError(response.error.value)
    else if response.result.Some? then o == Answer(response.result.value)
    else o == MissingResult
  }

  /** The verdict on a decoded line, field by field. */
  lemma JudgeSays(response: Response, id: nat)
    ensures response.NotUtf8? ==> Judge(response, id) == LineNotUtf8
    ensures response.BadJson? ==> Judge(response, id) == LineNotJson
    ensures response.Response? && response.id == None ==> Judge(response, id) == NullId
    ensures response.Response? && response.id.Some? && response.id.value != id ==> Judge(response, id) == IdMismatch
    ensures response.Response? && response.id == Some(id) ==> SaysWhat(response, Judge(response, id))
  {
  }

  /** The failure of a read that ends before the line is complete. */
  predicate CutShort(steps: seq<Step>, o: Outcome)
  {
    if Lead(steps) == |steps| || steps[Lead(steps)].Stall? then o == TimedOutReading
    else if steps[Lead(steps)].Break? then o == ReadBroken
    else o == if Carried(steps) == 0 then ExitedSilently else Truncated
  }

  /** From the reader's result to the outcome, when the pipe held nothing but one line. */
  lemma OneLineGets(steps: seq<Step>, text: seq<byte>, r: ReadResult, read: seq<byte>)
    requires Reads([], text, steps, r, read) && IsLine(text) && |text| <= 16777216
    ensures Carried(steps) >= |text| ==> Verdict(r) == None && read == text
    ensures Carried(steps) < |text| ==> Verdict(r).Some? && CutShort(steps, Verdict(r).value)
  {
    ReadsGets([], text, steps, r, read);
    var have := [] + text[..Min(Carried(steps), |text|)];
    if Carried(steps) < |text| {
      assert forall i | 0 <= i < |have| :: have[i] == text[..|text| - 1][i];
    } else {
      assert have == text;
    }
  }

  /** One call to an answering child, new or left over from the calls before. It succeeds
      when the child is there, the request is written, and the steps hand over the whole
      line; and every way to fail has its own cause. */
  method Ask(client: Client, call: Call, decode: seq<byte> -> Response) returns (o: Outcome, id: nat)
    requires Answers(client.reply, decode) && client.Idle()
    modifies client
    ensures client.Idle()
    ensures TransportFailure(o) || o == OwnOutcome(decode(client.reply(id)))
    ensures client.slot.Some? ==> client.slot.value == [] && client.pipe == []
    ensures old(client.slot).None? && !call.spawnOk <==> o == SpawnFailed
    ensures (old(client.slot).Some? || call.spawnOk) && !call.encodeOk <==> o == EncodeFailed
    ensures (old(client.slot).Some? || call.spawnOk) && call.encodeOk && !call.writeOk <==> o == WriteFailed
    ensures (old(client.slot).Some? || call.spawnOk) && call.encodeOk && call.writeOk ==>
              |client.reply(id)| <= 16777216 ==>
                if Carried(call.steps) >= |client.reply(id)| then
                  client.slot.Some? && SaysWhat(decode(client.reply(id)), o)
                else client.slot.None? && CutShort(call.steps, o)
    ensures o.SpawnFailed? ==> client.nextId == old(client.nextId)
    ensures !o.SpawnFailed? ==> id == old(client.nextId) && client.nextId == id + 1
  {
    ghost var line, left, r;
    if client.slot.Some? {
      NothingLeft(client.reply, client.written, client.consumed, client.slot.value + client.pipe);
    }
    ghost var there := client.slot.Some? || call.spawnOk;
    o, id, line, left, r := client.SendRequest(call, decode);
    if !TransportFailure(o) {
      NothingLeft(client.reply, client.written, client.consumed, left);
      JudgeSays(decode(line), id);
    }
    if there && call.encodeOk && call.writeOk && |client.reply(id)| <= 16777216 {
      assert [] + client.reply(id) == client.reply(id);
      OneLineGets(call.steps, client.reply(id), r, line);
    }
    if client.slot.Some? {
      NothingLeft(client.reply, client.written, client.consumed, client.slot.value + client.pipe);
    }
  }

  /** Every run against answering children, with any timeouts, crashes, cuts and
      respawns, late answers included: each call fails in transport or returns the
      child's answer to its own request, the ids never repeat, and a mismatched, null
      or undecodable line is never met. */
  method Run(calls: seq<Call>, reply: nat -> seq<byte>, decode: seq<byte> -> Response)
      returns (outcomes: seq<Outcome>, ids: seq<nat>)
    requires Answers(reply, decode)
    ensures |outcomes| == |ids| == |calls|
    ensures forall i | 0 <= i < |calls| ::
              TransportFailure(outcomes[i]) || outcomes[i] == OwnOutcome(decode(reply(ids[i])))
    ensures forall i, j | 0 <= i < j < |calls| && !outcomes[i].SpawnFailed? && !outcomes[j].SpawnFailed? ::
              ids[i] < ids[j]
    ensures forall i | 0 <= i < |calls| && GoesThrough(calls[i]) && |reply(ids[i])| <= 16777216 ::
              if Carried(calls[i].steps) >= |reply(ids[i])| then SaysWhat(decode(reply(ids[i])), outcomes[i])
              else CutShort(calls[i].steps, outcomes[i])
  {
    var client := new Client(reply);
    outcomes, ids := [], [];
    for n := 0 to |calls|
      invariant fresh(client) && client.Idle() && client.reply == reply
      invariant |outcomes| == |ids| == n
      invariant forall i | 0 <= i < n ::
                  TransportFailure(outcomes[i]) || outcomes[i] == OwnOutcome(decode(reply(ids[i])))
      invariant forall i | 0 <= i < n && !outcomes[i].SpawnFailed? :: ids[i] < client.nextId
      invariant forall i, j | 0 <= i < j < n && !outcomes[i].SpawnFailed? && !outcomes[j].SpawnFailed? ::
                  ids[i] < ids[j]
      invariant forall i | 0 <= i < n && GoesThrough(calls[i]) && |reply(ids[i])| <= 16777216 ::
                  if Carried(calls[i].steps) >= |reply(ids[i])| then SaysWhat(decode(reply(ids[i])), outcomes[i])
                  else CutShort(calls[i].steps, outcomes[i])
    {
      var o, id := Ask(client, calls[n], decode);
      outcomes, ids := outcomes + [o], ids + [id];
    }
  }
}
