/** The incremental message reader of `IpcClient.swift`. */
module WsStream {
  import opened Numbers
  import opened Options
  import opened WsFrame

  // Fragments are reassembled from arbitrary chunks through a buffer that is carried from
  // call to call.

  // ------------------------------------------------- whole-stream reference

  /** A frame as the reader sees it. */
  datatype Received = Received(fin: bool, opcode: byte, payload: seq<byte>)

  datatype StreamEnd = Disconnected | LengthError

  datatype Split = Split(frames: seq<Received>, end: StreamEnd)

  /** A complete frame stands at the front of `s`. */
  predicate FrameReady(s: seq<byte>)
  {
    HeaderOf(s).Parsed? && |s| >= TotalFrameLength(HeaderOf(s).header)
  }

  function FrameSize(s: seq<byte>): (n: nat)
    requires FrameReady(s)
    ensures 2 <= n <= |s|
  {
    TotalFrameLength(HeaderOf(s).header)
  }

  function FirstFrame(s: seq<byte>): (f: Received)
    requires FrameReady(s)
  {
    var h := HeaderOf(s).header;
    Received(h.fin, h.opcode, PayloadOf(s, h))
  }

  /** All frames of a whole stream, and what the client meets after them. */
  function Frames(s: seq<byte>): (r: Split)
    decreases |s|
  {
    if HeaderOf(s).TooLong? then Split([], LengthError)
    else if !FrameReady(s) then Split([], Disconnected)
    else
      var rest := Frames(s[FrameSize(s)..]);
      Split([FirstFrame(s)] + rest.frames, rest.end)
  }

  const TEXT: byte := 1
  const CONTINUATION: byte := 0

  /** The reassembly rule on frames. `open` is the unfinished message, if any. */
  function Messages(frames: seq<Received>, open: Option<seq<byte>>): (ms: seq<seq<byte>>)
  {
    if frames == [] then [] else
    var f, rest := frames[0], frames[1..];
    if f.opcode == TEXT then
      if open.Some? then Messages(rest, open)
      else if f.fin then [f.payload] + Messages(rest, None)
      else Messages(rest, Some(f.payload))
    else if f.opcode == CONTINUATION then
      if open.None? then Messages(rest, None)
      else if f.fin then [open.value + f.payload] + Messages(rest, None)
      else Messages(rest, Some(open.value + f.payload))
    else Messages(rest, None)
  }

  // ------------------------------------------------------- one message ahead

  datatype Next = Got(message: seq<byte>, rest: seq<byte>) | Stopped(end: StreamEnd)

  /** The first message of a whole stream and the bytes behind it. */
  function NextMessage(s: seq<byte>, open: Option<seq<byte>>): (r: Next)
    ensures r.Got? ==> |r.rest| < |s|
    decreases |s|
  {
    if HeaderOf(s).TooLong? then Stopped(LengthError)
    else if !FrameReady(s) then Stopped(Disconnected)
    else
      var f, rest := FirstFrame(s), s[FrameSize(s)..];
      if f.opcode == TEXT then
        if open.Some? then NextMessage(rest, open)
        else if f.fin then Got(f.payload, rest)
        else NextMessage(rest, Some(f.payload))
      else if f.opcode == CONTINUATION then
        if open.None? then NextMessage(rest, None)
        else if f.fin then Got(open.value + f.payload, rest)
        else NextMessage(rest, Some(open.value + f.payload))
      else NextMessage(rest, None)
  }

  lemma {:induction false} NextMessageIsFirst(s: seq<byte>, open: Option<seq<byte>>)
    ensures var frames := Frames(s);
            match NextMessage(s, open)
            case Got(m, rest) =>
              && Messages(frames.frames, open) == [m] + Messages(Frames(rest).frames, None)
              && frames.end == Frames(rest).end
            case Stopped(end) => Messages(frames.frames, open) == [] && frames.end == end
    decreases |s|
  {
    if !HeaderOf(s).TooLong? && FrameReady(s) {
      var f, rest := FirstFrame(s), s[FrameSize(s)..];
      var frames := Frames(s).frames;
      assert frames[0] == f && frames[1..] == Frames(rest).frames;
      if f.opcode == TEXT {
        if open.Some? {
          NextMessageIsFirst(rest, open);
        } else if !f.fin {
          NextMessageIsFirst(rest, Some(f.payload));
        }
      } else if f.opcode == CONTINUATION {
        if open.None? {
          NextMessageIsFirst(rest, None);
        } else if !f.fin {
          NextMessageIsFirst(rest, Some(open.value + f.payload));
        }
      } else {
        NextMessageIsFirst(rest, None);
      }
    }
  }

  // --------------------------------------------------- more bytes change nothing

  /** What a buffer already decides, any longer stream decides the same way. */
  lemma HeaderStable(buffer: seq<byte>, more: seq<byte>)
    ensures !HeaderOf(buffer).Incomplete? ==> HeaderOf(buffer + more) == HeaderOf(buffer)
  {
    if |buffer| >= 2 {
      var width := ExtendedWidth(buffer[1] % 128);
      if |buffer| >= 2 + width {
        assert (buffer + more)[2..2 + width] == buffer[2..2 + width];
      }
    }
  }

  lemma FrameStable(buffer: seq<byte>, more: seq<byte>)
    requires FrameReady(buffer)
    ensures FrameReady(buffer + more)
    ensures FirstFrame(buffer + more) == FirstFrame(buffer)
    ensures FrameSize(buffer + more) == FrameSize(buffer)
    ensures (buffer + more)[FrameSize(buffer)..] == buffer[FrameSize(buffer)..] + more
  {
    HeaderStable(buffer, more);
    var h := HeaderOf(buffer).header;
    SliceStable(buffer, more, h.headerSize, h.headerSize + h.payloadLen);
    if h.maskOffset.Some? {
      SliceStable(buffer, more, h.maskOffset.value, h.maskOffset.value + 4);
    }
  }

  lemma SliceStable(buffer: seq<byte>, more: seq<byte>, lo: nat, hi: nat)
    requires lo <= hi <= |buffer|
    ensures (buffer + more)[lo..hi] == buffer[lo..hi]
    ensures (buffer + more)[hi..] == buffer[hi..] + more
  {
  }

  /** How a frame moves a whole stream on. */
  function Onward(f: Received, rest: seq<byte>, open: Option<seq<byte>>): (r: Next)
  {
    if f.opcode == TEXT then
      if open.Some? then NextMessage(rest, open)
      else if f.fin then Got(f.payload, rest)
      else NextMessage(rest, Some(f.payload))
    else if f.opcode == CONTINUATION then
      if open.None? then NextMessage(rest, None)
      else if f.fin then Got(open.value + f.payload, rest)
      else NextMessage(rest, Some(open.value + f.payload))
    else NextMessage(rest, None)
  }

  /** A frame complete in the buffer is the first of the whole stream. */
  lemma FrameTaken(buffer: seq<byte>, more: seq<byte>, open: Option<seq<byte>>)
    requires FrameReady(buffer)
    ensures NextMessage(buffer + more, open) == Onward(FirstFrame(buffer), buffer[FrameSize(buffer)..] + more, open)
  {
    FrameStable(buffer, more);
    HeaderStable(buffer, more);
  }

  lemma LengthRefused(buffer: seq<byte>, more: seq<byte>, open: Option<seq<byte>>)
    requires HeaderOf(buffer).TooLong?
    ensures NextMessage(buffer + more, open) == Stopped(LengthError)
  {
    HeaderStable(buffer, more);
  }

  lemma StreamEnds(buffer: seq<byte>, open: Option<seq<byte>>)
    requires !HeaderOf(buffer).TooLong? && !FrameReady(buffer)
    ensures NextMessage(buffer + [], open) == Stopped(Disconnected)
  {
    assert buffer + [] == buffer;
  }

  // ------------------------------------------------------------------ the code

  /** The socket: the chunks the peer's bytes will arrive in, then the close. */
  class Connection {
    var chunks: seq<seq<byte>>

    constructor (chunks: seq<seq<byte>>)
      ensures this.chunks == chunks
    {
      this.chunks := chunks;
    }

    /** `receiveChunk`: the next chunk (possibly empty), or the closed error. */
    method ReceiveChunk() returns (r: Option<seq<byte>>)
      modifies this
      ensures old(chunks) == [] ==> r == None && chunks == []
      ensures old(chunks) != [] ==> r == Some(old(chunks)[0]) && chunks == old(chunks)[1..]
    {
      if chunks == [] {
        return None;
      }
      r := Some(chunks[0]);
      chunks := chunks[1..];
    }
  }

  function Flatten(chunks: seq<seq<byte>>): (s: seq<byte>)
  {
    if chunks == [] then [] else chunks[0] + Flatten(chunks[1..])
  }

  datatype ReadResult = Message(payload: seq<byte>) | Failed(end: StreamEnd)

  /** The result is the next message, and what is left is the rest of the stream. */
  predicate Answers(next: Next, r: ReadResult, left: seq<byte>)
  {
    match next
    case Got(m, rest) => r == Message(m) && left == rest
    case Stopped(end) => r == Failed(end)
  }

  /** The state of the loop in `readWsFrame`. */
  function OpenMessage(waiting: bool, accumulated: seq<byte>): (r: Option<seq<byte>>)
  {
    if waiting then Some(accumulated) else None
  }

  /** The bytes of the stream that no frame has taken yet. */
  function Left(conn: Connection, buffer: seq<byte>): (s: seq<byte>)
    reads conn
  {
    buffer + Flatten(conn.chunks)
  }

  /** One more chunk behind the buffer, unless the stream has ended. */
  method Receive(conn: Connection, buffer: seq<byte>) returns (more: bool, longer: seq<byte>)
    modifies conn
    ensures !more ==> old(conn.chunks) == [] && conn.chunks == [] && longer == buffer
    ensures more ==> |conn.chunks| < |old(conn.chunks)| && Left(conn, longer) == old(Left(conn, buffer))
  {
    var chunk := conn.ReceiveChunk();
    if chunk.None? {
      return false, buffer;
    }
    more, longer := true, buffer + chunk.value;
    assert buffer + (chunk.value + Flatten(conn.chunks)) == longer + Flatten(conn.chunks);
  }

  /** `readWsFrame`. Every turn of the loop consumes a frame or a chunk, and the
      result, the carried buffer and the unread chunks are together exactly what
      the whole-stream reference says, however the bytes are split. */
  method ReadWsFrame(conn: Connection, buffer0: seq<byte>) returns (r: ReadResult, buffer: seq<byte>)
    modifies conn
    ensures Answers(NextMessage(buffer0 + Flatten(old(conn.chunks)), None), r, buffer + Flatten(conn.chunks))
    ensures |conn.chunks| <= |old(conn.chunks)|
  {
    buffer := buffer0;
    var accumulatedPayload: seq<byte> := [];
    var waitingForContinuation := false;
    ghost var whole := NextMessage(Left(conn, buffer), None);

    while true
      invariant NextMessage(Left(conn, buffer), OpenMessage(waitingForContinuation, accumulatedPayload)) == whole
      invariant |conn.chunks| <= |old(conn.chunks)|
      decreases |conn.chunks|, |buffer|
    {
      ghost var chunksBefore, bufferBefore := |conn.chunks|, buffer;
      while |buffer| < 2
        invariant NextMessage(Left(conn, buffer), OpenMessage(waitingForContinuation, accumulatedPayload)) == whole
        invariant |conn.chunks| < chunksBefore || (|conn.chunks| == chunksBefore && buffer == bufferBefore)
        invariant |conn.chunks| <= |old(conn.chunks)|
        decreases |conn.chunks|
      {
        var more: bool;
        more, buffer := Receive(conn, buffer);
        if !more {
          StreamEnds(buffer, OpenMessage(waitingForContinuation, accumulatedPayload));
          return Failed(Disconnected), buffer;
        }
      }
      ghost var open := OpenMessage(waitingForContinuation, accumulatedPayload);
      var parsed := ParseHeader(buffer);
      if parsed.TooLong? {
        LengthRefused(buffer, Flatten(conn.chunks), open);
        return Failed(LengthError), buffer;
      }
      if parsed.Incomplete? || |buffer| < TotalFrameLength(parsed.header) {
        var more: bool;
        more, buffer := Receive(conn, buffer);
        if !more {
          StreamEnds(buffer, open);
          return Failed(Disconnected), buffer;
        }
        continue;
      }
      var header := parsed.header;
      var totalLen := TotalFrameLength(header);
      FrameTaken(buffer, Flatten(conn.chunks), open);
      // The source's "nil payload" branches are dead: the frame is complete.
      if header.opcode == TEXT {
        if waitingForContinuation {
          buffer := buffer[totalLen..];
          continue;
        }
        var payload := ExtractPayload(buffer, header);
        assert payload.Some?;
        buffer := buffer[totalLen..];
        if header.fin {
          return Message(payload.value), buffer;
        }
        accumulatedPayload := payload.value;
        waitingForContinuation := true;
      } else if header.opcode == CONTINUATION {
        if !waitingForContinuation {
          buffer := buffer[totalLen..];
          continue;
        }
        var payload := ExtractPayload(buffer, header);
        assert payload.Some?;
        buffer := buffer[totalLen..];
        accumulatedPayload := accumulatedPayload + payload.value;
        if header.fin {
          return Message(accumulatedPayload), buffer;
        }
      } else {
        buffer := buffer[totalLen..];
        if waitingForContinuation {
          waitingForContinuation := false;
          accumulatedPayload := [];
        }
      }
    }
  }

  /** What was delivered, and what the bytes left still give, make up the whole. */
  predicate Delivered(messages: seq<seq<byte>>, left: seq<byte>, whole: Split)
  {
    && Frames(left).end == whole.end
    && messages + Messages(Frames(left).frames, None) == Messages(whole.frames, None)
  }

  lemma DeliverNext(messages: seq<seq<byte>>, left: seq<byte>, whole: Split, m: seq<byte>, rest: seq<byte>)
    requires Delivered(messages, left, whole) && NextMessage(left, None) == Got(m, rest)
    ensures Delivered(messages + [m], rest, whole)
  {
    NextMessageIsFirst(left, None);
    OneMoreOf(messages, m, Messages(Frames(rest).frames, None), Messages(whole.frames, None));
  }

  lemma OneMoreOf<T>(taken: seq<T>, x: T, behind: seq<T>, all: seq<T>)
    requires taken + ([x] + behind) == all
    ensures taken + [x] + behind == all
  {
  }

  lemma DeliverEnd(messages: seq<seq<byte>>, left: seq<byte>, whole: Split, end: StreamEnd)
    requires Delivered(messages, left, whole) && NextMessage(left, None) == Stopped(end)
    ensures messages == Messages(whole.frames, None) && end == whole.end
  {
    NextMessageIsFirst(left, None);
    assert messages + [] == messages;
  }

  /** The subscription: the first call's left-over buffer is handed to the next
      one, until a read throws. For every chunking of every byte stream the
      messages and the final error are those of the whole-stream parser. */
  method ReadAll(chunks: seq<seq<byte>>) returns (messages: seq<seq<byte>>, end: StreamEnd)
    ensures messages == Messages(Frames(Flatten(chunks)).frames, None)
    ensures end == Frames(Flatten(chunks)).end
  {
    var conn := new Connection(chunks);
    var buffer: seq<byte> := [];
    messages := [];
    ghost var whole := Frames(Flatten(chunks));
    assert buffer + Flatten(chunks) == Flatten(chunks);
    while true
      invariant Delivered(messages, buffer + Flatten(conn.chunks), whole)
      decreases |buffer + Flatten(conn.chunks)|
    {
      ghost var left := buffer + Flatten(conn.chunks);
      var r, rest := ReadWsFrame(conn, buffer);
      buffer := rest;
      match r {
        case Failed(e) =>
          DeliverEnd(messages, left, whole, e);
          return messages, e;
        case Message(m) =>
          DeliverNext(messages, left, whole, m, buffer + Flatten(conn.chunks));
          messages := messages + [m];
      }
    }
  }

  // ------------------------------------------------ section 5.4: fragmentation

  function Payloads(fs: seq<Received>): (s: seq<byte>)
  {
    if fs == [] then [] else fs[0].payload + Payloads(fs[1..])
  }

  predicate IsControl(f: Received)
  {
    f.opcode >= 8
  }

  /** What may follow the first fragment: continuations, the last of them final,
      with control frames anywhere between (section 5.4 allows them). */
  predicate Continuations(fs: seq<Received>)
  {
    && fs != []
    && (forall f | f in fs :: IsControl(f) || f.opcode == CONTINUATION)
    && (forall i | 0 <= i < |fs| - 1 :: IsControl(fs[i]) || !fs[i].fin)
    && fs[|fs| - 1].opcode == CONTINUATION && fs[|fs| - 1].fin
  }

  predicate NoControl(fs: seq<Received>)
  {
    forall f | f in fs :: !IsControl(f)
  }

  lemma MessagesStep(f: Received, fs: seq<Received>, open: seq<byte>)
    requires IsControl(f) || f.opcode == CONTINUATION
    ensures Messages([f] + fs, Some(open))
         == if IsControl(f) then Messages(fs, None)
            else if f.fin then [open + f.payload] + Messages(fs, None)
            else Messages(fs, Some(open + f.payload))
  {
    assert ([f] + fs)[1..] == fs;
  }

  lemma ContinuationsStep(fs: seq<Received>)
    requires Continuations(fs)
    ensures IsControl(fs[0]) || fs[0].opcode == CONTINUATION
    ensures |fs| == 1 ==> !IsControl(fs[0]) && fs[0].fin
    ensures |fs| > 1 ==> Continuations(fs[1..]) && (IsControl(fs[0]) || !fs[0].fin)
    ensures NoControl(fs) <==> !IsControl(fs[0]) && NoControl(fs[1..])
  {
    assert fs == [fs[0]] + fs[1..];
    assert fs[0] in fs && forall x :: x in fs[1..] ==> x in fs;
    assert forall i | 0 <= i < |fs| - 1 :: fs[1..][i] == fs[i + 1];
  }

  /** A fragmented message survives if and only if no control frame was sent
      inside it; otherwise every fragment of it is dropped. Either way the
      frames behind it are read from a clean state. */
  lemma {:induction false} FragmentedMessage(fs: seq<Received>, open: seq<byte>, after: seq<Received>)
    requires Continuations(fs)
    ensures Messages(fs + after, Some(open))
         == (if NoControl(fs) then [open + Payloads(fs)] else []) + Messages(after, None)
  {
    var f, rest := fs[0], fs[1..];
    ContinuationsStep(fs);
    assert fs + after == [f] + (rest + after);
    MessagesStep(f, rest + after, open);
    if IsControl(f) {
      assert forall x | x in rest :: x in fs;
      Orphaned(rest, after);
    } else if rest == [] {
      assert rest + after == after;
      assert f.payload + Payloads(rest) == f.payload;
    } else {
      FragmentedMessage(rest, open + f.payload, after);
      assert open + f.payload + Payloads(rest) == open + (f.payload + Payloads(rest));
    }
  }

  lemma {:induction false} Orphaned(fs: seq<Received>, after: seq<Received>)
    requires forall f | f in fs :: IsControl(f) || f.opcode == CONTINUATION
    ensures Messages(fs + after, None) == Messages(after, None)
  {
    if fs == [] {
      assert fs + after == after;
    } else {
      assert (fs + after)[1..] == fs[1..] + after;
      Orphaned(fs[1..], after);
    }
  }

  /** One thing a peer sends: a text message in one or more frames, a message of
      another type in several, or a frame of another kind between messages. */
  datatype Item =
    | Whole(f: Received)
    | Fragmented(first: Received, others: seq<Received>)
    | Foreign(first: Received, others: seq<Received>)
    | Other(f: Received)

  predicate ConformingItem(i: Item)
  {
    match i
    case Whole(f) => f.opcode == TEXT && f.fin
    case Fragmented(first, others) => first.opcode == TEXT && !first.fin && Continuations(others)
    case Foreign(first, others) =>
      first.opcode != TEXT && first.opcode != CONTINUATION && !IsControl(first) && !first.fin && Continuations(others)
    case Other(f) => f.opcode != TEXT && f.opcode != CONTINUATION
  }

  function FramesOf(i: Item): (fs: seq<Received>)
  {
    match i
    case Whole(f) => [f]
    case Fragmented(first, others) => [first] + others
    case Foreign(first, others) => [first] + others
    case Other(f) => [f]
  }

  /** Text fragments concatenated, in order; an interrupted message gives nothing. */
  function MessagesOf(i: Item): (ms: seq<seq<byte>>)
  {
    match i
    case Whole(f) => [f.payload]
    case Fragmented(first, others) => if NoControl(others) then [first.payload + Payloads(others)] else []
    case Foreign(_, _) => []
    case Other(_) => []
  }

  function ItemFrames(items: seq<Item>): (fs: seq<Received>)
  {
    if items == [] then [] else FramesOf(items[0]) + ItemFrames(items[1..])
  }

  function ItemMessages(items: seq<Item>): (ms: seq<seq<byte>>)
  {
    if items == [] then [] else MessagesOf(items[0]) + ItemMessages(items[1..])
  }

  /** The frames of one item give its messages, whatever follows. */
  lemma OneItem(i: Item, tail: seq<Received>)
    requires ConformingItem(i)
    ensures Messages(FramesOf(i) + tail, None) == MessagesOf(i) + Messages(tail, None)
  {
    match i {
      case Whole(f) =>
        assert ([f] + tail)[1..] == tail;
      case Fragmented(first, others) =>
        assert ([first] + others + tail)[1..] == others + tail;
        FragmentedMessage(others, first.payload, tail);
      case Foreign(first, others) =>
        assert ([first] + others + tail)[1..] == others + tail;
        Orphaned(others, tail);
      case Other(f) =>
        assert ([f] + tail)[1..] == tail;
    }
  }

  lemma {:induction false} ConformingStream(items: seq<Item>)
    requires forall i | i in items :: ConformingItem(i)
    ensures Messages(ItemFrames(items), None) == ItemMessages(items)
  {
    if items != [] {
      assert items[0] in items;
      OneItem(items[0], ItemFrames(items[1..]));
      ConformingStream(items[1..]);
    }
  }

  /** Section 5.4 permits a control frame inside a fragmented message; the
      reader loses that message: ping between two fragments of "hi". */
  lemma PingInsideFragmentsLosesMessage()
    ensures var items := [Fragmented(Received(false, TEXT, [104]),
                                     [Received(true, 9, []), Received(true, CONTINUATION, [105])])];
            && (forall i | i in items :: ConformingItem(i))
            && Messages(ItemFrames(items), None) == []
  {
    var others := [Received(true, 9, []), Received(true, CONTINUATION, [105])];
    var items := [Fragmented(Received(false, TEXT, [104]), others)];
    assert IsControl(others[0]) && others[0] in others;
    ConformingStream(items);
    assert items[1..] == [];
  }

  /** One frame, by its opcode: 1 is text, 0 a continuation. */
  lemma FrameByOpcode(f: Received, rest: seq<Received>)
    ensures f.opcode == 1 && f.fin ==> Messages([f] + rest, None) == [f.payload] + Messages(rest, None)
    ensures f.opcode == 1 && !f.fin ==> Messages([f] + rest, None) == Messages(rest, Some(f.payload))
    ensures f.opcode != 1 ==> Messages([f] + rest, None) == Messages(rest, None)
  {
    assert ([f] + rest)[1..] == rest;
  }

  /** The same inside a message that has begun: text is skipped, and every other opcode
      than 0 gives the message up. */
  lemma FrameInsideMessage(f: Received, rest: seq<Received>, open: seq<byte>)
    ensures f.opcode == 1 ==> Messages([f] + rest, Some(open)) == Messages(rest, Some(open))
    ensures f.opcode == 0 && f.fin ==>
              Messages([f] + rest, Some(open)) == [open + f.payload] + Messages(rest, None)
    ensures f.opcode == 0 && !f.fin ==>
              Messages([f] + rest, Some(open)) == Messages(rest, Some(open + f.payload))
    ensures f.opcode > 1 ==> Messages([f] + rest, Some(open)) == Messages(rest, None)
  {
    assert ([f] + rest)[1..] == rest;
  }

  // ---------------------------------------------------- from frames to bytes

  function Wire(fs: seq<(Frame, LengthForm)>): (s: seq<byte>)
    requires forall p | p in fs :: WellFormed(p.0, p.1)
  {
    if fs == [] then [] else Encode(fs[0].0, fs[0].1) + Wire(fs[1..])
  }

  function AsReceived(fs: seq<(Frame, LengthForm)>): (r: seq<Received>)
    ensures |r| == |fs|
  {
    seq(|fs|, i requires 0 <= i < |fs| => Received(fs[i].0.fin, fs[i].0.opcode, fs[i].0.payload))
  }

  lemma FirstOfWire(f: Frame, form: LengthForm, rest: seq<byte>)
    requires WellFormed(f, form) && |f.payload| <= MAX_FRAME_BYTES
    ensures var s := Encode(f, form) + rest;
            && FrameReady(s)
            && FirstFrame(s) == Received(f.fin, f.opcode, f.payload)
            && s[FrameSize(s)..] == rest
  {
    RoundTrip(f, form, rest);
  }

  lemma FirstReceived(fs: seq<(Frame, LengthForm)>)
    requires fs != []
    ensures var f := fs[0].0; AsReceived(fs) == [Received(f.fin, f.opcode, f.payload)] + AsReceived(fs[1..])
  {
  }

  lemma FramesStep(s: seq<byte>, f: Received, rest: seq<byte>)
    requires FrameReady(s) && FirstFrame(s) == f && s[FrameSize(s)..] == rest
    ensures Frames(s) == Split([f] + Frames(rest).frames, Frames(rest).end)
  {
  }

  /** Splitting a stream of encoded frames gives back those frames. */
  lemma {:induction false} WireFrames(fs: seq<(Frame, LengthForm)>)
    requires forall p | p in fs :: WellFormed(p.0, p.1) && |p.0.payload| <= MAX_FRAME_BYTES
    ensures Frames(Wire(fs)) == Split(AsReceived(fs), Disconnected)
  {
    if fs != [] {
      assert fs[0] in fs;
      var f, form, rest := fs[0].0, fs[0].1, Wire(fs[1..]);
      var s := Encode(f, form) + rest;
      assert Wire(fs) == s;
      WireFrames(fs[1..]);
      FirstOfWire(f, form, rest);
      FramesStep(s, Received(f.fin, f.opcode, f.payload), rest);
      FirstReceived(fs);
    }
  }

  /** End to end: whatever length forms, keys and reserved bits a peer uses for
      the frames of its items, the client gets the items' messages. */
  lemma PeerMessagesArrive(fs: seq<(Frame, LengthForm)>, items: seq<Item>)
    requires forall p | p in fs :: WellFormed(p.0, p.1) && |p.0.payload| <= MAX_FRAME_BYTES
    requires forall i | i in items :: ConformingItem(i)
    requires AsReceived(fs) == ItemFrames(items)
    ensures Messages(Frames(Wire(fs)).frames, None) == ItemMessages(items)
  {
    WireFrames(fs);
    ConformingStream(items);
  }

  /** The two halves of the client fit: what it builds from a payload of at most 8 MiB, it
      reads back as one message, and anything longer ends the stream. */
  lemma BuiltIsRead(payload: seq<byte>, key: seq<byte>)
    requires |key| == 4 && |payload| < 0x1_0000_0000
    ensures var stream := Frames(Encode(TextFrame(payload, key), MinimalForm(|payload|)));
      if |payload| <= 8388608 then Messages(stream.frames, None) == [payload] && stream.end == Disconnected
      else Messages(stream.frames, None) == [] && stream.end == LengthError
  {
    var f, form := TextFrame(payload, key), MinimalForm(|payload|);
    var data := Encode(f, form);
    assert data + [] == data;
    RoundTrip(f, form, []);
    if |payload| <= 8388608 {
      FirstOfWire(f, form, []);
      FramesStep(data, Received(true, 1, payload), []);
      FrameByOpcode(Received(true, 1, payload), []);
      assert [Received(true, 1, payload)] + [] == [Received(true, 1, payload)];
    }
  }
}
