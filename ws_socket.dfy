/** `WebSocketImpl` of the std `ws` module: a send queue that writes one frame
    at a time, the close handshake, and the receiving loop of its async
    iterator.  The connection is modelled by the frames already handed to
    `writeFrame` (`written`, whose bytes are `Wire(written)`) and by the bytes
    it delivers (the argument of `Receive`). */
module WsSocket {
  import opened Wrappers
  import opened Bytes
  import opened WsFrame

  /** What `send` accepts: a string (carried as its UTF-8 bytes) or bytes. */
  datatype Data = Text(utf8: seq<Byte>) | Binary(bytes: seq<Byte>)

  datatype SocketError =
    | ConnectionReset           // "Socket has already been closed"
    | FrameFailure(error: FrameError)

  /** The state a deferred of the send queue was settled with. */
  datatype Settlement = Resolved | Rejected(error: SocketError)

  /** An element of `sendQueue`: the deferred (named by its ticket) and the frame. */
  datatype Entry = Entry(ticket: nat, frame: Frame)

  /** What the async iterator yields. */
  datatype Event =
    | TextMessage(utf8: seq<Byte>)
    | BinaryMessage(bytes: seq<Byte>)
    | CloseEvent(code: nat, reason: seq<Byte>)
    | PingEvent(payload: seq<Byte>)
    | PongEvent(payload: seq<Byte>)

  // ------------------------------------------------------ writing, as values

  /** The bytes `writeFrame` puts on the connection (none when it throws). */
  function FrameBytes(f: Frame): seq<Byte> {
    if EncodeFrame(f).Ok? then EncodeFrame(f).value else []
  }

  /** How the deferred of a frame's queue entry settles once its write ends:
      `writeFrame` rejects a mask that is not 4 bytes long. */
  function WriteOutcome(f: Frame): Settlement {
    if f.mask.None? || |f.mask.value| == 4 then Resolved else Rejected(FrameFailure(InvalidMask(|f.mask.value|)))
  }

  /** The deferred settles exactly as `writeFrame` ends. */
  lemma WriteOutcomeOfEncodeFrame(f: Frame)
    ensures WriteOutcome(f) == if EncodeFrame(f).Ok? then Resolved else Rejected(FrameFailure(EncodeFrame(f).error))
  {
  }

  /** The connection's contents after writing `fs` in order. */
  function Wire(fs: seq<Frame>): seq<Byte> {
    if |fs| == 0 then [] else Wire(fs[..|fs| - 1]) + FrameBytes(fs[|fs| - 1])
  }

  /** Writing one more frame appends its bytes to the connection: the frames
      go out whole, one after another. */
  lemma WireAppend(fs: seq<Frame>, f: Frame)
    ensures Wire(fs + [f]) == Wire(fs) + FrameBytes(f)
  {
    assert (fs + [f])[..|fs|] == fs;
  }

  // ------------------------------------------------------ the close payload

  /** `close(code, reason)`: `[code >>> 8, code & 0xff]` stored in a
      Uint8Array (each truncated to 8 bits), then the reason's bytes. */
  function ClosePayload(code: int, reason: seq<Byte>): (p: seq<Byte>)
    ensures |p| == 2 + |reason| && p[2..] == reason
  {
    [HighByte(code), LowByte(code)] + reason
  }

  /** `code >>> 8` truncated to a byte. */
  function HighByte(code: int): Byte {
    (code % 0x1_0000_0000 / 256) % 256
  }

  /** `code & 0x00ff`. */
  function LowByte(code: int): Byte {
    code % 0x1_0000_0000 % 256
  }

  /** The iterator's `(payload[0] << 8) | payload[1]`; a missing byte reads
      `undefined`, which counts as 0. */
  function CloseCode(p: seq<Byte>): (c: nat)
    ensures c < 0x1_0000
  {
    var hi: nat := if |p| > 0 then p[0] else 0;
    var lo: nat := if |p| > 1 then p[1] else 0;
    hi * 256 + lo
  }

  /** `payload.subarray(2, payload.length)`. */
  function CloseReason(p: seq<Byte>): seq<Byte> {
    if |p| <= 2 then [] else p[2..]
  }

  lemma HighLow(c: int)
    requires 0 <= c
    ensures ((c / 256) % 256) * 256 + c % 256 == c % 0x1_0000
  {
    var q := c / 0x1_0000;
    var r := c % 0x1_0000;
    assert c == q * 0x1_0000 + r;
    assert c / 256 == q * 256 + r / 256;
    assert (c / 256) % 256 == r / 256;
    assert c % 256 == r % 256;
  }

  lemma ModOfMultiple(k: int, x: int)
    ensures (k * 0x1_0000_0000 + x) % 0x1_0000 == x % 0x1_0000
  {
    var r := x % 0x1_0000;
    var q := x / 0x1_0000;
    assert x == q * 0x1_0000 + r;
    assert k * 0x1_0000_0000 + x == (k * 0x1_0000 + q) * 0x1_0000 + r;
  }

  /** Reading the code back from a close payload gives the code modulo 2^16,
      as JavaScript's ToUint32 followed by 8-bit truncation does, and the
      reason unchanged. */
  lemma {:induction false} ClosePayloadRoundTrip(code: int, reason: seq<Byte>)
    ensures CloseCode(ClosePayload(code, reason)) == code % 0x1_0000
    ensures CloseReason(ClosePayload(code, reason)) == reason
  {
    var c32 := code % 0x1_0000_0000;
    var p := ClosePayload(code, reason);
    assert p[0] == HighByte(code) && p[1] == LowByte(code);
    HighLow(c32);
    assert CloseCode(p) == c32 % 0x1_0000;
    assert code == (code / 0x1_0000_0000) * 0x1_0000_0000 + c32;
    ModOfMultiple(code / 0x1_0000_0000, c32);
  }

  /** The close frame the iterator sends back echoes the received payload when
      it carries a code, and pads a shorter one with zero bytes. */
  lemma {:induction false} CloseEchoesPayload(p: seq<Byte>)
    ensures ClosePayload(CloseCode(p), CloseReason(p)) == if |p| >= 2 then p else p + seq(2 - |p|, _ => 0)
  {
    var hi: Byte := if |p| > 0 then p[0] else 0;
    var lo: Byte := if |p| > 1 then p[1] else 0;
    CodeOfBytes(hi, lo, p);
    SplitCode(hi, lo);
    var padded := if |p| >= 2 then p else p + seq(2 - |p|, _ => 0);
    assert padded == [hi, lo] + CloseReason(p);
  }

  lemma CodeOfBytes(hi: Byte, lo: Byte, p: seq<Byte>)
    requires hi == if |p| > 0 then p[0] else 0
    requires lo == if |p| > 1 then p[1] else 0
    ensures CloseCode(p) == hi * 256 + lo
  {
  }

  lemma SplitCode(hi: Byte, lo: Byte)
    ensures HighByte(hi * 256 + lo) == hi && LowByte(hi * 256 + lo) == lo
  {
    var c := hi * 256 + lo;
    assert c % 0x1_0000_0000 == c;
  }

  // --------------------------------------------------- the receiving loop

  /** The iterator's run so far: what it yielded, the frames it enqueued in
      reply, and the error it threw, if any. */
  datatype Rx = Rx(events: seq<Event>, replies: seq<Frame>, thrown: Option<SocketError>)

  function Prepend(events: seq<Event>, replies: seq<Frame>, r: Rx): Rx {
    Rx(events + r.events, replies + r.replies, r.thrown)
  }

  /** A frame after `unmask`. */
  function Unmasked(f: Frame): Frame {
    Frame(f.isLastFrame, f.opcode, f.mask, Masked(f.payload, f.mask))
  }

  /** All payloads of `frames`, one after another. */
  function Joined(frames: seq<Frame>): (r: seq<Byte>)
    ensures |r| == TotalLength(frames)
  {
    if |frames| == 0 then [] else Joined(frames[..|frames| - 1]) + frames[|frames| - 1].payload
  }

  function TotalLength(frames: seq<Frame>): nat {
    if |frames| == 0 then 0 else TotalLength(frames[..|frames| - 1]) + |frames[|frames| - 1].payload|
  }

  /** A complete message: text when its first frame is a text frame. */
  function Message(frames: seq<Frame>): Event
    requires |frames| > 0
  {
    if frames[0].opcode == TextFrame then TextMessage(Joined(frames)) else BinaryMessage(Joined(frames))
  }

  /** The close frame `close(code, reason)` enqueues on receipt of payload `p`. */
  function CloseReply(p: seq<Byte>, mask: Option<seq<Byte>>): Frame {
    Frame(true, Close, mask, ClosePayload(CloseCode(p), CloseReason(p)))
  }

  /** Whether the iterator collects `f` into the message being assembled. */
  predicate IsData(f: Frame) {
    f.opcode == TextFrame || f.opcode == BinaryFrame || f.opcode == Continue
  }

  /** The fragments still pending after frame `f`. */
  function NextPending(f: Frame, pending: seq<Frame>): seq<Frame> {
    if IsData(f) && !f.isLastFrame then pending + [f]
    else if IsData(f) then []
    else pending
  }

  /** Whether the iterator's loop ends after frame `f`: a close frame. */
  predicate Stops(f: Frame) {
    !IsData(f) && f.opcode == Close
  }

  /** The frames the iterator enqueues for `f`: the close frame `close`
      sends back for a close, an unmasked pong for a ping. */
  function Replies(f: Frame, mask: Option<seq<Byte>>): seq<Frame> {
    if IsData(f) then []
    else if f.opcode == Close then [CloseReply(f.payload, mask)]
    else if f.opcode == Ping then [Frame(true, Pong, None, f.payload)]
    else []
  }

  /** What `close` throws on receipt of close frame `f`: the error of writing
      the reply. */
  function ThrownBy(f: Frame, mask: Option<seq<Byte>>): Option<SocketError> {
    if Stops(f) && WriteOutcome(CloseReply(f.payload, mask)).Rejected? then
      Some(WriteOutcome(CloseReply(f.payload, mask)).error)
    else None
  }

  /** What the iterator yields for `f`: a message once a data frame is final,
      the close code and reason after a reply that could be written, the
      payload of a ping or a pong, and nothing for other opcodes. */
  function Emitted(f: Frame, pending: seq<Frame>, mask: Option<seq<Byte>>): seq<Event> {
    if IsData(f) then (if f.isLastFrame then [Message(pending + [f])] else [])
    else if f.opcode == Close then
      (if ThrownBy(f, mask).None? then [CloseEvent(CloseCode(f.payload), CloseReason(f.payload))] else [])
    else if f.opcode == Ping then [PingEvent(f.payload)]
    else if f.opcode == Pong then [PongEvent(f.payload)]
    else []
  }

  /** One pass of the iterator's `switch` on an unmasked frame `f`, where
      `next` is what the remaining passes produce. */
  function Handle(f: Frame, pending: seq<Frame>, mask: Option<seq<Byte>>, next: Rx): Rx {
    if Stops(f) then Rx(Emitted(f, pending, mask), Replies(f, mask), ThrownBy(f, mask))
    else Prepend(Emitted(f, pending, mask), Replies(f, mask), next)
  }

  /** The iterator's loop over the bytes the connection delivers, with
      `pending` the data frames of a message still being assembled; a read
      error (the end of the stream included) ends it silently. */
  function Incoming(input: seq<Byte>, pending: seq<Frame>, mask: Option<seq<Byte>>): Rx
    decreases |input|
  {
    match ReadFrame(input)
    case Err(_) => Rx([], [], None)
    case Ok(d) =>
      var f := Unmasked(d.frame);
      Handle(f, pending, mask, Incoming(input[d.consumed..], NextPending(f, pending), mask))
  }

  /** The payloads of the ping events, in order. */
  function PingsOf(events: seq<Event>): seq<seq<Byte>> {
    if |events| == 0 then []
    else (if events[0].PingEvent? then [events[0].payload] else []) + PingsOf(events[1..])
  }

  /** The payloads of the pong frames among the replies, in order. */
  function PongsOf(replies: seq<Frame>): seq<seq<Byte>> {
    if |replies| == 0 then []
    else (if replies[0].opcode == Pong then [replies[0].payload] else []) + PongsOf(replies[1..])
  }

  lemma PingsOfAppend(a: seq<Event>, b: seq<Event>)
    ensures PingsOf(a + b) == PingsOf(a) + PingsOf(b)
  {
    if |a| > 0 {
      assert (a + b)[1..] == a[1..] + b;
      PingsOfAppend(a[1..], b);
    } else {
      assert a + b == b;
    }
  }

  lemma PongsOfAppend(a: seq<Frame>, b: seq<Frame>)
    ensures PongsOf(a + b) == PongsOf(a) + PongsOf(b)
  {
    if |a| > 0 {
      assert (a + b)[1..] == a[1..] + b;
      PongsOfAppend(a[1..], b);
    } else {
      assert a + b == b;
    }
  }

  /** One pass keeps pings and pongs matched. */
  lemma HandleAnswersPing(f: Frame, pending: seq<Frame>, mask: Option<seq<Byte>>, next: Rx)
    requires PongsOf(next.replies) == PingsOf(next.events)
    ensures var r := Handle(f, pending, mask, next); PongsOf(r.replies) == PingsOf(r.events)
  {
    var e := Emitted(f, pending, mask);
    var rs := Replies(f, mask);
    assert PongsOf(rs) == PingsOf(e) by {
      if !IsData(f) && f.opcode == Ping {
        assert PongsOf(rs) == [f.payload] + PongsOf([]);
        assert PingsOf(e) == [f.payload] + PingsOf([]);
      } else if !IsData(f) && f.opcode == Close {
        assert PongsOf(rs) == [] + PongsOf([]);
        assert PingsOf(e) == [];
      } else if |e| > 0 {
        assert PingsOf(e) == [] + PingsOf([]);
      }
    }
    if !Stops(f) {
      PingsOfAppend(e, next.events);
      PongsOfAppend(rs, next.replies);
    }
  }

  /** Every ping is answered by a pong with the same payload, in the order the
      pings arrived, and no pong is sent otherwise. */
  lemma {:induction false} PongsAnswerPings(input: seq<Byte>, pending: seq<Frame>, mask: Option<seq<Byte>>)
    ensures PongsOf(Incoming(input, pending, mask).replies) == PingsOf(Incoming(input, pending, mask).events)
    decreases |input|
  {
    match ReadFrame(input)
    case Err(_) =>
    case Ok(d) =>
      var f := Unmasked(d.frame);
      var rest := input[d.consumed..];
      PongsAnswerPings(rest, NextPending(f, pending), mask);
      HandleAnswersPing(f, pending, mask, Incoming(rest, NextPending(f, pending), mask));
  }

  /** Every reply is an unmasked pong except possibly the last, the close
      frame; a close event is the last event, and there is none when the
      reply could not be written. */
  ghost predicate ClosesLast(r: Rx) {
    && (forall i :: 0 <= i < |r.replies| - 1 ==> r.replies[i].opcode == Pong && r.replies[i].mask.None?)
    && (forall i :: 0 <= i < |r.replies| ==> r.replies[i].opcode == Pong || r.replies[i].opcode == Close)
    && (forall i :: 0 <= i < |r.events| && r.events[i].CloseEvent? ==> i == |r.events| - 1 && r.thrown.None?)
    && (r.thrown.Some? ==> |r.replies| > 0 && r.replies[|r.replies| - 1].opcode == Close)
  }

  lemma HandleClosesLast(f: Frame, pending: seq<Frame>, mask: Option<seq<Byte>>, next: Rx)
    requires ClosesLast(next)
    ensures ClosesLast(Handle(f, pending, mask, next))
  {
    var r := Handle(f, pending, mask, next);
    var e := Emitted(f, pending, mask);
    var rs := Replies(f, mask);
    if !Stops(f) {
      assert |e| <= 1 && (|e| == 1 ==> !e[0].CloseEvent?);
      assert rs == [] || rs == [Frame(true, Pong, None, f.payload)];
      assert forall i :: |e| <= i < |r.events| ==> r.events[i] == next.events[i - |e|];
      assert forall i :: |rs| <= i < |r.replies| ==> r.replies[i] == next.replies[i - |rs|];
    }
  }

  lemma {:induction false} CloseEndsSession(input: seq<Byte>, pending: seq<Frame>, mask: Option<seq<Byte>>)
    ensures ClosesLast(Incoming(input, pending, mask))
    decreases |input|
  {
    match ReadFrame(input)
    case Err(_) =>
    case Ok(d) =>
      var f := Unmasked(d.frame);
      var rest := input[d.consumed..];
      CloseEndsSession(rest, NextPending(f, pending), mask);
      HandleClosesLast(f, pending, mask, Incoming(rest, NextPending(f, pending), mask));
  }

  /** One turn of the loop on a frame that reads successfully. */
  lemma IncomingStep(input: seq<Byte>, pending: seq<Frame>, mask: Option<seq<Byte>>)
    requires ReadFrame(input).Ok?
    ensures var d := ReadFrame(input).value; var f := Unmasked(d.frame);
      Incoming(input, pending, mask)
      == Handle(f, pending, mask, Incoming(input[d.consumed..], NextPending(f, pending), mask))
  {
  }

  lemma JoinedTwo(f1: Frame, f2: Frame)
    ensures Joined([f1, f2]) == f1.payload + f2.payload
  {
    assert [f1, f2][..1] == [f1];
    assert Joined([f1]) == Joined([]) + f1.payload;
  }

  /** A message split into a non-final first frame and a final continuation
      frame is delivered as one message holding both payloads. */
  lemma FragmentsJoin(input: seq<Byte>, mask: Option<seq<Byte>>)
    requires ReadFrame(input).Ok?
    requires var f1 := ReadFrame(input).value.frame; !f1.isLastFrame && f1.opcode == TextFrame
    requires ReadFrame(input[ReadFrame(input).value.consumed..]).Ok?
    requires var f2 := ReadFrame(input[ReadFrame(input).value.consumed..]).value.frame;
      f2.isLastFrame && f2.opcode == Continue
    ensures var d1 := ReadFrame(input).value;
      var rest := input[d1.consumed..];
      var d2 := ReadFrame(rest).value;
      var r := Incoming(input, [], mask);
      |r.events| > 0
      && r.events[0] == TextMessage(Masked(d1.frame.payload, d1.frame.mask) + Masked(d2.frame.payload, d2.frame.mask))
      && r.events[1..] == Incoming(rest[d2.consumed..], [], mask).events
  {
    var d1 := ReadFrame(input).value;
    var rest := input[d1.consumed..];
    var d2 := ReadFrame(rest).value;
    var f1 := Unmasked(d1.frame);
    var f2 := Unmasked(d2.frame);
    var after := Incoming(rest[d2.consumed..], [], mask);
    IncomingStep(input, [], mask);
    IncomingStep(rest, [f1], mask);
    assert NextPending(f1, []) == [f1];
    assert NextPending(f2, [f1]) == [];
    var second := Incoming(rest, [f1], mask);
    assert Handle(f1, [], mask, second) == Prepend([], [], second);
    assert Incoming(input, [], mask).events == second.events;
    assert [f1] + [f2] == [f1, f2];
    JoinedTwo(f1, f2);
    assert Emitted(f2, [f1], mask) == [TextMessage(f1.payload + f2.payload)];
    assert second == Prepend([TextMessage(f1.payload + f2.payload)], [], after);
  }

  // ------------------------------------------------------------- the socket

  class WebSocket {
    /** `this.mask`: the client's 4-byte key, or none on the server side. */
    const mask: Option<seq<Byte>>
    /** The queue of entries not yet settled by a completed write. */
    var sendQueue: seq<Entry>
    var isClosed: bool
    /** The frames written to the connection so far, in order. */
    var written: seq<Frame>
    /** How often `conn.close()` was called. */
    var closeCalls: nat
    /** The deferreds settled so far, by ticket. */
    var settled: map<nat, Settlement>
    /** How many entries were ever enqueued; the next ticket. */
    var enqueued: nat
    /** Every frame ever enqueued; an entry's ticket is its index here. */
    ghost var log: seq<Frame>

    /** The queue is the unsettled tail of the log; everything before it is
        settled, either by its write or by the close; `written` is a prefix
        of the log; while open, the head of the queue is being
        written exactly when `headStarted`; the connection is closed once. */
    ghost predicate Inv(headStarted: bool)
      reads this
    {
      && enqueued == |log|
      && |sendQueue| <= |log|
      && (forall i :: 0 <= i < |sendQueue| ==>
            sendQueue[i].ticket == |log| - |sendQueue| + i && sendQueue[i].frame == log[|log| - |sendQueue| + i])
      && (isClosed ==> sendQueue == [])
      && (forall t :: t in settled <==> 0 <= t < |log| - |sendQueue|)
      && (forall t :: t in settled ==> settled[t] == WriteOutcome(log[t]) || settled[t] == Rejected(ConnectionReset))
      && |written| <= |log| && written == log[..|written|]
      && (!isClosed ==> |written| == |log| - |sendQueue| + (if headStarted && sendQueue != [] then 1 else 0))
      && closeCalls == (if isClosed then 1 else 0)
    }

    ghost predicate Valid()
      reads this
    {
      Inv(true)
    }

    /** The number of entries already settled. */
    ghost function Done(): int
      reads this
    {
      |log| - |sendQueue|
    }

    constructor (mask: Option<seq<Byte>>)
      ensures Valid() && !isClosed
      ensures this.mask == mask && sendQueue == [] && written == [] && settled == map[] && log == []
    {
      this.mask := mask;
      sendQueue := [];
      isClosed := false;
      written := [];
      closeCalls := 0;
      settled := map[];
      enqueued := 0;
      log := [];
    }

    /** `dequeue`: start writing the head of the queue, unless the queue is
        empty or the socket closed. */
    method Dequeue()
      requires Inv(false)
      modifies this
      ensures Valid()
      ensures sendQueue == old(sendQueue) && isClosed == old(isClosed) && settled == old(settled)
      ensures log == old(log) && closeCalls == old(closeCalls)
      ensures written == old(written) + if !isClosed && sendQueue != [] then [sendQueue[0].frame] else []
      ensures Wire(written) == Wire(old(written)) + if !isClosed && sendQueue != [] then FrameBytes(sendQueue[0].frame) else []
    {
      if sendQueue == [] || isClosed {
        return;
      }
      var frame := sendQueue[0].frame;
      assert frame == log[|written|];
      assert log[..|written| + 1] == written + [frame];
      StartWrite(frame);
    }

    /** The `writeFrame` call of `dequeue`: the frame's bytes go on the
        connection after those written before, and nothing else changes. */
    method StartWrite(frame: Frame)
      modifies this
      ensures written == old(written) + [frame]
      ensures Wire(written) == Wire(old(written)) + FrameBytes(frame)
      ensures sendQueue == old(sendQueue) && isClosed == old(isClosed) && settled == old(settled)
      ensures log == old(log) && closeCalls == old(closeCalls) && enqueued == old(enqueued)
    {
      WireAppend(written, frame);
      written := written + [frame];
    }

    /** `enqueue`: throws once closed; otherwise appends an entry and, when it
        is the only one, starts writing it.  The result names its deferred. */
    method Enqueue(frame: Frame) returns (r: Result<nat, SocketError>)
      requires Valid()
      modifies this
      ensures Valid() && isClosed == old(isClosed) && closeCalls == old(closeCalls)
      ensures settled == old(settled)
      ensures old(isClosed) ==> r == Err(ConnectionReset) && log == old(log) && written == old(written)
      ensures !old(isClosed) ==>
        && r == Ok(|old(log)|)
        && log == old(log) + [frame]
        && sendQueue == old(sendQueue) + [Entry(|old(log)|, frame)]
        && written == old(written) + if old(sendQueue) == [] then [frame] else []
    {
      if isClosed {
        return Err(ConnectionReset);
      }
      var wasEmpty := sendQueue == [];
      r := Push(frame);
      if wasEmpty {
        Dequeue();
      }
    }

    /** `this.sendQueue.push({ d, frame })` with a fresh deferred. */
    method Push(frame: Frame) returns (r: Result<nat, SocketError>)
      requires Valid() && !isClosed
      modifies this
      ensures Inv(old(sendQueue) != []) && !isClosed && closeCalls == old(closeCalls)
      ensures settled == old(settled) && written == old(written)
      ensures r == Ok(|old(log)|) && log == old(log) + [frame]
      ensures sendQueue == old(sendQueue) + [Entry(|old(log)|, frame)]
    {
      var ticket := enqueued;
      enqueued := enqueued + 1;
      ghost var before := log;
      ghost var queue := sendQueue;
      assert (log + [frame])[..|written|] == log[..|written|];
      log := log + [frame];
      assert forall t :: 0 <= t < |before| ==> log[t] == before[t];
      sendQueue := sendQueue + [Entry(ticket, frame)];
      forall i | 0 <= i < |sendQueue|
        ensures sendQueue[i].ticket == |log| - |sendQueue| + i && sendQueue[i].frame == log[|log| - |sendQueue| + i]
      {
        if i < |queue| {
          assert sendQueue[i] == queue[i];
        }
      }
      r := Ok(ticket);
    }

    /** The end of the write of the head entry: its deferred settles with the
        write's outcome, the entry is shifted off, and the next write starts.
        While the socket is closed no write is pending and nothing happens. */
    method CompleteWrite()
      requires Valid()
      modifies this
      ensures Valid() && isClosed == old(isClosed) && log == old(log) && closeCalls == old(closeCalls)
      ensures old(isClosed) || old(sendQueue) == [] ==>
        sendQueue == old(sendQueue) && settled == old(settled) && written == old(written)
      ensures !old(isClosed) && old(sendQueue) != [] ==>
        && settled == old(settled)[old(sendQueue)[0].ticket := WriteOutcome(old(sendQueue)[0].frame)]
        && sendQueue == old(sendQueue)[1..]
        && written == old(written) + if sendQueue != [] then [sendQueue[0].frame] else []
      ensures !old(isClosed) && old(sendQueue) != [] ==>
        && old(sendQueue)[0].ticket == old(Done()) && Done() == old(Done()) + 1
        && settled == old(settled)[old(Done()) := WriteOutcome(log[old(Done())])]
    {
      if isClosed || sendQueue == [] {
        return;
      }
      var head := sendQueue[0];
      settled := settled[head.ticket := WriteOutcome(head.frame)];
      sendQueue := sendQueue[1..];
      Dequeue();
    }

    /** `await d` for the deferred of `ticket`: writes complete in queue order
        until that one has settled. */
    method Await(ticket: nat) returns (s: Settlement)
      requires Valid() && ticket < |log|
      modifies this
      ensures Valid() && isClosed == old(isClosed) && log == old(log) && closeCalls == old(closeCalls)
      ensures ticket in settled && s == settled[ticket]
      ensures forall t :: t in old(settled) ==> t in settled && settled[t] == old(settled)[t]
      ensures forall t :: old(Done()) <= t <= ticket ==> t in settled && settled[t] == WriteOutcome(log[t])
      ensures ticket >= old(Done()) ==> |sendQueue| == |log| - ticket - 1
    {
      ghost var start := Done();
      while ticket !in settled
        invariant Valid() && isClosed == old(isClosed) && log == old(log) && closeCalls == old(closeCalls)
        invariant start <= Done() && (ticket >= start ==> Done() <= ticket + 1)
        invariant forall t :: t in old(settled) ==> settled[t] == old(settled)[t]
        invariant forall t :: start <= t < Done() ==> settled[t] == WriteOutcome(log[t])
        decreases |sendQueue|
      {
        CompleteWrite();
      }
      s := settled[ticket];
    }

    /** `send`: one final frame, text or binary, masked with the socket's key. */
    method Send(data: Data) returns (r: Result<nat, SocketError>)
      requires Valid()
      modifies this
      ensures Valid() && isClosed == old(isClosed) && settled == old(settled)
      ensures var frame := Frame(true, if data.Text? then TextFrame else BinaryFrame, mask,
                                 if data.Text? then data.utf8 else data.bytes);
        if old(isClosed) then r == Err(ConnectionReset) && log == old(log)
        else r == Ok(|old(log)|) && log == old(log) + [frame]
    {
      var opcode := if data.Text? then TextFrame else BinaryFrame;
      var payload := if data.Text? then data.utf8 else data.bytes;
      r := Enqueue(Frame(true, opcode, mask, payload));
    }

    /** `ping(data)`: a final ping frame masked with the socket's key. */
    method SendPing(payload: seq<Byte>) returns (r: Result<nat, SocketError>)
      requires Valid()
      modifies this
      ensures Valid() && isClosed == old(isClosed) && settled == old(settled)
      ensures if old(isClosed) then r == Err(ConnectionReset) && log == old(log)
        else r == Ok(|old(log)|) && log == old(log) + [Frame(true, Ping, mask, payload)]
    {
      r := Enqueue(Frame(true, Ping, mask, payload));
    }

    /** `ensureSocketClosed`: the first call closes the connection, marks the
        socket closed and rejects every entry still queued; later calls do
        nothing. */
    method EnsureSocketClosed()
      requires Valid()
      modifies this
      ensures Valid() && isClosed && sendQueue == [] && log == old(log) && written == old(written)
      ensures old(isClosed) ==> settled == old(settled)
      ensures forall t :: t in old(settled) ==> settled[t] == old(settled)[t]
      ensures forall t :: old(Done()) <= t < |log| ==> t in settled && settled[t] == Rejected(ConnectionReset)
    {
      if isClosed {
        return;
      }
      closeCalls := closeCalls + 1;
      isClosed := true;
      var rest := sendQueue;
      sendQueue := [];
      settled := RejectAll(settled, rest, enqueued - |rest|);
    }

    /** `rest.forEach((e) => e.d.reject(new ConnectionReset(...)))` over
        entries whose tickets run consecutively from `base`. */
    static method RejectAll(deferreds: map<nat, Settlement>, rest: seq<Entry>, base: int)
        returns (m: map<nat, Settlement>)
      requires forall k :: 0 <= k < |rest| ==> rest[k].ticket == base + k
      ensures forall t :: t in m <==> t in deferreds || base <= t < base + |rest|
      ensures forall t :: t in deferreds && !(base <= t < base + |rest|) ==> m[t] == deferreds[t]
      ensures forall t :: base <= t < base + |rest| ==> m[t] == Rejected(ConnectionReset)
    {
      m := deferreds;
      var i := 0;
      while i < |rest|
        invariant 0 <= i <= |rest|
        invariant forall t :: t in m <==> t in deferreds || base <= t < base + i
        invariant forall t :: t in deferreds && !(base <= t < base + i) ==> m[t] == deferreds[t]
        invariant forall t :: base <= t < base + i ==> m[t] == Rejected(ConnectionReset)
      {
        m := m[rest[i].ticket := Rejected(ConnectionReset)];
        i := i + 1;
      }
    }

    /** `close(code = 1000, reason)`: enqueue a close frame, wait for it, and
        close the socket whatever happened; an error of the enqueue or of the
        write is thrown after that. */
    method Close(code: Option<int>, reason: seq<Byte>) returns (err: Option<SocketError>)
      requires Valid()
      modifies this
      ensures Valid() && isClosed && sendQueue == []
      ensures var frame := Frame(true, WsFrame.Close, mask, ClosePayload(code.GetOr(1000), reason));
        if old(isClosed) then err == Some(ConnectionReset) && log == old(log) && settled == old(settled)
        else
          && log == old(log) + [frame]
          && (forall t :: old(Done()) <= t < |log| ==> settled[t] == WriteOutcome(log[t]))
          && err == (if WriteOutcome(frame).Resolved? then None else Some(WriteOutcome(frame).error))
    {
      var frame := Frame(true, WsFrame.Close, mask, ClosePayload(code.GetOr(1000), reason));
      var r := Enqueue(frame);
      if r.Err? {
        err := Some(r.error);
      } else {
        var s := Await(r.value);
        err := if s.Resolved? then None else Some(s.error);
      }
      EnsureSocketClosed();
    }

    /** The iterator's buffer for a complete message: a Uint8Array of the
        summed length, each payload copied in at its offset. */
    static method JoinPayloads(frames: seq<Frame>, payloadsLength: nat) returns (concat: seq<Byte>)
      requires payloadsLength == TotalLength(frames)
      ensures concat == Joined(frames)
    {
      var buf := new Byte[payloadsLength];
      var offs := 0;
      var i := 0;
      while i < |frames|
        invariant 0 <= i <= |frames|
        invariant offs == TotalLength(frames[..i]) <= payloadsLength
        invariant buf[..offs] == Joined(frames[..i])
      {
        TotalLengthSplit(frames, i);
        var p := frames[i].payload;
        CopyInto(buf, offs, p);
        assert frames[..i + 1][..i] == frames[..i];
        assert buf[..offs + |p|] == buf[..offs] + buf[offs..offs + |p|];
        offs := offs + |p|;
        i := i + 1;
      }
      assert frames[..|frames|] == frames;
      concat := buf[..offs];
    }

    /** `buf.set(p, offs)`: copy `p` into `buf` from `offs` on. */
    static method CopyInto(buf: array<Byte>, offs: nat, p: seq<Byte>)
      requires offs + |p| <= buf.Length
      modifies buf
      ensures buf[..offs] == old(buf[..offs]) && buf[offs..offs + |p|] == p
    {
      var j := 0;
      while j < |p|
        invariant 0 <= j <= |p|
        invariant buf[..offs] == old(buf[..offs])
        invariant buf[offs..offs + j] == p[..j]
      {
        buf[offs + j] := p[j];
        j := j + 1;
      }
    }

    /** The async iterator run to its end over the bytes the connection
        delivers: it yields what `Incoming` describes, enqueues its replies,
        and leaves the socket closed. */
    method Receive(input: seq<Byte>) returns (events: seq<Event>, thrown: Option<SocketError>)
      requires Valid()
      modifies this
      ensures Valid() && isClosed
      ensures var rx := if old(isClosed) then Rx([], [], None) else Incoming(input, [], mask);
        events == rx.events && thrown == rx.thrown && log == old(log) + rx.replies
    {
      ghost var total := if isClosed then Rx([], [], None) else Incoming(input, [], mask);
      var frames: seq<Frame> := [];
      var payloadsLength := 0;
      var rest := input;
      events := [];
      thrown := None;
      ghost var replies: seq<Frame> := [];
      ghost var log0 := log;
      while !isClosed
        invariant Valid()
        invariant payloadsLength == TotalLength(frames)
        invariant log == log0 + replies
        invariant !isClosed ==> thrown.None? && total == Prepend(events, replies, Incoming(rest, frames, mask))
        invariant isClosed ==> total == Rx(events, replies, thrown)
        decreases |rest|, if isClosed then 0 else 1
      {
        var read := ReadFrame(rest);
        if read.Err? {
          assert Incoming(rest, frames, mask) == Rx([], [], None);
          assert events + [] == events && replies + [] == replies;
          EnsureSocketClosed();
        } else {
          var f := Unmasked(read.value.frame);
          rest := rest[read.value.consumed..];
          ghost var next := Incoming(rest, NextPending(f, frames), mask);
          assert total == Prepend(events, replies, Handle(f, frames, mask, next));
          ghost var e := Emitted(f, frames, mask);
          ghost var rs := Replies(f, mask);
          var yielded;
          yielded, thrown, frames, payloadsLength := HandleFrame(f, frames, payloadsLength);
          if !Stops(f) {
            PrependTwice(events, replies, e, rs, next);
          }
          events := events + yielded;
          AppendAssoc(log0, replies, rs);
          replies := replies + rs;
        }
      }
    }

    /** A data frame joins the pending fragments; a final one completes the
        message, which is yielded, and empties the list. */
    static method Assemble(f: Frame, frames: seq<Frame>, payloadsLength: nat)
        returns (yielded: seq<Event>, frames': seq<Frame>, payloadsLength': nat)
      requires IsData(f) && payloadsLength == TotalLength(frames)
      ensures yielded == if f.isLastFrame then [Message(frames + [f])] else []
      ensures frames' == NextPending(f, frames) && payloadsLength' == TotalLength(frames')
    {
      TotalLengthSplit(frames + [f], |frames|);
      assert (frames + [f])[..|frames|] == frames;
      frames' := frames + [f];
      payloadsLength' := payloadsLength + |f.payload|;
      yielded := [];
      if f.isLastFrame {
        var concat := JoinPayloads(frames', payloadsLength');
        yielded := [if frames'[0].opcode == TextFrame then TextMessage(concat) else BinaryMessage(concat)];
        frames' := [];
        payloadsLength' := 0;
      }
    }

    /** One pass of the iterator's loop body after a successful read (and the
        unmask): it assembles data frames into messages, answers a close frame
        with `close` and a ping with a pong it waits for. */
    method HandleFrame(f: Frame, frames: seq<Frame>, payloadsLength: nat)
        returns (yielded: seq<Event>, thrown: Option<SocketError>, frames': seq<Frame>, payloadsLength': nat)
      requires Valid() && !isClosed && payloadsLength == TotalLength(frames)
      modifies this
      ensures Valid() && isClosed == Stops(f)
      ensures yielded == Emitted(f, frames, mask) && thrown == ThrownBy(f, mask)
      ensures log == old(log) + Replies(f, mask)
      ensures frames' == NextPending(f, frames) && payloadsLength' == TotalLength(frames')
    {
      frames' := frames;
      payloadsLength' := payloadsLength;
      yielded := [];
      thrown := None;
      if IsData(f) {
        yielded, frames', payloadsLength' := Assemble(f, frames, payloadsLength);
      } else if f.opcode == WsFrame.Close {
        var code := CloseCode(f.payload);
        var reason := CloseReason(f.payload);
        thrown := Close(Some(code), reason);
        if thrown.None? {
          yielded := [CloseEvent(code, reason)];
        }
      } else if f.opcode == Ping {
        var t := Enqueue(Frame(true, Pong, None, f.payload));
        var s := Await(t.value);
        yielded := [PingEvent(f.payload)];
      } else if f.opcode == Pong {
        yielded := [PongEvent(f.payload)];
      }
    }
  }

  lemma AppendAssoc<T>(a: seq<T>, b: seq<T>, c: seq<T>)
    ensures (a + b) + c == a + (b + c)
  {
  }

  lemma PrependTwice(e1: seq<Event>, r1: seq<Frame>, e2: seq<Event>, r2: seq<Frame>, x: Rx)
    ensures Prepend(e1, r1, Prepend(e2, r2, x)) == Prepend(e1 + e2, r1 + r2, x)
  {
    assert e1 + (e2 + x.events) == (e1 + e2) + x.events;
    assert r1 + (r2 + x.replies) == (r1 + r2) + x.replies;
  }

  lemma TotalLengthSplit(frames: seq<Frame>, i: nat)
    requires i < |frames|
    ensures TotalLength(frames[..i + 1]) == TotalLength(frames[..i]) + |frames[i].payload|
    ensures TotalLength(frames[..i + 1]) <= TotalLength(frames)
  {
    assert frames[..i + 1][..i] == frames[..i];
    TotalLengthPrefix(frames, i + 1);
  }

  lemma {:induction false} TotalLengthPrefix(frames: seq<Frame>, n: nat)
    requires n <= |frames|
    ensures TotalLength(frames[..n]) <= TotalLength(frames)
    decreases |frames| - n
  {
    if n < |frames| {
      assert frames[..n + 1][..n] == frames[..n];
      TotalLengthPrefix(frames, n + 1);
    } else {
      assert frames[..n] == frames;
    }
  }
}
