/**
 * The per-connection session `QuicBiDirectionalStream`: an optional handshake
 * write (the connecting side), then a loop that reads one frame, asks the
 * protocol for a response and writes that response, if any.
 *
 * The receive stream is a script of read results that the session consumes
 * from the front; an exhausted script reads as an error. The send stream is a
 * script of write outcomes (an exhausted one fails every write). Every read and
 * every write the session performs is appended to a trace, so the order of the
 * I/O can be stated.
 */
module Quic {
  import opened Common
  import opened Protocol

  /** One result of `read_to_end` on the receive stream. */
  datatype ReadResult = Frame(bytes: Bytes) | ReadErr

  /** One I/O action of the session, in the order it was performed. */
  datatype Io = Read(result: ReadResult) | Write(bytes: Bytes, ok: bool)

  /** The three failures `message_received` reports. */
  datatype ReceiveError = SendFailed | SerializeFailed | ConstructFailed
  {
    function Text(): string
    {
      match this
      case SendFailed => "Send failed: Closing peer connection"
      case SerializeFailed => "Error serializing: Closing peer connection"
      case ConstructFailed => "Error constructing response: Closing peer connection"
    }
  }

  /** How one call of `message_received` ends; `DecodePanic` is the `unwrap` of `from_bytes` failing. */
  datatype Received = Handled | Rejected(error: ReceiveError) | DecodePanic

  /**
   * The errors a session start returns. The first is the stream's own write error, passed on
   * by `?`; the program gives it no text of its own, so `Text` gives a label in angle brackets.
   */
  datatype SessionError =
    | HandshakeSendFailed    // the `write_all` of the handshake failed and `?` returned it
    | PeerClosedConnection   // `message_received` failed
    | ErrorReceivingStream   // the read failed
  {
    function Text(): string
    {
      match this
      case HandshakeSendFailed => "<the send stream's write error>"
      case PeerClosedConnection => "peer closed connection"
      case ErrorReceivingStream => "error receiving stream"
    }
  }

  /** The `unwrap` calls that abort the session's task. */
  datatype PanicSite = HandshakeStart | HandshakeAsBytes | FromBytes

  /** How a session start ends: `Ok(())`, `Err(e)`, or a panic. */
  datatype Exit = Completed | Failed(error: SessionError) | Panicked(site: PanicSite)

  /** What happened on the stream pair during a run, how it ended, and what is left of both scripts. */
  datatype Run = Run(trace: seq<Io>, exit: Exit, reader: seq<ReadResult>, sendResults: seq<bool>)

  /** The outcome of one `message_received`: the writes it made, its result, the write outcomes left. */
  datatype Step = Step(writes: seq<Io>, result: Received, sendResults: seq<bool>)

  /** The next result of the receive stream; an exhausted script is a read error. */
  function NextRead(reader: seq<ReadResult>): ReadResult
  {
    if reader == [] then ReadErr else reader[0]
  }

  /** Whether the next write succeeds; an exhausted script fails it. */
  function NextWriteOk(sendResults: seq<bool>): bool
  {
    sendResults != [] && sendResults[0]
  }

  function Drop<T>(s: seq<T>): seq<T>
  {
    if s == [] then [] else s[1..]
  }

  /** `from_bytes` succeeds on the frame. */
  predicate Decodes(c: Codec, frame: Bytes)
  {
    c.fromBytes(frame).Some?
  }

  /** The serialised response the protocol gives for a frame, if it gives one and it serialises. */
  function Response(c: Codec, frame: Bytes): Option<Bytes>
  {
    match c.fromBytes(frame)
    case None => None
    case Some(m) =>
      match c.responseFor(m)
      case Respond(resp) => c.asBytes(resp)
      case _ => None
  }

  /** `message_received` on one frame, with the given write outcomes pending. */
  function Receive(c: Codec, frame: Bytes, sendResults: seq<bool>): Step
  {
    match c.fromBytes(frame)
    case None => Step([], DecodePanic, sendResults)
    case Some(m) =>
      match c.responseFor(m)
      case DispatchErr => Step([], Rejected(ConstructFailed), sendResults)
      case NoResponse => Step([], Handled, sendResults)
      case Respond(resp) =>
        match c.asBytes(resp)
        case None => Step([], Rejected(SerializeFailed), sendResults)
        case Some(b) =>
          var ok := NextWriteOk(sendResults);
          Step([Write(b, ok)], if ok then Handled else Rejected(SendFailed), Drop(sendResults))
  }

  /** The outcome table of `message_received`. */
  lemma ReceiveTable(c: Codec, frame: Bytes, sendResults: seq<bool>)
    // at most one write, and it carries exactly the serialised response
    ensures Receive(c, frame, sendResults).writes == if Response(c, frame).Some? then [Write(Response(c, frame).value, NextWriteOk(sendResults))] else []
    ensures Receive(c, frame, sendResults).sendResults == if Receive(c, frame, sendResults).writes == [] then sendResults else Drop(sendResults)
    // the outcome table
    ensures Receive(c, frame, sendResults).result == DecodePanic <==> !Decodes(c, frame)
    ensures Receive(c, frame, sendResults).result == Rejected(ConstructFailed) <==>
              Decodes(c, frame) && c.responseFor(c.fromBytes(frame).value).DispatchErr?
    ensures Receive(c, frame, sendResults).result == Rejected(SerializeFailed) <==>
              Decodes(c, frame) && c.responseFor(c.fromBytes(frame).value).Respond? &&
              c.asBytes(c.responseFor(c.fromBytes(frame).value).response).None?
    ensures Receive(c, frame, sendResults).result == Rejected(SendFailed) <==> Response(c, frame).Some? && !NextWriteOk(sendResults)
    ensures Receive(c, frame, sendResults).result == Handled <==>
              Decodes(c, frame) &&
              (c.responseFor(c.fromBytes(frame).value).NoResponse? ||
               (Response(c, frame).Some? && NextWriteOk(sendResults)))
    // the text each rejection reports
    ensures var r := Receive(c, frame, sendResults).result;
            r.Rejected? ==>
              (r.error.Text() == "Error constructing response: Closing peer connection" <==>
                 c.responseFor(c.fromBytes(frame).value).DispatchErr?) &&
              (r.error.Text() == "Error serializing: Closing peer connection" <==>
                 c.responseFor(c.fromBytes(frame).value).Respond? &&
                 c.asBytes(c.responseFor(c.fromBytes(frame).value).response).None?) &&
              (r.error.Text() == "Send failed: Closing peer connection" <==>
                 Response(c, frame).Some? && !NextWriteOk(sendResults))
  {
  }

  /** The run `r` with `done` performed before it. */
  function After(done: seq<Io>, r: Run): Run
  {
    Run(done + r.trace, r.exit, r.reader, r.sendResults)
  }

  /** `start_read_loop` on the given scripts. */
  function Loop(c: Codec, reader: seq<ReadResult>, sendResults: seq<bool>): (r: Run)
    decreases |reader|
    // the first action is a read: nothing is written before it
    ensures r.trace != [] && r.trace[0] == Read(NextRead(reader))
    // the loop never returns `Ok`
    ensures r.exit == Failed(ErrorReceivingStream) || r.exit == Failed(PeerClosedConnection) ||
            r.exit == Panicked(FromBytes)
  {
    match NextRead(reader)
    case ReadErr => Run([Read(ReadErr)], Failed(ErrorReceivingStream), Drop(reader), sendResults)
    case Frame(f) =>
      var s := Receive(c, f, sendResults);
      var done := [Read(Frame(f))] + s.writes;
      match s.result
      case Handled => After(done, Loop(c, reader[1..], s.sendResults))
      case Rejected(_) => Run(done, Failed(PeerClosedConnection), reader[1..], s.sendResults)
      case DecodePanic => Run(done, Panicked(FromBytes), reader[1..], s.sendResults)
  }

  /** One handled frame: the loop goes on with the rest of both scripts. */
  lemma LoopContinues(c: Codec, reader: seq<ReadResult>, sendResults: seq<bool>, f: Bytes)
    requires NextRead(reader) == Frame(f) && Receive(c, f, sendResults).result == Handled
    ensures reader != []
    ensures Loop(c, reader, sendResults) ==
            After([Read(Frame(f))] + Receive(c, f, sendResults).writes,
                  Loop(c, reader[1..], Receive(c, f, sendResults).sendResults))
  {
  }

  /** One frame that is not handled: the loop ends with it. */
  lemma LoopStops(c: Codec, reader: seq<ReadResult>, sendResults: seq<bool>, f: Bytes)
    requires NextRead(reader) == Frame(f) && !Receive(c, f, sendResults).result.Handled?
    ensures reader != []
    ensures var s := Receive(c, f, sendResults);
            Loop(c, reader, sendResults) ==
            Run([Read(Frame(f))] + s.writes,
                if s.result.DecodePanic? then Panicked(FromBytes) else Failed(PeerClosedConnection),
                reader[1..], s.sendResults)
  {
  }

  /** The read loop, `done` into `whole`, reads an error: `whole` ends there. */
  lemma LoopEndsOnReadErr(c: Codec, whole: Run, done: seq<Io>, reader: seq<ReadResult>, sendResults: seq<bool>)
    requires whole == After(done, Loop(c, reader, sendResults)) && NextRead(reader) == ReadErr
    ensures whole == Run(done + [Read(ReadErr)], Failed(ErrorReceivingStream), Drop(reader), sendResults)
  {
  }

  /** The read loop, `done` into `whole`, reads a frame it does not handle: `whole` ends there. */
  lemma LoopEndsOnFrame(c: Codec, whole: Run, done: seq<Io>, reader: seq<ReadResult>, sendResults: seq<bool>, f: Bytes)
    requires whole == After(done, Loop(c, reader, sendResults))
    requires NextRead(reader) == Frame(f) && !Receive(c, f, sendResults).result.Handled?
    ensures reader != []
    ensures var s := Receive(c, f, sendResults);
            whole == Run(done + ([Read(Frame(f))] + s.writes),
                         if s.result.DecodePanic? then Panicked(FromBytes) else Failed(PeerClosedConnection),
                         reader[1..], s.sendResults)
  {
    LoopStops(c, reader, sendResults, f);
  }

  /** The read loop, `done` into `whole`, handles a frame: `whole` goes on with the rest of both scripts. */
  lemma LoopGoesOn(c: Codec, whole: Run, done: seq<Io>, reader: seq<ReadResult>, sendResults: seq<bool>, f: Bytes)
    requires whole == After(done, Loop(c, reader, sendResults))
    requires NextRead(reader) == Frame(f) && Receive(c, f, sendResults).result.Handled?
    ensures reader != []
    ensures var s := Receive(c, f, sendResults);
            whole == After(done + ([Read(Frame(f))] + s.writes), Loop(c, reader[1..], s.sendResults))
  {
    var s := Receive(c, f, sendResults);
    LoopContinues(c, reader, sendResults, f);
    AfterAfter(done, [Read(Frame(f))] + s.writes, Loop(c, reader[1..], s.sendResults));
  }

  lemma Regroup3(a: seq<Io>, b: seq<Io>, c: seq<Io>)
    ensures (a + b) + c == a + (b + c)
  {
  }

  lemma Regroup4(a: seq<Io>, b: seq<Io>, c: seq<Io>, d: seq<Io>)
    ensures ((a + b) + c) + d == a + (b + (c + d))
  {
  }

  lemma AfterAfter(a: seq<Io>, b: seq<Io>, r: Run)
    ensures After(a, After(b, r)) == After(a + b, r)
  {
    assert a + (b + r.trace) == (a + b) + r.trace;
  }

  function WriteOf(e: Io): seq<Bytes>
  {
    if e.Write? then [e.bytes] else []
  }

  function FrameOf(e: Io): seq<Bytes>
  {
    if e.Read? && e.result.Frame? then [e.result.bytes] else []
  }

  function ReadOf(e: Io): seq<ReadResult>
  {
    if e.Read? then [e.result] else []
  }

  /** The serialised response to a frame, as a sequence of zero or one frames. */
  function ResponseOf(c: Codec): Bytes -> seq<Bytes>
  {
    f => if Response(c, f).Some? then [Response(c, f).value] else []
  }

  /** The frames handed to the send stream, in order. */
  function Written(trace: seq<Io>): seq<Bytes>
  {
    Gather(WriteOf, trace)
  }

  /** The frames read from the receive stream, in order. */
  function FramesRead(trace: seq<Io>): seq<Bytes>
  {
    Gather(FrameOf, trace)
  }

  /** The results the read loop consumed, in order. */
  function ReadsOf(trace: seq<Io>): seq<ReadResult>
  {
    Gather(ReadOf, trace)
  }

  /** The serialised responses the protocol gives for the frames, in order, skipping frames with none. */
  function Responses(c: Codec, frames: seq<Bytes>): seq<Bytes>
  {
    Gather(ResponseOf(c), frames)
  }

  /** Each write is caused by the read just before it: the frame read has exactly that serialised response. */
  ghost predicate Causal(c: Codec, trace: seq<Io>)
  {
    forall i :: 0 <= i < |trace| && trace[i].Write? ==>
      0 < i && trace[i - 1].Read? && trace[i - 1].result.Frame? &&
      Response(c, trace[i - 1].result.bytes) == Some(trace[i].bytes)
  }

  /**
   * Every write of the read loop answers the frame read immediately before it, so each read
   * causes at most one write and no write happens before the first read.
   */
  lemma {:induction false} LoopCausal(c: Codec, reader: seq<ReadResult>, sendResults: seq<bool>)
    ensures Causal(c, Loop(c, reader, sendResults).trace)
    decreases |reader|
  {
    match NextRead(reader)
    case ReadErr =>
    case Frame(f) =>
      var s := Receive(c, f, sendResults);
      ReceiveTable(c, f, sendResults);
      var done := [Read(Frame(f))] + s.writes;
      assert Causal(c, done);
      if s.result.Handled? {
        var rest := Loop(c, reader[1..], s.sendResults);
        LoopCausal(c, reader[1..], s.sendResults);
        var t := done + rest.trace;
        forall i | 0 <= i < |t| && t[i].Write?
          ensures 0 < i && t[i - 1].Read? && t[i - 1].result.Frame? &&
                  Response(c, t[i - 1].result.bytes) == Some(t[i].bytes)
        {
          if i >= |done| {
            assert t[i] == rest.trace[i - |done|];
            assert i - |done| > 0;
            assert t[i - 1] == rest.trace[i - 1 - |done|];
          }
        }
      }
  }

  /** The frames written by the read loop are the protocol's responses to the frames it read, in read order. */
  lemma {:induction false} LoopWritesResponses(c: Codec, reader: seq<ReadResult>, sendResults: seq<bool>)
    ensures var t := Loop(c, reader, sendResults).trace;
            Written(t) == Responses(c, FramesRead(t))
    decreases |reader|
  {
    match NextRead(reader)
    case ReadErr =>
      GatherSingle(WriteOf, Read(ReadErr));
      GatherSingle(FrameOf, Read(ReadErr));
    case Frame(f) =>
      var s := Receive(c, f, sendResults);
      ReceiveTable(c, f, sendResults);
      var done := [Read(Frame(f))] + s.writes;
      StepGathers(c, f, sendResults);
      if s.result.Handled? {
        var rest := Loop(c, reader[1..], s.sendResults);
        LoopWritesResponses(c, reader[1..], s.sendResults);
        GatherAppend(WriteOf, done, rest.trace);
        GatherAppend(FrameOf, done, rest.trace);
        GatherAppend(ResponseOf(c), FramesRead(done), FramesRead(rest.trace));
      }
  }

  /** `message_received` fails on the frame whatever the write outcome: it is refused, or its decoding panics. */
  predicate Refused(c: Codec, frame: Bytes)
  {
    Decodes(c, frame) &&
    match c.responseFor(c.fromBytes(frame).value)
    case DispatchErr => true
    case NoResponse => false
    case Respond(m) => c.asBytes(m).None?
  }

  /**
   * How the read loop ends is decided by its last action alone: a failed read ends it with
   * "error receiving stream"; a failed write, a refused response or a response that does not
   * serialise all end it with the same "peer closed connection"; an undecodable frame panics.
   */
  lemma {:induction false} LoopExitCause(c: Codec, reader: seq<ReadResult>, sendResults: seq<bool>)
    ensures var r := Loop(c, reader, sendResults);
            var last := r.trace[|r.trace| - 1];
            (r.exit == Failed(ErrorReceivingStream) <==> last == Read(ReadErr)) &&
            (r.exit == Failed(PeerClosedConnection) <==>
               (last.Write? && !last.ok) || (last.Read? && last.result.Frame? && Refused(c, last.result.bytes))) &&
            (r.exit == Panicked(FromBytes) <==>
               last.Read? && last.result.Frame? && !Decodes(c, last.result.bytes))
    decreases |reader|
  {
    match NextRead(reader)
    case ReadErr =>
    case Frame(f) =>
      var s := Receive(c, f, sendResults);
      ReceiveTable(c, f, sendResults);
      if s.result.Handled? {
        var rest := Loop(c, reader[1..], s.sendResults);
        LoopExitCause(c, reader[1..], s.sendResults);
        var done := [Read(Frame(f))] + s.writes;
        assert Loop(c, reader, sendResults).trace == done + rest.trace;
        assert (done + rest.trace)[|done + rest.trace| - 1] == rest.trace[|rest.trace| - 1];
      }
  }

  /**
   * The error text the read loop returns: "error receiving stream" exactly when its last action
   * is a failed read, "peer closed connection" exactly when `message_received` failed.
   */
  lemma LoopExitText(c: Codec, reader: seq<ReadResult>, sendResults: seq<bool>)
    ensures var r := Loop(c, reader, sendResults);
            var last := r.trace[|r.trace| - 1];
            (r.exit.Failed? <==> !(last.Read? && last.result.Frame? && !Decodes(c, last.result.bytes))) &&
            (r.exit.Failed? ==>
               (r.exit.error.Text() == "error receiving stream" <==> last == Read(ReadErr)) &&
               (r.exit.error.Text() == "peer closed connection" <==>
                  (last.Write? && !last.ok) || (last.Read? && last.result.Frame? && Refused(c, last.result.bytes))))
  {
    LoopExitCause(c, reader, sendResults);
  }

  /** One `message_received` step reads just its frame and writes just that frame's response. */
  lemma StepGathers(c: Codec, f: Bytes, sendResults: seq<bool>)
    ensures var done := [Read(Frame(f))] + Receive(c, f, sendResults).writes;
            ReadsOf(done) == [Frame(f)] && FramesRead(done) == [f] &&
            Written(done) == ResponseOf(c)(f) == Responses(c, [f])
  {
    var w := Receive(c, f, sendResults).writes;
    ReceiveTable(c, f, sendResults);
    var head := [Read(Frame(f))];
    GatherAppend(ReadOf, head, w);
    GatherAppend(FrameOf, head, w);
    GatherAppend(WriteOf, head, w);
    GatherSingle(ReadOf, Read(Frame(f)));
    GatherSingle(FrameOf, Read(Frame(f)));
    GatherSingle(WriteOf, Read(Frame(f)));
    GatherSingle(ResponseOf(c), f);
    if w != [] {
      GatherSingle(ReadOf, w[0]);
      GatherSingle(FrameOf, w[0]);
      GatherSingle(WriteOf, w[0]);
    }
  }

  /**
   * The read loop consumes the receive stream in order, from the front: the i-th result it
   * read is the i-th of the script (an error once the script is exhausted), and what is left
   * of the script is exactly what it did not read.
   */
  lemma {:induction false} LoopConsumesInOrder(c: Codec, reader: seq<ReadResult>, sendResults: seq<bool>)
    ensures var r := Loop(c, reader, sendResults);
            var got := ReadsOf(r.trace);
            1 <= |got| <= |reader| + 1 &&
            (forall i :: 0 <= i < |got| ==> got[i] == NextRead(reader[i..])) &&
            r.reader == (if |got| <= |reader| then reader[|got|..] else [])
    decreases |reader|
  {
    var r := Loop(c, reader, sendResults);
    match NextRead(reader)
    case ReadErr =>
      GatherSingle(ReadOf, Read(ReadErr));
    case Frame(f) =>
      var s := Receive(c, f, sendResults);
      var done := [Read(Frame(f))] + s.writes;
      StepGathers(c, f, sendResults);
      if s.result.Handled? {
        var rest := Loop(c, reader[1..], s.sendResults);
        LoopConsumesInOrder(c, reader[1..], s.sendResults);
        GatherAppend(ReadOf, done, rest.trace);
        var got := ReadsOf(r.trace);
        assert got == [Frame(f)] + ReadsOf(rest.trace);
        forall i | 0 <= i < |got|
          ensures got[i] == NextRead(reader[i..])
        {
          if i > 0 {
            assert reader[1..][i - 1..] == reader[i..];
          }
        }
        if |got| <= |reader| {
          assert reader[1..][|got| - 1..] == reader[|got|..];
        }
      } else {
        assert r.trace == done;
      }
  }

  /** The read loop reads on only after a frame: every result it read but the last is a frame. */
  lemma {:induction false} LoopStopsAtFailedRead(c: Codec, reader: seq<ReadResult>, sendResults: seq<bool>)
    ensures var got := ReadsOf(Loop(c, reader, sendResults).trace);
            forall i :: 0 <= i < |got| - 1 ==> got[i].Frame?
    decreases |reader|
  {
    var r := Loop(c, reader, sendResults);
    match NextRead(reader)
    case ReadErr =>
      GatherSingle(ReadOf, Read(ReadErr));
    case Frame(f) =>
      var s := Receive(c, f, sendResults);
      var done := [Read(Frame(f))] + s.writes;
      StepGathers(c, f, sendResults);
      if s.result.Handled? {
        var rest := Loop(c, reader[1..], s.sendResults);
        LoopStopsAtFailedRead(c, reader[1..], s.sendResults);
        LoopContinues(c, reader, sendResults, f);
        assert r.trace == done + rest.trace;
        GatherAppend(ReadOf, done, rest.trace);
        var got, more := ReadsOf(r.trace), ReadsOf(rest.trace);
        assert got == [Frame(f)] + more;
        forall i | 0 <= i < |got| - 1
          ensures got[i].Frame?
        {
          if i > 0 {
            assert got[i] == more[i - 1];
          }
        }
      } else {
        LoopStops(c, reader, sendResults, f);
        assert r.trace == done;
      }
  }

  /** `start_from_connect(addr)` on the given scripts. */
  function Connect(c: Codec, addr: SocketAddr, reader: seq<ReadResult>, sendResults: seq<bool>): (r: Run)
    ensures c.handshakeStart(addr).None? ==> r.exit == Panicked(HandshakeStart) && r.trace == []
    ensures c.handshakeStart(addr).Some? && c.asBytes(c.handshakeStart(addr).value).None? ==>
              r.exit == Panicked(HandshakeAsBytes) && r.trace == []
    // when the handshake serialises, it is the first action
    ensures c.handshakeStart(addr).Some? && c.asBytes(c.handshakeStart(addr).value).Some? ==>
              r.trace != [] && r.trace[0] == Write(c.asBytes(c.handshakeStart(addr).value).value, NextWriteOk(sendResults))
    // a failed handshake write returns its error and got nothing
    ensures r.exit == Failed(HandshakeSendFailed) <==> (|r.trace| == 1 && r.trace[0].Write? && !r.trace[0].ok)
    ensures r.exit == Failed(HandshakeSendFailed) ==> r.reader == reader
    // a successful one is followed by exactly the read loop
    ensures r.trace != [] && r.trace[0].Write? && r.trace[0].ok ==>
              r == After([r.trace[0]], Loop(c, reader, Drop(sendResults)))
    ensures !r.exit.Completed?
  {
    match c.handshakeStart(addr)
    case None => Run([], Panicked(HandshakeStart), reader, sendResults)
    case Some(m) =>
      match c.asBytes(m)
      case None => Run([], Panicked(HandshakeAsBytes), reader, sendResults)
      case Some(b) =>
        if NextWriteOk(sendResults) then
          After([Write(b, true)], Loop(c, reader, Drop(sendResults)))
        else
          Run([Write(b, false)], Failed(HandshakeSendFailed), reader, Drop(sendResults))
  }

  /** A session: a receive stream and a send stream, owned exclusively. */
  class QuicBiDirectionalStream {
    /** The protocol collaborator the session dispatches to. */
    const codec: Codec
    /** What the receive stream still has to deliver. */
    var reader: seq<ReadResult>
    /** The outcomes of the writes still to come on the send stream. */
    var sendResults: seq<bool>
    /** Every read and write performed so far, in order. */
    var trace: seq<Io>

    /** `new(reader, writer)`: a fresh session that has performed no I/O. */
    constructor (codec: Codec, reader: seq<ReadResult>, sendResults: seq<bool>)
      ensures this.codec == codec && this.reader == reader && this.sendResults == sendResults
      ensures trace == []
    {
      this.codec := codec;
      this.reader := reader;
      this.sendResults := sendResults;
      trace := [];
    }

    /** `reader.read_to_end(..)`: the next frame, or an error. */
    method ReadToEnd() returns (r: ReadResult)
      modifies this
      ensures r == NextRead(old(reader)) && reader == Drop(old(reader))
      ensures trace == old(trace) + [Read(r)] && sendResults == old(sendResults)
    {
      r := NextRead(reader);
      reader := Drop(reader);
      trace := trace + [Read(r)];
    }

    /** `writer.write(..)` / `writer.write_all(..)`: hands `bytes` to the send stream. */
    method WriteFrame(bytes: Bytes) returns (ok: bool)
      modifies this
      ensures ok == NextWriteOk(old(sendResults)) && sendResults == Drop(old(sendResults))
      ensures trace == old(trace) + [Write(bytes, ok)] && reader == old(reader)
    {
      ok := NextWriteOk(sendResults);
      sendResults := Drop(sendResults);
      trace := trace + [Write(bytes, ok)];
    }

    /** `message_received`: dispatch one frame and write the response, if any. */
    method MessageReceived(frame: Bytes) returns (res: Received)
      modifies this
      ensures var s := Receive(codec, frame, old(sendResults));
              res == s.result && trace == old(trace) + s.writes &&
              sendResults == s.sendResults && reader == old(reader)
    {
      match codec.fromBytes(frame)
      case None =>
        return DecodePanic;
      case Some(message) =>
        match codec.responseFor(message)
        case DispatchErr =>
          return Rejected(ConstructFailed);
        case NoResponse =>
          return Handled;
        case Respond(response) =>
          match codec.asBytes(response)
          case None =>
            return Rejected(SerializeFailed);
          case Some(toSend) =>
            var ok := WriteFrame(toSend);
            if !ok {
              return Rejected(SendFailed);
            }
            return Handled;
    }

    /** `start_read_loop`: read, dispatch and answer until something fails. */
    method StartReadLoop() returns (exit: Exit)
      modifies this
      ensures var r := Loop(codec, old(reader), old(sendResults));
              exit == r.exit && trace == old(trace) + r.trace &&
              reader == r.reader && sendResults == r.sendResults
    {
      ghost var whole := Loop(codec, reader, sendResults);
      ghost var done: seq<Io> := [];
      ghost var start := trace;
      while true
        invariant trace == start + done
        invariant whole == After(done, Loop(codec, reader, sendResults))
        decreases |reader|
      {
        ghost var r0, s0 := reader, sendResults;
        var r := ReadToEnd();
        match r
        case ReadErr =>
          LoopEndsOnReadErr(codec, whole, done, r0, s0);
          Regroup3(start, done, [Read(ReadErr)]);
          return Failed(ErrorReceivingStream);
        case Frame(msg) =>
          var res := MessageReceived(msg);
          if !res.Handled? {
            LoopEndsOnFrame(codec, whole, done, r0, s0, msg);
            Regroup4(start, done, [Read(Frame(msg))], Receive(codec, msg, s0).writes);
            if res.DecodePanic? {
              return Panicked(FromBytes);
            }
            return Failed(PeerClosedConnection);
          }
          LoopGoesOn(codec, whole, done, r0, s0, msg);
          Regroup4(start, done, [Read(Frame(msg))], Receive(codec, msg, s0).writes);
          done := done + ([Read(Frame(msg))] + Receive(codec, msg, s0).writes);
      }
    }

    /** `start_from_accept`: exactly the read loop, so nothing is written before the first read. */
    method StartFromAccept() returns (exit: Exit)
      modifies this
      ensures var r := Loop(codec, old(reader), old(sendResults));
              exit == r.exit && trace == old(trace) + r.trace &&
              reader == r.reader && sendResults == r.sendResults
    {
      exit := StartReadLoop();
    }

    /** `start_from_connect(addr)`: write the handshake, then run the read loop. */
    method StartFromConnect(addr: SocketAddr) returns (exit: Exit)
      modifies this
      ensures var r := Connect(codec, addr, old(reader), old(sendResults));
              exit == r.exit && trace == old(trace) + r.trace &&
              reader == r.reader && sendResults == r.sendResults
    {
      match codec.handshakeStart(addr)
      case None =>
        return Panicked(HandshakeStart);
      case Some(message) =>
        match codec.asBytes(message)
        case None =>
          return Panicked(HandshakeAsBytes);
        case Some(bytes) =>
          ghost var before := trace;
          var ok := WriteFrame(bytes);
          if !ok {
            return Failed(HandshakeSendFailed);
          }
          ghost var rest := Loop(codec, reader, sendResults);
          exit := StartReadLoop();
          Regroup3(before, [Write(bytes, true)], rest.trace);
    }
  }
}
