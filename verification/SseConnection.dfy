/**
 The server's end of an event stream: a connection that is alive until a write fails or the
 handler closes it.  A stream handler is a finite decision tree over the results of its own
 calls, so a statement about every tree covers every handler and every pattern of failures.
 */
module SseConnection {
  import opened ByteStrings
  import opened Messages
  import opened HeaderFields
  import opened Transport
  import opened EventStream

  // ---------- The preamble ----------

  /** Status line and three fixed fields, then every header the middleware had set. */
  function PreambleLines(extra: Fields, order: seq<string>): seq<string>
    requires forall k :: k in order ==> k in extra
  {
    ["HTTP/1.1 200 OK",
     FieldLine("Content-Type", "text/event-stream"),
     FieldLine("Cache-Control", "no-cache"),
     FieldLine("Connection", "close")]
    + FieldLines(Printed(ForStream, order), extra)
  }

  function Preamble(extra: Fields, order: seq<string>): (p: string)
    requires forall k :: k in order ==> k in extra
    ensures p != ""
  {
    Unlines(PreambleLines(extra, order)) + CRLF_CRLF
  }

  function FixedPreamble(): string {
    "HTTP/1.1 200 OK" + CRLF
    + FieldLine("Content-Type", "text/event-stream") + CRLF
    + FieldLine("Cache-Control", "no-cache") + CRLF
    + FieldLine("Connection", "close") + CRLF
  }

  lemma PreambleInParts(extra: Fields, order: seq<string>)
    requires forall k :: k in order ==> k in extra
    ensures Preamble(extra, order) ==
            FixedPreamble() + PrintedText(ForStream, order, extra) + CRLF
  {
    FourLinesThen("HTTP/1.1 200 OK", FieldLine("Content-Type", "text/event-stream"),
                  FieldLine("Cache-Control", "no-cache"), FieldLine("Connection", "close"),
                  FieldLines(Printed(ForStream, order), extra));
  }

  method BuildPreamble(extra: Fields, order: seq<string>) returns (preamble: string)
    requires Listing(order, extra)
    ensures preamble == Preamble(extra, order)
  {
    hide FixedPreamble, Preamble, PrintedText;
    preamble := FixedPreamble();
    ghost var start := preamble;
    PrintNothing(ForStream, order[..0], extra);
    for i := 0 to |order|
      invariant preamble == start + PrintedText(ForStream, order[..i], extra)
    {
      PrintOneMore(ForStream, order, extra, i);
      preamble := preamble + (order[i] + ": " + extra[order[i]] + CRLF);
    }
    assert order[..|order|] == order;
    preamble := preamble + CRLF;
    PreambleInParts(extra, order);
  }

  // ---------- The stream as a value ----------

  /**
   Where a stream stands.  `log` is what has been delivered in full, `lost` the event whose write
   failed and `torn` the part of a failed write that got out; `open` says whether this end still
   owns the handle.
   */
  datatype Stream = Stream(alive: bool, open: bool, kernel: Kernel, log: seq<Pair>, torn: string, lost: Option<Pair>)

  function Opened(open: bool, k: Kernel, preamble: string): Stream {
    var p := Pushed(k.sends, preamble);
    if !open then Stream(preamble == "", false, k, [], "", None)
    else Stream(p.ok, true, AfterSend(k, preamble), [], if p.ok then "" else p.sent, None)
  }

  function AfterEvent(s: Stream, event: string, data: string): Stream {
    if !s.alive then s
    else if !s.open then s.(alive := false, lost := Some((event, data)))
    else
      var p := Pushed(s.kernel.sends, Frame(event, data));
      s.(alive := p.ok,
         kernel := AfterSend(s.kernel, Frame(event, data)),
         log := if p.ok then s.log + [(event, data)] else s.log,
         torn := if p.ok then s.torn else p.sent,
         lost := if p.ok then s.lost else Some((event, data)))
  }

  function AfterClose(s: Stream): Stream {
    s.(alive := false, open := false,
       kernel := if s.open then s.kernel.(closes := s.kernel.closes + 1) else s.kernel)
  }

  class SseConnection {
    const connection: Connection
    var alive: bool
    ghost var log: seq<Pair>
    ghost var torn: string
    ghost var lost: Option<Pair>

    /** The stream, seen from a handle `h` that this connection owns or has owned. */
    ghost function View(h: Handle): Stream
      reads this, connection.socket, h
    {
      Stream(alive, connection.socket.fd != null, h.View(), log, torn, lost)
    }

    ghost predicate Over(h: Handle)
      reads this, connection.socket
    {
      connection.socket.fd == null || connection.socket.fd == h
    }

    constructor (source: Connection, extra: Fields, order: seq<string>, ghost h: Handle)
      requires Listing(order, extra)
      requires source.socket.fd == null || source.socket.fd == h
      modifies source.socket, h
      ensures fresh(connection) && fresh(connection.socket) && Over(h) && source.socket.fd == null
      ensures View(h) == Opened(old(source.socket.fd) != null, old(h.View()), Preamble(extra, order))
    {
      var mine := new Connection.MoveFrom(source);
      connection := mine;
      alive, log, torn, lost := false, [], "", None;
      new;
      var preamble := BuildPreamble(extra, order);
      ghost var p := Pushed(h.sends, preamble);
      alive := connection.SendAll(preamble);
      torn := if alive || connection.socket.fd == null then "" else p.sent;
    }

    method Send(event: string, data: string, ghost h: Handle) returns (ok: bool)
      requires Over(h)
      modifies this, h
      ensures Over(h) && View(h) == AfterEvent(old(View(h)), event, data)
      ensures ok == alive
    {
      if !alive {
        return false;
      }
      var frame := BuildFrame(event, data);
      ghost var p := Pushed(h.sends, frame);
      var sent := connection.SendAll(frame);
      if !sent {
        alive := false;
        torn := if connection.socket.fd == null then torn else p.sent;
        lost := Some((event, data));
        return false;
      }
      log := log + [(event, data)];
      return true;
    }

    method Close(ghost h: Handle)
      requires Over(h)
      modifies this, connection.socket, h
      ensures Over(h) && View(h) == AfterClose(old(View(h)))
    {
      connection.Close();
      alive := false;
    }
  }

  // ---------- Handlers ----------

  /** A stream handler: each node is the next thing it does, given how its calls have gone so far. */
  datatype StreamProgram =
    | Return
    | Throw(what: Exception)
    | SendThen(event: string, data: string, sent: StreamProgram, failed: StreamProgram)
    | CloseThen(next: StreamProgram)
    | IfConnected(yes: StreamProgram, no: StreamProgram)

  datatype StreamRun = StreamRun(stream: Stream, thrown: Thrown)

  function Ran(p: StreamProgram, s: Stream): StreamRun {
    match p
    case Return => StreamRun(s, Nothing)
    case Throw(what) => StreamRun(s, what)
    case SendThen(event, data, sent, failed) =>
      var next := AfterEvent(s, event, data);
      Ran(if next.alive then sent else failed, next)
    case CloseThen(next) => Ran(next, AfterClose(s))
    case IfConnected(yes, no) => Ran(if s.alive then yes else no, s)
  }

  /** What a handler learns: `isConnected` is whether the stream is alive, and `send` is true if it still is afterwards. */
  lemma HandlersLearn(s: Stream, event: string, data: string)
    ensures Ran(IfConnected(Throw(StdException), Return), s).thrown == StdException <==> s.alive
    ensures Ran(SendThen(event, data, Throw(StdException), Return), s).thrown == StdException <==>
            s.alive && s.open && Pushed(s.kernel.sends, Frame(event, data)).ok
    ensures !Ran(CloseThen(Return), s).stream.alive
    ensures Ran(Throw(OtherException), s).thrown == OtherException && Ran(Return, s).thrown == Nothing
  {
    hide Pushed, Frame;
  }

  method RunHandler(p: StreamProgram, sse: SseConnection, ghost h: Handle) returns (thrown: Thrown)
    requires sse.Over(h)
    modifies sse, sse.connection.socket, h
    ensures sse.Over(h)
    ensures StreamRun(sse.View(h), thrown) == Ran(p, old(sse.View(h)))
    decreases p
  {
    match p {
      case Return => return Nothing;
      case Throw(what) => return what;
      case SendThen(event, data, sent, failed) =>
        var ok := sse.Send(event, data, h);
        if ok {
          thrown := RunHandler(sent, sse, h);
        } else {
          thrown := RunHandler(failed, sse, h);
        }
      case CloseThen(next) =>
        sse.Close(h);
        thrown := RunHandler(next, sse, h);
      case IfConnected(yes, no) =>
        if sse.alive {
          thrown := RunHandler(yes, sse, h);
        } else {
          thrown := RunHandler(no, sse, h);
        }
    }
  }

  // ---------- What a stream puts on the wire ----------

  /** The preamble did not get out: a proper part of it is all that was written. */
  ghost predicate PartOfPreamble(s: Stream, base: string, preamble: string) {
    !s.alive && s.log == [] && s.lost == None && s.torn < preamble && s.kernel.written == base + s.torn
  }

  /** The preamble, the frames of the successful sends in order, and of the one that failed a proper part. */
  ghost predicate PreambleAndFrames(s: Stream, base: string, preamble: string) {
    && s.kernel.written == base + preamble + Frames(s.log) + s.torn
    && match s.lost
       case None => s.torn == ""
       case Some(event) => !s.alive && s.torn < Frame(event.0, event.1)
  }

  ghost predicate WellFormed(s: Stream, base: string, preamble: string) {
    && (s.alive ==> s.open)
    && (PartOfPreamble(s, base, preamble) || PreambleAndFrames(s, base, preamble))
  }

  lemma OpenedIsWellFormed(open: bool, k: Kernel, preamble: string)
    requires preamble != ""
    ensures WellFormed(Opened(open, k, preamble), k.written, preamble)
  {
    hide Pushed;
    var s := Opened(open, k, preamble);
    assert Frames([]) == "";
    if s.alive {
      assert k.written + preamble == k.written + preamble + "" + "";
    } else {
      assert k.written + "" == k.written;
    }
  }

  lemma EventKeepsWellFormed(s: Stream, base: string, preamble: string, event: string, data: string)
    requires WellFormed(s, base, preamble)
    ensures WellFormed(AfterEvent(s, event, data), base, preamble)
  {
    hide Pushed, Frame;
    if s.alive {
      var frame := Frame(event, data);
      var p := Pushed(s.kernel.sends, frame);
      var front := base + preamble + Frames(s.log);
      assert s.kernel.written == front + "" == front;
      if p.ok {
        FramesSnoc(s.log, (event, data));
        assert front + frame == base + preamble + (Frames(s.log) + frame) + "";
      } else {
        assert p.sent < frame;
      }
    }
  }

  /** Whatever the handler does, the wire shows the preamble and whole frames, and a part of the one that failed. */
  lemma {:induction false} RunIsWellFormed(p: StreamProgram, s: Stream, base: string, preamble: string)
    requires WellFormed(s, base, preamble)
    ensures WellFormed(Ran(p, s).stream, base, preamble)
    decreases p
  {
    hide WellFormed, AfterEvent, AfterClose;
    match p
    case Return =>
    case Throw(_) =>
    case SendThen(event, data, sent, failed) =>
      EventKeepsWellFormed(s, base, preamble, event, data);
      var next := AfterEvent(s, event, data);
      RunIsWellFormed(if next.alive then sent else failed, next, base, preamble);
    case CloseThen(next) =>
      CloseKeepsWellFormed(s, base, preamble);
      RunIsWellFormed(next, AfterClose(s), base, preamble);
    case IfConnected(yes, no) =>
      RunIsWellFormed(if s.alive then yes else no, s, base, preamble);
  }

  lemma CloseKeepsWellFormed(s: Stream, base: string, preamble: string)
    requires WellFormed(s, base, preamble)
    ensures WellFormed(AfterClose(s), base, preamble)
  {
  }

  /** The events a run tries to send while the stream is alive. */
  function Attempted(p: StreamProgram, s: Stream): seq<Pair> {
    match p
    case Return => []
    case Throw(_) => []
    case SendThen(event, data, sent, failed) =>
      var next := AfterEvent(s, event, data);
      (if s.alive then [(event, data)] else []) + Attempted(if next.alive then sent else failed, next)
    case CloseThen(next) => Attempted(next, AfterClose(s))
    case IfConnected(yes, no) => Attempted(if s.alive then yes else no, s)
  }

  function Told(s: Stream): seq<Pair> {
    s.log + match s.lost case None => [] case Some(event) => [event]
  }

  /** The events a run tries to send are those delivered in full and, behind them, at most the one that failed. */
  lemma {:induction false} AttemptsAreTold(p: StreamProgram, s: Stream)
    requires s.alive ==> s.lost == None
    ensures Told(Ran(p, s).stream) == Told(s) + Attempted(p, s)
    decreases p
  {
    hide Frame, Pushed;
    match p
    case Return =>
    case Throw(_) =>
    case SendThen(event, data, sent, failed) =>
      var next := AfterEvent(s, event, data);
      AttemptsAreTold(if next.alive then sent else failed, next);
      assert Told(next) == Told(s) + (if s.alive then [(event, data)] else []);
    case CloseThen(next) => AttemptsAreTold(next, AfterClose(s));
    case IfConnected(yes, no) => AttemptsAreTold(if s.alive then yes else no, s);
  }

  /** A dead stream never comes back, and nothing more is written on it. */
  lemma {:induction false} DeadStaysDead(p: StreamProgram, s: Stream)
    requires !s.alive
    ensures var t := Ran(p, s).stream;
            && !t.alive && t.log == s.log && t.torn == s.torn && t.lost == s.lost
            && t.kernel.written == s.kernel.written && t.kernel.sends == s.kernel.sends
    decreases p
  {
    match p
    case Return =>
    case Throw(_) =>
    case SendThen(event, data, sent, failed) => DeadStaysDead(failed, s);
    case CloseThen(next) => DeadStaysDead(next, AfterClose(s));
    case IfConnected(yes, no) => DeadStaysDead(no, s);
  }

  /** Ownership: whatever the handler does, the handle has been closed once more exactly if it was given up. */
  lemma {:induction false} ClosedOncePerOwner(p: StreamProgram, s: Stream)
    ensures var t := Ran(p, s).stream;
            && (t.open ==> s.open && t.kernel.closes == s.kernel.closes)
            && (s.open && !t.open ==> t.kernel.closes == s.kernel.closes + 1)
            && (!s.open ==> t.kernel.closes == s.kernel.closes)
    decreases p
  {
    match p
    case Return =>
    case Throw(_) =>
    case SendThen(event, data, sent, failed) =>
      var next := AfterEvent(s, event, data);
      ClosedOncePerOwner(if next.alive then sent else failed, next);
    case CloseThen(next) => ClosedOncePerOwner(next, AfterClose(s));
    case IfConnected(yes, no) => ClosedOncePerOwner(if s.alive then yes else no, s);
  }
}
