/**
 One connection from accept to close: the intake, the parser, the chain, the answer, and the
 error paths, with the objects the code uses.  The methods compute `Served`; the theorem
 about `Served` is that exactly one message goes out and the handle is closed exactly once.
 */
module Server {
  import opened ByteStrings
  import opened Messages
  import opened HttpParser
  import opened HttpSerializer
  import opened Transport
  import opened RequestIntake
  import opened SseConnection
  import opened Router
  import opened Chain
  import ServerChunking
  import StreamGate

  // ---------- One connection as a value ----------

  /** How a connection ends; `escaped` says whether an exception other than `std::exception` left the worker. */
  datatype Served = Served(kernel: Kernel, gate: Gate, trace: seq<Step>, escaped: bool)

  function ResponseText(r: Response, order: Order): string
    requires IsOrder(order)
  {
    assert Listing(order(r.headers), r.headers);
    Serialized(r, order(r.headers))
  }

  function ErrorResponse(status: HttpStatus, text: string): Response {
    Response(status, map[], text)
  }

  const SERVER_ERROR := ErrorResponse(InternalServerError, INTERNAL_ERROR)

  /** Write a message, whether or not it gets through, and close; nothing happens to a handle that is gone. */
  function AnsweredAndClosed(owned: bool, k: Kernel, message: string): Kernel {
    if owned then AfterSend(k, message).(closes := k.closes + 1) else k
  }

  /** The connection's destructor. */
  function Released(owned: bool, k: Kernel): Kernel {
    if owned then k.(closes := k.closes + 1) else k
  }

  function ServedRequest(site: Site, parsed: HttpParser.Outcome, k: Kernel, gate: Gate): Served
    requires IsOrder(site.order)
  {
    match parsed
    case Failure(_) => Served(AnsweredAndClosed(true, k, ResponseText(SERVER_ERROR, site.order)), gate, [], false)
    case Success(request) =>
      var f := Chain.RunChain(site, 0, Context(request, EmptyResponse, true, k, gate, []));
      var c := f.context;
      match f.thrown
      case Nothing =>
        if f.streamed then Served(Released(c.owned, c.kernel), c.gate, c.trace, false)
        else Served(AnsweredAndClosed(c.owned, c.kernel, ResponseText(c.response, site.order)), c.gate, c.trace, false)
      case StdException =>
        Served(AnsweredAndClosed(c.owned, c.kernel, ResponseText(SERVER_ERROR, site.order)), c.gate, c.trace, false)
      case OtherException =>
        Served(Released(c.owned, c.kernel), c.gate, c.trace, true)
  }

  /** `left` is what the intake leaves unread of the incoming script. */
  function ServedConnection(site: Site, caps: Caps, start: Kernel, left: seq<Recv>, gate: Gate): Served
    requires IsOrder(site.order)
  {
    var k := start.(incoming := left);
    match IntakeOf(start.incoming, caps)
    case Dropped => Served(k.(closes := k.closes + 1), gate, [], false)
    case Refused(status, text) =>
      Served(AnsweredAndClosed(true, k, ResponseText(ErrorResponse(status, text), site.order)), gate, [], false)
    case Taken(raw) => ServedRequest(site, Parsed(raw), k, gate)
  }

  // ---------- One message, one close ----------

  /** What one connection says: nothing, one response, or one event stream. */
  datatype Message = Silence | Reply(response: Response) | Streamed(start: Start)

  /** The whole of what `m` does to the handle, from `start` to `after`; writes may fail at any byte. */
  ghost predicate IsDeliveryOf(m: Message, site: Site, start: Kernel, after: Kernel)
    requires IsOrder(site.order)
  {
    match m
    case Silence => after == start.(closes := start.closes + 1)
    case Reply(r) => after == AfterSend(start, ResponseText(r, site.order)).(closes := start.closes + 1)
    case Streamed(st) => IsStream(site, st, start, after)
  }

  /** The message that is due after a run of the chain: the first stream it started, else its response. */
  function DueAfter(f: Flow): Message {
    match FirstStream(f.context.trace)
    case Some(st) => Streamed(st)
    case None =>
      match f.thrown
      case Nothing => Reply(f.context.response)
      case StdException => Reply(SERVER_ERROR)
      case OtherException => Silence
  }

  function DueToParsed(site: Site, parsed: HttpParser.Outcome, k: Kernel, gate: Gate): Message
    requires IsOrder(site.order)
  {
    match parsed
    case Failure(_) => Reply(SERVER_ERROR)
    case Success(request) => DueAfter(Chain.RunChain(site, 0, Context(request, EmptyResponse, true, k, gate, [])))
  }

  /** The message that is due to what the intake made of the bytes. */
  function Due(site: Site, intake: Intake, k: Kernel, gate: Gate): Message
    requires IsOrder(site.order)
  {
    match intake
    case Dropped => Silence
    case Refused(status, text) => Reply(ErrorResponse(status, text))
    case Taken(raw) => DueToParsed(site, Parsed(raw), k, gate)
  }

  /**
   For every request, every middleware and handler, and every pattern of reads and failing
   writes: the connection delivers the one message that is due and nothing else, closes the
   handle exactly once, and uses the stream counter in whole turns.
   */
  lemma OneMessageOneClose(site: Site, caps: Caps, start: Kernel, left: seq<Recv>, gate: Gate)
    requires IsOrder(site.order)
    ensures var s, k := ServedConnection(site, caps, start, left, gate), start.(incoming := left);
            && IsDeliveryOf(Due(site, IntakeOf(start.incoming, caps), k, gate), site, k, s.kernel)
            && s.kernel.closes == start.closes + 1 && s.kernel.incoming == left
            && OnlyTurns(s.gate, gate.turns, site.maxStreams)
  {
    hide ServedRequest, DueToParsed, IntakeOf, ResponseText, StreamOf, AfterSend;
    var k := start.(incoming := left);
    match IntakeOf(start.incoming, caps)
    case Dropped =>
    case Refused(status, text) => SendKeepsCloses(k, ErrorResponse(status, text), site.order);
    case Taken(raw) => RequestIsOneMessage(site, Parsed(raw), k, gate);
  }

  lemma RequestIsOneMessage(site: Site, parsed: HttpParser.Outcome, k: Kernel, gate: Gate)
    requires IsOrder(site.order)
    ensures var s := ServedRequest(site, parsed, k, gate);
            && IsDeliveryOf(DueToParsed(site, parsed, k, gate), site, k, s.kernel)
            && s.kernel.closes == k.closes + 1 && s.kernel.incoming == k.incoming
            && OnlyTurns(s.gate, gate.turns, site.maxStreams)
  {
    hide Chain.RunChain, ResponseText, StreamOf, AfterSend, FirstStream;
    SendKeepsCloses(k, SERVER_ERROR, site.order);
    if parsed.Success? {
      var c := Context(parsed.value, EmptyResponse, true, k, gate, []);
      NoStreamYet();
      ChainIsSound(site, 0, c, k, gate.turns);
      var f := Chain.RunChain(site, 0, c);
      SendKeepsCloses(k, f.context.response, site.order);
      if !f.context.owned {
        var st := FirstStream(f.context.trace).value;
        StreamOnHandle(site, st.route, WithBindings(st.request, site.routes[st.route].pattern), st.headers, k);
      }
    }
  }

  lemma NoStreamYet()
    ensures FirstStream([]) == None
  {
  }

  lemma SendKeepsCloses(k: Kernel, r: Response, order: Order)
    requires IsOrder(order)
    ensures AfterSend(k, ResponseText(r, order)).closes == k.closes
    ensures AfterSend(k, ResponseText(r, order)).incoming == k.incoming
  {
  }

  // ---------- Which bytes reach the chain ----------

  /** A head within the cap that declares the `n` bytes that follow it. */
  ghost predicate WholeRequest(s: string, h: nat, n: nat, caps: Caps) {
    && Find(s, BlankLine) == Some(h) && h + 3 <= caps.maxHeader
    && Scanned(Lines(s[..h]), 0) == Some(n) && n <= caps.maxBody && |s| == h + 4 + n
  }

  /** Two spaces in the first line, a colon in every other. */
  ghost predicate WellFormedHead(head: string) {
    var ls := Lines(head);
    HasTwoSpaces(ls[0]) && forall i :: 1 <= i < |ls| ==> !Without(ls[i], Char(':'))
  }

  lemma ChainLeavesATrace(site: Site, c: Context)
    requires IsOrder(site.order)
    ensures Chain.RunChain(site, 0, c).context.trace != []
  {
    hide EndOf, StreamOf, Dispatched, RunProgram;
  }

  /**
   When the reads do not matter, the chain runs if and only if the bytes are one whole,
   well-formed request within the caps; a whole one that is malformed is answered with the 500.
   */
  lemma ChainRunsExactly(site: Site, caps: Caps, start: Kernel, left: seq<Recv>, gate: Gate)
    requires IsOrder(site.order) && !ServerChunking.ChunkingMatters(Delivered(start.incoming), caps)
    ensures var s, served := Delivered(start.incoming), ServedConnection(site, caps, start, left, gate);
            && (served.trace != [] <==>
                  exists h: nat, n: nat {:trigger WholeRequest(s, h, n, caps)} ::
                    WholeRequest(s, h, n, caps) && WellFormedHead(s[..h]))
            && forall h: nat, n: nat :: WholeRequest(s, h, n, caps) && !WellFormedHead(s[..h]) ==>
                 served.kernel.written == start.written + Pushed(start.sends, ResponseText(SERVER_ERROR, site.order)).sent
  {
    hide IntakeOf, Scanned, Parsed, HasTwoSpaces, Chain.RunChain, ResponseText;
    var s, k := Delivered(start.incoming), start.(incoming := left);
    ServerChunking.BytesDecide(start.incoming, caps);
    AcceptedExactly(s);
    if Parsed(s).Success? {
      ChainLeavesATrace(site, Context(Parsed(s).value, EmptyResponse, true, k, gate, []));
    }
    if IntakeOf(start.incoming, caps).Taken? {
      var h := Find(s, BlankLine).value;
      assert WholeRequest(s, h, |s| - h - 4, caps);
    }
  }

  // ---------- The objects ----------

  /**
   The shared counter of running streams, as one connection meets it: other connections may
   change it at any time, so what an addition finds is arbitrary.
   */
  class StreamCounter {
    var found: seq<nat>
    ghost var turns: seq<StreamGate.Turn>

    ghost function View(): Gate
      reads this
    {
      Gate(found, turns)
    }

    constructor (found: seq<nat>)
      ensures View() == Gate(found, [])
    {
      this.found, turns := found, [];
    }

    method FetchAdd() returns (before: nat)
      modifies this
      ensures before == FoundNext(old(View()))
      ensures View() == Gate(if old(found) == [] then [] else old(found)[1..], old(turns) + [StreamGate.Arrived(before)])
    {
      before := if found == [] then 0 else found[0];
      found := if found == [] then [] else found[1..];
      turns := turns + [StreamGate.Arrived(before)];
    }

    /** `why` says which of the two subtractions in the code this is. */
    method FetchSub(ghost why: StreamGate.Turn)
      requires !why.Arrived?
      modifies this
      ensures View() == old(View()).(turns := old(turns) + [why])
    {
      turns := turns + [why];
    }
  }

  class Server {
    const router: Router
    const caps: Caps
    const maxStreams: nat
    const activeStreams: StreamCounter
    var middleware: seq<MiddlewareProgram>

    constructor (router: Router, caps: Caps, maxStreams: nat, activeStreams: StreamCounter)
      ensures this.router == router && this.caps == caps && this.maxStreams == maxStreams
      ensures this.activeStreams == activeStreams && middleware == []
    {
      this.router, this.caps, this.maxStreams, this.activeStreams := router, caps, maxStreams, activeStreams;
      middleware := [];
    }

    method Use(m: MiddlewareProgram)
      modifies this
      ensures middleware == old(middleware) + [m]
    {
      middleware := middleware + [m];
    }

    function SiteFor(order: Order): Site
      reads this, router
    {
      Site(middleware, router.routes, maxStreams, order)
    }

    /** The state the chain works on; `h` is the handle this connection was accepted with. */
    ghost function Now(request: HttpRequest, response: HttpResponse, connection: Connection, h: Handle, trace: seq<Step>): Context
      reads request, response, connection.socket, h, activeStreams
    {
      Context(request.View(), response.View(), connection.socket.fd != null, h.View(), activeStreams.View(), trace)
    }

    ghost predicate Over(connection: Connection, h: Handle)
      reads connection.socket
    {
      connection.socket.fd == null || connection.socket.fd == h
    }

    /** The life of the event stream: it takes the handle over, runs the handler, and is destroyed. */
    method RunStream(route: nat, request: HttpRequest, response: HttpResponse, connection: Connection, order: Order,
                     ghost h: Handle)
      returns (thrown: Thrown)
      requires IsOrder(order) && Over(connection, h)
      requires route < |router.routes| && router.routes[route].Streaming?
      modifies connection.socket, h
      ensures connection.socket.fd == null
      ensures
        var run := StreamOf(SiteFor(order), route, request.View(), response.headers, old(connection.socket.fd != null), old(h.View()));
        h.View() == run.stream.kernel && thrown == run.thrown
    {
      hide Ran, Opened, Preamble, AfterClose;
      assert Listing(order(response.headers), response.headers);
      var sse := new SseConnection(connection, response.headers, order(response.headers), h);
      thrown := RunHandler(router.routes[route].streamHandler(request.View()), sse, h);
      sse.Close(h);
    }

    /** The streaming branch: admission, the event stream, and both destructors. */
    method RunStreamRoute(route: nat, request: HttpRequest, response: HttpResponse, connection: Connection, order: Order,
                          ghost h: Handle)
      returns (streamed: bool, thrown: Thrown)
      requires IsOrder(order) && Over(connection, h)
      requires route < |router.routes| && router.routes[route].Streaming?
      modifies response, connection.socket, h, activeStreams
      ensures Over(connection, h)
      ensures
        var site, bound, c := SiteFor(order), request.View(), old(Now(request, response, connection, h, []));
        var counted := c.(gate := AfterTurn(c.gate, maxStreams));
        Flow(Now(request, response, connection, h, []), streamed, thrown) ==
        if FoundNext(c.gate) >= maxStreams then
          Flow(counted.(response := Answered(c.response, ServiceUnavailable, TOO_MANY)), false, Nothing)
        else
          var run := StreamOf(site, route, bound, c.response.headers, c.owned, c.kernel);
          Flow(counted.(owned := false, kernel := run.stream.kernel), run.thrown == Nothing, run.thrown)
    {
      hide StreamOf;
      var before := activeStreams.FetchAdd();
      if before >= maxStreams {
        activeStreams.FetchSub(StreamGate.Withdrew);
        response.SetStatus(ServiceUnavailable);
        response.SetBody(TOO_MANY);
        return false, Nothing;
      }
      thrown := RunStream(route, request, response, connection, order, h);
      activeStreams.FetchSub(StreamGate.Departed);
      streamed := thrown == Nothing;
    }

    method RunEnd(request: HttpRequest, response: HttpResponse, connection: Connection, order: Order,
                  ghost h: Handle, ghost trace: seq<Step>)
      returns (streamed: bool, thrown: Thrown, ghost after: seq<Step>)
      requires IsOrder(order) && Over(connection, h)
      modifies request, response, connection.socket, h, activeStreams
      ensures Over(connection, h)
      ensures Flow(Now(request, response, connection, h, after), streamed, thrown) ==
              AtTheEnd(SiteFor(order), old(Now(request, response, connection, h, trace)))
    {
      hide StreamOf, EndOf, Dispatched;
      after := trace + [Reached(EndOf(SiteFor(order), request.View(), FoundNext(activeStreams.View())),
                                request.View(), response.headers)];
      var streamHandler := router.MatchStream(request);
      if streamHandler.Some? {
        streamed, thrown := RunStreamRoute(streamHandler.value, request, response, connection, order, h);
        return;
      }
      var result;
      result, thrown := router.Dispatch(request, response);
      streamed := false;
      if thrown != Nothing {
        return;
      }
      if result == NoRoute {
        response.SetStatus(HttpStatus.NotFound);
        response.SetBody(NOT_FOUND);
      } else if result == WrongMethod {
        response.SetStatus(MethodNotAllowed);
        response.SetBody(NOT_ALLOWED);
      }
    }

    method RunChain(index: nat, request: HttpRequest, response: HttpResponse, connection: Connection, order: Order,
                    ghost h: Handle, ghost trace: seq<Step>)
      returns (streamed: bool, thrown: Thrown, ghost after: seq<Step>)
      requires IsOrder(order) && Over(connection, h)
      modifies request, response, connection.socket, h, activeStreams
      ensures Over(connection, h)
      ensures Flow(Now(request, response, connection, h, after), streamed, thrown) ==
              Chain.RunChain(SiteFor(order), index, old(Now(request, response, connection, h, trace)))
      decreases |middleware| - index, 1
    {
      hide AtTheEnd;
      if index >= |middleware| {
        streamed, thrown, after := RunEnd(request, response, connection, order, h, trace);
        return;
      }
      streamed, thrown, after :=
        RunMiddleware(index, middleware[index], false, request, response, connection, order, h, trace + [Enter(index)]);
      after := after + [Leave(index)];
    }

    /** The rest of one middleware; `streamed0` is the captured variable as it stands. */
    method RunMiddleware(index: nat, p: MiddlewareProgram, streamed0: bool,
                         request: HttpRequest, response: HttpResponse, connection: Connection, order: Order,
                         ghost h: Handle, ghost trace: seq<Step>)
      returns (streamed: bool, thrown: Thrown, ghost after: seq<Step>)
      requires IsOrder(order) && Over(connection, h) && index < |middleware|
      modifies request, response, connection.socket, h, activeStreams
      ensures Over(connection, h)
      ensures Flow(Now(request, response, connection, h, after), streamed, thrown) ==
              RunProgram(SiteFor(order), index, p, streamed0, old(Now(request, response, connection, h, trace)))
      decreases |middleware| - index, 0, p
    {
      hide AtTheEnd, Chain.RunChain;
      match p {
        case Finish => return streamed0, Nothing, trace;
        case Raise(what) => return false, what, trace;
        case Edit(change, next) =>
          var edited := change(request.View(), response.View());
          request.Assign(edited.0);
          response.Assign(edited.1);
          streamed, thrown, after := RunMiddleware(index, next, streamed0, request, response, connection, order, h, trace);
        case Test(condition, yes, no) =>
          var holds := condition(request.View(), response.View());
          streamed, thrown, after :=
            RunMiddleware(index, if holds then yes else no, streamed0, request, response, connection, order, h, trace);
        case CallNext(returned, caughtStd, caughtOther) =>
          ghost var mid;
          streamed, thrown, mid := RunChain(index + 1, request, response, connection, order, h, trace);
          match thrown {
            case Nothing =>
              streamed, thrown, after := RunMiddleware(index, returned, streamed, request, response, connection, order, h, mid);
            case StdException =>
              streamed, thrown, after := RunMiddleware(index, caughtStd, streamed0, request, response, connection, order, h, mid);
            case OtherException =>
              streamed, thrown, after := RunMiddleware(index, caughtOther, streamed0, request, response, connection, order, h, mid);
          }
      }
    }

    method SendError(connection: Connection, status: HttpStatus, text: string, order: Order, ghost h: Handle)
      requires IsOrder(order) && Over(connection, h)
      modifies h
      ensures connection.socket.fd == old(connection.socket.fd)
      ensures connection.socket.fd != null ==>
                h.View() == AfterSend(old(h.View()), ResponseText(ErrorResponse(status, text), order))
      ensures connection.socket.fd == null ==> h.View() == old(h.View())
    {
      var errorResponse := new HttpResponse(status);
      errorResponse.SetBody(text);
      SendResponse(connection, errorResponse, order, h);
    }

    /** From the complete buffer on: parse, run the chain, answer. */
    method ServeRequest(connection: Connection, raw: string, order: Order, ghost h: Handle)
      returns (escaped: bool, ghost trace: seq<Step>)
      requires IsOrder(order) && connection.socket.fd == h
      modifies connection.socket, h, activeStreams
      ensures connection.socket.fd == null
      ensures Served(h.View(), activeStreams.View(), trace, escaped) ==
              ServedRequest(SiteFor(order), Parsed(raw), old(h.View()), old(activeStreams.View()))
    {
      hide Parsed, ResponseText, Chain.RunChain, Pushed;
      escaped, trace := false, [];
      var parseError, request := Parse(raw);
      if parseError.Some? {
        SendError(connection, InternalServerError, INTERNAL_ERROR, order, h);
        connection.Close();
        return;
      }
      var response := new HttpResponse();
      var streamed, thrown;
      streamed, thrown, trace := RunChain(0, request, response, connection, order, h, []);
      if thrown == OtherException {
        connection.Close();
        escaped := true;
        return;
      }
      if thrown == StdException {
        SendError(connection, InternalServerError, INTERNAL_ERROR, order, h);
      } else if streamed {
        connection.Close();
        return;
      } else {
        SendResponse(connection, response, order, h);
      }
      connection.Close();
    }

    method SendResponse(connection: Connection, response: HttpResponse, order: Order, ghost h: Handle)
      requires IsOrder(order) && Over(connection, h)
      modifies h
      ensures connection.socket.fd == old(connection.socket.fd) && response.View() == old(response.View())
      ensures connection.socket.fd != null ==>
                h.View() == AfterSend(old(h.View()), ResponseText(response.View(), order))
      ensures connection.socket.fd == null ==> h.View() == old(h.View())
    {
      hide AfterSend;
      assert Listing(order(response.headers), response.headers);
      var raw := Serialize(response, order(response.headers));
      var ok := connection.SendAll(raw);
    }

    method HandleConnection(connection: Connection, order: Order, ghost h: Handle)
      returns (escaped: bool, ghost trace: seq<Step>)
      requires IsOrder(order) && connection.socket.fd == h
      modifies connection.socket, h, activeStreams
      ensures connection.socket.fd == null
      ensures Served(h.View(), activeStreams.View(), trace, escaped) ==
              ServedConnection(SiteFor(order), caps, old(h.View()), h.incoming, old(activeStreams.View()))
    {
      hide IntakeOf, Parsed, ResponseText, ServedRequest, Serialized;
      escaped, trace := false, [];
      var intake, peak := TakeRequest(connection, caps);
      if intake.Dropped? {
        connection.Close();
      } else if intake.Refused? {
        SendError(connection, intake.status, intake.text, order, h);
        connection.Close();
      } else {
        ghost var k, gate := h.View(), activeStreams.View();
        RequestIsOneMessage(SiteFor(order), Parsed(intake.raw), k, gate);
        escaped, trace := ServeRequest(connection, intake.raw, order, h);
        assert h.View().incoming == k.incoming;
      }
    }
  }
}
