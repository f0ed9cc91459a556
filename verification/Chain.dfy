/**
 The middleware chain and what is at its end, as functions on values.  A middleware is a
 finite decision tree: it may edit the messages, look at them, throw, catch, and call `next`
 any number of times.  Statements about every tree cover every middleware.
 */
module Chain {
  import opened ByteStrings
  import opened Messages
  import opened Transport
  import opened SseConnection
  import opened PathMatcher
  import opened Router
  import StreamGate

  type Change = (Request, Response) -> (Request, Response)
  type Condition = (Request, Response) -> bool

  datatype MiddlewareProgram =
    | Finish
    | Raise(what: Exception)
    | Edit(change: Change, next: MiddlewareProgram)
    | Test(condition: Condition, yes: MiddlewareProgram, no: MiddlewareProgram)
      /** `next(request, response)` in a try block: how to go on if it returns, throws a `std::exception`, throws something else. */
    | CallNext(returned: MiddlewareProgram, caughtStd: MiddlewareProgram, caughtOther: MiddlewareProgram)

  /** The five things that can happen at the end of the chain. */
  datatype End = StreamHandler(route: nat) | TooManyStreams | Handler(route: nat) | MethodNotAllowed405 | NotFound404

  /** The end is reached with a request and with the headers set so far. */
  datatype Step = Enter(index: nat) | Leave(index: nat) | Reached(end: End, request: Request, headers: Fields)

  /** This connection's use of the shared stream counter: what its additions will find, and its turns so far. */
  datatype Gate = Gate(found: seq<nat>, turns: seq<StreamGate.Turn>)

  function FoundNext(g: Gate): nat {
    if g.found == [] then 0 else g.found[0]
  }

  /** An addition, and the subtraction that follows it. */
  function AfterTurn(g: Gate, maxStreams: nat): Gate {
    var n := FoundNext(g);
    Gate(if g.found == [] then [] else g.found[1..],
         g.turns + [StreamGate.Arrived(n), if n >= maxStreams then StreamGate.Withdrew else StreamGate.Departed])
  }

  /** What the chain works on; `owned` says whether the connection still owns the handle. */
  datatype Context = Context(request: Request, response: Response, owned: bool, kernel: Kernel, gate: Gate, trace: seq<Step>)

  /** What the chain is made of. */
  datatype Site = Site(chain: seq<MiddlewareProgram>, routes: seq<Route>, maxStreams: nat, order: Order)

  /** The value `runChain` returns (if it does), and what it throws (if it does). */
  datatype Flow = Flow(context: Context, streamed: bool, thrown: Thrown)

  const TOO_MANY := "Too many concurrent streaming connections"
  const NOT_FOUND := "Not Found"
  const NOT_ALLOWED := "Method Not Allowed"
  const INTERNAL_ERROR := "Internal Server Error"

  function Answered(r: Response, status: HttpStatus, body: string): Response {
    r.(status := status, body := body)
  }

  // ---------- The end of the chain ----------

  function EndOf(site: Site, r: Request, found: nat): End {
    match FirstFit(site.routes, true, r.verb, r.path)
    case Some(i) => if found >= site.maxStreams then TooManyStreams else StreamHandler(i)
    case None =>
      match FirstFit(site.routes, false, r.verb, r.path)
      case Some(i) => Handler(i)
      case None => if FitsOtherMethod(site.routes, r.verb, r.path) then MethodNotAllowed405 else NotFound404
  }

  /** The stream a streaming route runs, up to and including its destruction. */
  function StreamOf(site: Site, i: nat, bound: Request, headers: Fields, owned: bool, kernel: Kernel): StreamRun
    requires i < |site.routes| && site.routes[i].Streaming? && IsOrder(site.order)
  {
    assert Listing(site.order(headers), headers);
    var run := Ran(site.routes[i].streamHandler(bound), Opened(owned, kernel, Preamble(headers, site.order(headers))));
    run.(stream := AfterClose(run.stream))
  }

  function AtTheEnd(site: Site, c: Context): Flow
    requires IsOrder(site.order)
  {
    var seen := c.(trace := c.trace + [Reached(EndOf(site, c.request, FoundNext(c.gate)), c.request, c.response.headers)]);
    match FirstFit(site.routes, true, c.request.verb, c.request.path)
    case Some(i) =>
      var bound := WithBindings(c.request, site.routes[i].pattern);
      var counted := seen.(request := bound, gate := AfterTurn(c.gate, site.maxStreams));
      if FoundNext(c.gate) >= site.maxStreams then
        Flow(counted.(response := Answered(c.response, ServiceUnavailable, TOO_MANY)), false, Nothing)
      else
        var run := StreamOf(site, i, bound, c.response.headers, c.owned, c.kernel);
        Flow(counted.(owned := false, kernel := run.stream.kernel), run.thrown == Nothing, run.thrown)
    case None =>
      var d := Dispatched(site.routes, c.request, c.response);
      var answered := seen.(request := d.request, response := d.response);
      if d.thrown != Nothing then Flow(answered, false, d.thrown)
      else match d.result
        case Matched => Flow(answered, false, Nothing)
        case NoRoute => Flow(answered.(response := Answered(d.response, HttpStatus.NotFound, NOT_FOUND)), false, Nothing)
        case WrongMethod => Flow(answered.(response := Answered(d.response, MethodNotAllowed, NOT_ALLOWED)), false, Nothing)
  }

  /** Route `i` is the first of its kind with the request's method and a pattern that its path matches. */
  ghost predicate IsFirstFit(routes: seq<Route>, i: nat, streaming: bool, r: Request) {
    && i < |routes| && routes[i].Streaming? == streaming && routes[i].verb == r.verb && Matches(routes[i].pattern, r.path)
    && forall j :: 0 <= j < i ==>
         !(routes[j].Streaming? == streaming && routes[j].verb == r.verb && Matches(routes[j].pattern, r.path))
  }

  ghost predicate NoneFits(routes: seq<Route>, streaming: bool, r: Request) {
    forall j :: 0 <= j < |routes| ==>
      !(routes[j].Streaming? == streaming && routes[j].verb == r.verb && Matches(routes[j].pattern, r.path))
  }

  /**
   When each of the five ends is reached.  Streams come before normal routes; 405 needs a normal
   route that fits under another method, so a stream under another method leads to 404.
   */
  lemma EndExactly(site: Site, r: Request, found: nat, i: nat)
    ensures EndOf(site, r, found) == StreamHandler(i) <==>
            IsFirstFit(site.routes, i, true, r) && found < site.maxStreams
    ensures EndOf(site, r, found) == TooManyStreams <==>
            !NoneFits(site.routes, true, r) && found >= site.maxStreams
    ensures EndOf(site, r, found) == Handler(i) <==>
            NoneFits(site.routes, true, r) && IsFirstFit(site.routes, i, false, r)
    ensures EndOf(site, r, found) == MethodNotAllowed405 <==>
            && NoneFits(site.routes, true, r) && NoneFits(site.routes, false, r)
            && exists j :: 0 <= j < |site.routes| && site.routes[j].Normal? && Matches(site.routes[j].pattern, r.path)
    ensures EndOf(site, r, found) == NotFound404 <==>
            && NoneFits(site.routes, true, r)
            && forall j :: 0 <= j < |site.routes| && site.routes[j].Normal? ==> !Matches(site.routes[j].pattern, r.path)
  {
    hide Matches;
  }

  /** `after` is `before` with what `pattern` binds to its path added to the path parameters, and nothing else. */
  ghost predicate BoundTo(after: Request, before: Request, pattern: string) {
    after == before.(pathParams := before.pathParams + Bindings(pattern, before.path, map[]))
  }

  /**
   What each end does: exactly one route's bindings are added, exactly one of stream, handler and
   fixed answer happens, and only a stream touches the connection or its bytes.
   */
  lemma EndHappens(site: Site, c: Context)
    requires IsOrder(site.order)
    ensures var after, end := AtTheEnd(site, c), EndOf(site, c.request, FoundNext(c.gate));
            var handed := after.context.request;
            match end
            case StreamHandler(i) =>
              var run := StreamOf(site, i, handed, c.response.headers, c.owned, c.kernel);
              && BoundTo(handed, c.request, site.routes[i].pattern)
              && after.context.response == c.response && !after.context.owned
              && after.context.kernel == run.stream.kernel && after.thrown == run.thrown
              && (after.streamed <==> run.thrown == Nothing)
            case TooManyStreams =>
              && after == Flow(after.context, false, Nothing) && after.context.kernel == c.kernel
              && after.context.owned == c.owned
              && after.context.response ==
                 c.response.(status := ServiceUnavailable, body := "Too many concurrent streaming connections")
              && exists i: nat :: IsFirstFit(site.routes, i, true, c.request) && BoundTo(handed, c.request, site.routes[i].pattern)
            case Handler(i) =>
              var done := site.routes[i].handler(handed, c.response);
              && BoundTo(handed, c.request, site.routes[i].pattern)
              && after == Flow(after.context, false, done.thrown) && after.context.response == done.response
              && after.context.kernel == c.kernel && after.context.owned == c.owned && after.context.gate == c.gate
            case MethodNotAllowed405 =>
              var answer := c.response.(status := MethodNotAllowed, body := "Method Not Allowed");
              after == Flow(c.(response := answer, trace := after.context.trace), false, Nothing)
            case NotFound404 =>
              var answer := c.response.(status := HttpStatus.NotFound, body := "Not Found");
              after == Flow(c.(response := answer, trace := after.context.trace), false, Nothing)
  {
    hide Matches, StreamOf, Bindings, FitsOtherMethod;
    var fit := FirstFit(site.routes, true, c.request.verb, c.request.path);
    if fit.Some? {
      assert IsFirstFit(site.routes, fit.value, true, c.request);
    }
  }

  /** A handler whose route's pattern was filled in with `values` finds them under the parameters' names, and all else as it was. */
  lemma HandlerSeesValues(handed: Request, before: Request, pattern: string, values: Fields, name: string)
    requires BoundTo(handed, before, pattern)
    requires SegmentValues(Segments(pattern), values) && before.path == Render(pattern, values)
    ensures handed.(pathParams := before.pathParams) == before
    ensures var named := exists i :: 0 <= i < |Segments(pattern)| && IsParam(Segments(pattern)[i]) && Segments(pattern)[i][2..] == name;
            if named then name in values && name in handed.pathParams && handed.pathParams[name] == values[name]
            else (name in handed.pathParams <==> name in before.pathParams)
                 && (name in before.pathParams ==> handed.pathParams[name] == before.pathParams[name])
  {
    hide Bindings, Segments, Render;
    RenderedPathBinds(pattern, values, name);
  }

  // ---------- The chain ----------

  /** `runChain(i, ...)`. */
  function RunChain(site: Site, i: nat, c: Context): Flow
    requires IsOrder(site.order)
    decreases |site.chain| - i, 1
  {
    if i >= |site.chain| then AtTheEnd(site, c)
    else
      var f := RunProgram(site, i, site.chain[i], false, c.(trace := c.trace + [Enter(i)]));
      f.(context := f.context.(trace := f.context.trace + [Leave(i)]))
  }

  /** The rest of middleware `i`; `streamed` is the variable its `next` captured by reference. */
  function RunProgram(site: Site, i: nat, p: MiddlewareProgram, streamed: bool, c: Context): Flow
    requires IsOrder(site.order) && i < |site.chain|
    decreases |site.chain| - i, 0, p
  {
    match p
    case Finish => Flow(c, streamed, Nothing)
    case Raise(what) => Flow(c, false, what)
    case Edit(change, next) =>
      var (q, r) := change(c.request, c.response);
      RunProgram(site, i, next, streamed, c.(request := q, response := r))
    case Test(condition, yes, no) =>
      RunProgram(site, i, if condition(c.request, c.response) then yes else no, streamed, c)
    case CallNext(returned, caughtStd, caughtOther) =>
      var inner := RunChain(site, i + 1, c);
      match inner.thrown
      case Nothing => RunProgram(site, i, returned, inner.streamed, inner.context)
      case StdException => RunProgram(site, i, caughtStd, streamed, inner.context)
      case OtherException => RunProgram(site, i, caughtOther, streamed, inner.context)
  }

  // ---------- Ownership, balance, at most one stream ----------

  /** What a stream is started with. */
  datatype Start = Start(route: nat, request: Request, headers: Fields)

  function StartIn(step: Step): Option<Start> {
    if step.Reached? && step.end.StreamHandler? then Some(Start(step.end.route, step.request, step.headers)) else None
  }

  /** The first stream a run has started. */
  function FirstStream(trace: seq<Step>): Option<Start> {
    if trace == [] then None
    else
      var before := FirstStream(trace[..|trace| - 1]);
      if before.None? then StartIn(trace[|trace| - 1]) else before
  }

  lemma FirstStreamStep(trace: seq<Step>, step: Step)
    ensures FirstStream(trace + [step]) == if FirstStream(trace).None? then StartIn(step) else FirstStream(trace)
  {
    assert (trace + [step])[..|trace|] == trace;
  }

  /**
   `after` is what the kernel looks like once the stream of `st`, whose route is the first that fits
   its request, has taken over a handle in state `start`, run, and given the handle back.
   */
  ghost predicate IsStream(site: Site, st: Start, start: Kernel, after: Kernel)
    requires IsOrder(site.order)
  {
    && IsFirstFit(site.routes, st.route, true, st.request)
    && after == StreamOf(site, st.route, WithBindings(st.request, site.routes[st.route].pattern), st.headers, true, start).stream.kernel
  }

  /** Behind `before`, the counter has been used in whole turns only. */
  ghost predicate OnlyTurns(g: Gate, before: seq<StreamGate.Turn>, maxStreams: nat) {
    before <= g.turns && StreamGate.AreTurns(g.turns[|before|..], maxStreams)
  }

  /**
   Until the first stream starts, the connection owns the handle and nothing has been written or
   closed.  From then on it does not, and what has happened to the handle is that stream, with the
   request and the headers it was started with, and nothing else.
   */
  ghost predicate Sound(c: Context, start: Kernel, before: seq<StreamGate.Turn>, site: Site)
    requires IsOrder(site.order)
  {
    && OnlyTurns(c.gate, before, site.maxStreams)
    && match FirstStream(c.trace)
       case None => c.owned && c.kernel == start
       case Some(st) => !c.owned && IsStream(site, st, start, c.kernel)
  }

  lemma TurnKeepsTurns(g: Gate, before: seq<StreamGate.Turn>, maxStreams: nat)
    requires OnlyTurns(g, before, maxStreams)
    ensures OnlyTurns(AfterTurn(g, maxStreams), before, maxStreams)
  {
    hide StreamGate.AreTurns;
    var ts, n := g.turns[|before|..], FoundNext(g);
    var turn := [StreamGate.Arrived(n), if n >= maxStreams then StreamGate.Withdrew else StreamGate.Departed];
    StreamGate.OneMoreTurn(ts, n, maxStreams);
    assert (g.turns + turn)[|before|..] == ts + turn;
  }

  lemma EndIsSound(site: Site, c: Context, start: Kernel, before: seq<StreamGate.Turn>)
    requires IsOrder(site.order) && Sound(c, start, before, site)
    ensures var f := AtTheEnd(site, c);
            Sound(f.context, start, before, site) && (f.streamed ==> !f.context.owned)
  {
    hide Dispatched, StreamOf, FirstStream, WithBindings, FitsOtherMethod, Matches, OnlyTurns, Bindings;
    FirstStreamStep(c.trace, Reached(EndOf(site, c.request, FoundNext(c.gate)), c.request, c.response.headers));
    TurnKeepsTurns(c.gate, before, site.maxStreams);
    var fit := FirstFit(site.routes, true, c.request.verb, c.request.path);
    if fit.Some? && FoundNext(c.gate) < site.maxStreams {
      var k := AtTheEnd(site, c).context.kernel;
      if c.owned {
        assert IsStream(site, Start(fit.value, c.request, c.response.headers), start, k);
      } else {
        NoHandleNoEffect(site, fit.value, WithBindings(c.request, site.routes[fit.value].pattern), c.response.headers, c.kernel);
      }
    }
  }

  /** A stream on a connection without a handle leaves the old handle alone. */
  lemma NoHandleNoEffect(site: Site, i: nat, bound: Request, headers: Fields, k: Kernel)
    requires IsOrder(site.order) && i < |site.routes| && site.routes[i].Streaming?
    ensures StreamOf(site, i, bound, headers, false, k).stream.kernel == k
  {
    hide Pushed;
    assert Listing(site.order(headers), headers);
    var p, s := site.routes[i].streamHandler(bound), Opened(false, k, Preamble(headers, site.order(headers)));
    ClosedOncePerOwner(p, s);
    RunKeepsIncoming(p, s);
    DeadStaysDead(p, s);
  }

  /** A stream on an open handle: one preamble and the frames behind it, and one close. */
  lemma StreamOnHandle(site: Site, i: nat, bound: Request, headers: Fields, k: Kernel)
    requires IsOrder(site.order) && i < |site.routes| && site.routes[i].Streaming?
    ensures var s := StreamOf(site, i, bound, headers, true, k).stream;
            && Listing(site.order(headers), headers)
            && WellFormed(s, k.written, Preamble(headers, site.order(headers)))
            && s.kernel.closes == k.closes + 1 && s.kernel.incoming == k.incoming
  {
    hide Pushed, WellFormed;
    assert Listing(site.order(headers), headers);
    var preamble := Preamble(headers, site.order(headers));
    var p, s := site.routes[i].streamHandler(bound), Opened(true, k, preamble);
    ClosedOncePerOwner(p, s);
    RunKeepsIncoming(p, s);
    OpenedIsWellFormed(true, k, preamble);
    RunIsWellFormed(p, s, k.written, preamble);
    CloseKeepsWellFormed(Ran(p, s).stream, k.written, preamble);
  }

  lemma {:induction false} RunKeepsIncoming(p: StreamProgram, s: Stream)
    ensures Ran(p, s).stream.kernel.incoming == s.kernel.incoming
    decreases p
  {
    match p
    case Return =>
    case Throw(_) =>
    case SendThen(event, data, sent, failed) =>
      var next := AfterEvent(s, event, data);
      RunKeepsIncoming(if next.alive then sent else failed, next);
    case CloseThen(next) => RunKeepsIncoming(next, AfterClose(s));
    case IfConnected(yes, no) => RunKeepsIncoming(if s.alive then yes else no, s);
  }

  /** Every chain keeps the handle and the counter sound, however often `next` is called and whatever is thrown. */
  lemma {:induction false} ChainIsSound(site: Site, i: nat, c: Context, start: Kernel, before: seq<StreamGate.Turn>)
    requires IsOrder(site.order) && Sound(c, start, before, site)
    ensures var f := RunChain(site, i, c);
            Sound(f.context, start, before, site) && (f.streamed ==> !f.context.owned)
    decreases |site.chain| - i, 1
  {
    hide AtTheEnd, FirstStream, IsStream, OnlyTurns;
    if i >= |site.chain| {
      EndIsSound(site, c, start, before);
    } else {
      var entered := c.(trace := c.trace + [Enter(i)]);
      FirstStreamStep(c.trace, Enter(i));
      ProgramIsSound(site, i, site.chain[i], false, entered, start, before);
      FirstStreamStep(RunProgram(site, i, site.chain[i], false, entered).context.trace, Leave(i));
    }
  }

  lemma {:induction false} ProgramIsSound(site: Site, i: nat, p: MiddlewareProgram, streamed: bool, c: Context, start: Kernel, before: seq<StreamGate.Turn>)
    requires IsOrder(site.order) && i < |site.chain| && Sound(c, start, before, site) && (streamed ==> !c.owned)
    ensures var f := RunProgram(site, i, p, streamed, c);
            Sound(f.context, start, before, site) && (f.streamed ==> !f.context.owned)
    decreases |site.chain| - i, 0, p
  {
    hide AtTheEnd, FirstStream, IsStream, OnlyTurns;
    match p
    case Finish =>
    case Raise(_) =>
    case Edit(change, next) =>
      var (q, r) := change(c.request, c.response);
      ProgramIsSound(site, i, next, streamed, c.(request := q, response := r), start, before);
    case Test(condition, yes, no) =>
      ProgramIsSound(site, i, if condition(c.request, c.response) then yes else no, streamed, c, start, before);
    case CallNext(returned, caughtStd, caughtOther) =>
      ChainIsSound(site, i + 1, c, start, before);
      OwnershipIsNotRegained(site, i + 1, c);
      var inner := RunChain(site, i + 1, c);
      match inner.thrown {
        case Nothing => ProgramIsSound(site, i, returned, inner.streamed, inner.context, start, before);
        case StdException => ProgramIsSound(site, i, caughtStd, streamed, inner.context, start, before);
        case OtherException => ProgramIsSound(site, i, caughtOther, streamed, inner.context, start, before);
      }
  }

  /** Once the handle is gone the connection never gets it back. */
  lemma {:induction false} OwnershipIsNotRegained(site: Site, i: nat, c: Context)
    requires IsOrder(site.order)
    ensures !c.owned ==> !RunChain(site, i, c).context.owned
    decreases |site.chain| - i, 1
  {
    if i < |site.chain| {
      ProgramDoesNotRegain(site, i, site.chain[i], false, c.(trace := c.trace + [Enter(i)]));
    }
  }

  lemma {:induction false} ProgramDoesNotRegain(site: Site, i: nat, p: MiddlewareProgram, streamed: bool, c: Context)
    requires IsOrder(site.order) && i < |site.chain|
    ensures !c.owned ==> !RunProgram(site, i, p, streamed, c).context.owned
    decreases |site.chain| - i, 0, p
  {
    hide AtTheEnd;
    match p
    case Finish =>
    case Raise(_) =>
    case Edit(change, next) =>
      var (q, r) := change(c.request, c.response);
      ProgramDoesNotRegain(site, i, next, streamed, c.(request := q, response := r));
    case Test(condition, yes, no) =>
      ProgramDoesNotRegain(site, i, if condition(c.request, c.response) then yes else no, streamed, c);
    case CallNext(returned, caughtStd, caughtOther) =>
      OwnershipIsNotRegained(site, i + 1, c);
      var inner := RunChain(site, i + 1, c);
      match inner.thrown {
        case Nothing => ProgramDoesNotRegain(site, i, returned, inner.streamed, inner.context);
        case StdException => ProgramDoesNotRegain(site, i, caughtStd, streamed, inner.context);
        case OtherException => ProgramDoesNotRegain(site, i, caughtOther, streamed, inner.context);
      }
  }
}
