/**
 The server's own answers, as the numbers and texts a client ends up with: for each way in which a
 request can fail, and for each end of a chain without middleware.
 */
module WireAnswers {
  import opened ByteStrings
  import opened Messages
  import opened HeaderFields
  import opened HttpParser
  import opened HttpSerializer
  import opened PathMatcher
  import opened Transport
  import opened HttpClient
  import opened RequestIntake
  import opened RoundTrips
  import opened Router
  import opened Chain
  import opened Server
  import opened Exchange
  import opened HandWritten
  import ServerChunking

  /**
   What the bytes behind an empty `base` tell any client that gets some prefix of them: this
   status and this body, or nothing; and it is told so if no write failed and all of them arrive.
   */
  ghost predicate Tells(k: Kernel, written: string, code: int, body: string) {
    && (forall incoming, maxResponse :: Delivered(incoming) <= written && Received("", incoming, maxResponse).Some? ==>
          var answer := Received("", incoming, maxResponse).value; answer.statusCode == code && answer.body == body)
    && (Reliable(k.sends) ==>
          forall incoming, maxResponse :: Delivered(incoming) == written && |written| <= maxResponse ==>
            Received("", incoming, maxResponse).Some?)
  }

  lemma ReplyTells(k: Kernel, r: Response, order: Order)
    requires IsOrder(order) && k.written == "" && CleanResponse(r) && |r.body| < SIZE_LIMIT
    ensures Tells(k, AfterSend(k, ResponseText(r, order)).written, StatusCode(r.status), r.body)
  {
    hide Serialized, Received, CleanResponse, StatusCode, Pushed;
    var text, written := ResponseText(r, order), AfterSend(k, ResponseText(r, order)).written;
    assert Listing(order(r.headers), r.headers);
    assert written == Pushed(k.sends, text).sent;
    forall incoming, maxResponse | Delivered(incoming) <= written && Received("", incoming, maxResponse).Some?
      ensures var answer := Received("", incoming, maxResponse).value; answer.statusCode == StatusCode(r.status) && answer.body == r.body
    {
      ResponseAllOrNothing(r, order(r.headers), incoming, maxResponse);
    }
    if Reliable(k.sends) {
      ReliablePush(k.sends, text);
      forall incoming, maxResponse | Delivered(incoming) == written && |written| <= maxResponse
        ensures Received("", incoming, maxResponse).Some?
      {
        ResponseAllOrNothing(r, order(r.headers), incoming, maxResponse);
      }
    }
  }

  /** A fixed answer: no headers of its own, and a short body. */
  lemma FixedAnswerTells(k: Kernel, status: HttpStatus, text: string, order: Order)
    requires IsOrder(order) && k.written == "" && |text| < 100
    ensures Tells(k, AfterSend(k, ResponseText(Response(status, map[], text), order)).written, StatusCode(status), text)
  {
    ReplyTells(k, Response(status, map[], text), order);
  }

  // ---------- Requests that do not reach the chain ----------

  function Wrote(site: Site, caps: Caps, start: Kernel, left: seq<Recv>, gate: Gate): string
    requires IsOrder(site.order)
  {
    ServedConnection(site, caps, start, left, gate).kernel.written
  }

  lemma RefusalTells(site: Site, caps: Caps, start: Kernel, left: seq<Recv>, gate: Gate, status: HttpStatus, text: string)
    requires IsOrder(site.order) && start.written == "" && |text| < 100
    requires IntakeOf(start.incoming, caps) == Refused(status, text)
    ensures Tells(start, Wrote(site, caps, start, left, gate), StatusCode(status), text)
  {
    hide IntakeOf, ResponseText, Tells, StatusCode, Pushed;
    FixedAnswerTells(start, status, text, site.order);
    assert AfterSend(start.(incoming := left), ResponseText(Response(status, map[], text), site.order)).written ==
           AfterSend(start, ResponseText(Response(status, map[], text), site.order)).written;
  }

  /** More bytes than the cap and no end of a head, or one more than a read beyond the cap: 431, under every cutting. */
  lemma LargeHeadTells(site: Site, caps: Caps, start: Kernel, left: seq<Recv>, gate: Gate)
    requires IsOrder(site.order) && start.written == ""
    requires var s := Delivered(start.incoming);
             match Find(s, BlankLine)
             case None => |s| > caps.maxHeader
             case Some(h) => h + 4 > caps.maxHeader + READ_CHUNK
    ensures Tells(start, Wrote(site, caps, start, left, gate), 431, "Request header too large")
  {
    hide IntakeOf, Tells, ServedConnection;
    StatusNumbers();
    ServerChunking.BytesDecide(start.incoming, caps);
    RefusalTells(site, caps, start, left, gate, RequestHeaderFieldsTooLarge, "Request header too large");
  }

  /** A length that is no number: 400, under every cutting and whatever follows the head. */
  lemma BadLengthTells(site: Site, caps: Caps, start: Kernel, left: seq<Recv>, gate: Gate, h: nat)
    requires IsOrder(site.order) && start.written == ""
    requires Find(Delivered(start.incoming), BlankLine) == Some(h) && h + 3 <= caps.maxHeader
    requires HasMalformedLength(Lines(Delivered(start.incoming)[..h]))
    ensures Tells(start, Wrote(site, caps, start, left, gate), 400, "Malformed Content-Length header")
  {
    hide IntakeOf, Tells, ServedConnection, HasMalformedLength;
    StatusNumbers();
    BadLengthExactly(start.incoming, caps, h);
    RefusalTells(site, caps, start, left, gate, BadRequest, "Malformed Content-Length header");
  }

  /** A length beyond the cap: 413, under every cutting and whatever follows the head. */
  lemma LargeBodyTells(site: Site, caps: Caps, start: Kernel, left: seq<Recv>, gate: Gate, h: nat, n: nat)
    requires IsOrder(site.order) && start.written == ""
    requires Find(Delivered(start.incoming), BlankLine) == Some(h) && h + 3 <= caps.maxHeader
    requires Scanned(Lines(Delivered(start.incoming)[..h]), 0) == Some(n) && n > caps.maxBody
    ensures Tells(start, Wrote(site, caps, start, left, gate), 413, "Request body too large")
  {
    hide IntakeOf, Tells, ServedConnection, Scanned;
    StatusNumbers();
    ServerChunking.BytesDecide(start.incoming, caps);
    RefusalTells(site, caps, start, left, gate, PayloadTooLarge, "Request body too large");
  }

  /** A whole request that the parser rejects: 500. */
  lemma MalformedRequestTells(site: Site, caps: Caps, start: Kernel, left: seq<Recv>, gate: Gate, h: nat, n: nat)
    requires IsOrder(site.order) && start.written == ""
    requires var s := Delivered(start.incoming); WholeRequest(s, h, n, caps) && !WellFormedHead(s[..h])
    ensures Tells(start, Wrote(site, caps, start, left, gate), 500, "Internal Server Error")
  {
    hide IntakeOf, Parsed, Tells, Scanned, WellFormedHead, ResponseText, Pushed;
    StatusNumbers();
    ServerChunking.BytesDecide(start.incoming, caps);
    AcceptedExactly(Delivered(start.incoming));
    HeadOrNot(Delivered(start.incoming), h);
    FixedAnswerTells(start, InternalServerError, "Internal Server Error", site.order);
    assert AfterSend(start.(incoming := left), ResponseText(SERVER_ERROR, site.order)).written ==
           AfterSend(start, ResponseText(SERVER_ERROR, site.order)).written;
  }

  lemma HeadOrNot(s: string, h: nat)
    requires Find(s, BlankLine) == Some(h) && !WellFormedHead(s[..h])
    ensures Parsed(s).Failure?
  {
    hide Parsed;
    AcceptedExactly(s);
  }

  // ---------- The ends of a chain without middleware ----------

  /** The request that arrived, if it did and was well formed. */
  ghost predicate Arrived(caps: Caps, start: Kernel, q: Request) {
    IntakeOf(start.incoming, caps).Taken? && Parsed(IntakeOf(start.incoming, caps).raw) == Success(q)
  }

  /** What the end of an empty chain starts with: a fresh 200 without headers or body. */
  function Bare(q: Request, k: Kernel, gate: Gate): Context {
    Context(q, Response(Ok, map[], ""), true, k, gate, [])
  }

  /** Without middleware, what is due is what the end made of a fresh response. */
  lemma BareRun(site: Site, caps: Caps, start: Kernel, left: seq<Recv>, gate: Gate, q: Request)
    requires IsOrder(site.order) && start.written == "" && site.chain == [] && Arrived(caps, start, q)
    requires !EndOf(site, q, FoundNext(gate)).StreamHandler?
    ensures var f := AtTheEnd(site, Bare(q, start.(incoming := left), gate));
            var text := ResponseText(if f.thrown == Nothing then f.context.response else SERVER_ERROR, site.order);
            f.thrown != OtherException ==> Wrote(site, caps, start, left, gate) == AfterSend(start, text).written
  {
    hide IntakeOf, Parsed, ResponseText, Pushed, Dispatched, EndOf;
    var k := start.(incoming := left);
    EndHappens(site, Bare(q, k, gate));
    assert Chain.RunChain(site, 0, Bare(q, k, gate)) == AtTheEnd(site, Bare(q, k, gate));
  }

  /** Nothing fits: 404.  Only other methods fit: 405.  A stream fits, but the slots are taken: 503. */
  lemma FixedEndsTell(site: Site, caps: Caps, start: Kernel, left: seq<Recv>, gate: Gate, q: Request)
    requires IsOrder(site.order) && start.written == "" && site.chain == [] && Arrived(caps, start, q)
    ensures var written := Wrote(site, caps, start, left, gate);
            match EndOf(site, q, FoundNext(gate))
            case NotFound404 => Tells(start, written, 404, "Not Found")
            case MethodNotAllowed405 => Tells(start, written, 405, "Method Not Allowed")
            case TooManyStreams => Tells(start, written, 503, "Too many concurrent streaming connections")
            case _ => true
  {
    hide IntakeOf, Parsed, ServedConnection, ResponseText, Tells, AtTheEnd, EndOf, Pushed;
    StatusNumbers();
    var end := EndOf(site, q, FoundNext(gate));
    EndHappens(site, Bare(q, start.(incoming := left), gate));
    if !end.StreamHandler? && !end.Handler? {
      BareRun(site, caps, start, left, gate, q);
    }
    FixedAnswerTells(start, HttpStatus.NotFound, "Not Found", site.order);
    FixedAnswerTells(start, MethodNotAllowed, "Method Not Allowed", site.order);
    FixedAnswerTells(start, ServiceUnavailable, "Too many concurrent streaming connections", site.order);
  }

  /**
   A handler of a normal route: it runs on the request with its route's bindings and on a fresh
   200, and its response is what the client is told; if it throws a standard exception, the 500 is.
   */
  lemma HandlerTells(site: Site, caps: Caps, start: Kernel, left: seq<Recv>, gate: Gate, q: Request, i: nat) returns (handed: Request)
    requires IsOrder(site.order) && start.written == "" && site.chain == [] && Arrived(caps, start, q)
    requires EndOf(site, q, FoundNext(gate)) == Handler(i)
    ensures i < |site.routes| && site.routes[i].Normal? && BoundTo(handed, q, site.routes[i].pattern)
    ensures var done := site.routes[i].handler(handed, Response(Ok, map[], ""));
            var written := Wrote(site, caps, start, left, gate);
            match done.thrown
            case Nothing =>
              CleanResponse(done.response) && |done.response.body| < SIZE_LIMIT ==>
                Tells(start, written, StatusCode(done.response.status), done.response.body)
            case StdException => Tells(start, written, 500, "Internal Server Error")
            case OtherException => true
  {
    hide IntakeOf, Parsed, ServedConnection, ResponseText, Tells, AtTheEnd, EndOf, Pushed, CleanResponse, StatusCode, BoundTo, IsFirstFit;
    InternalErrorNumber();
    var bare := Bare(q, start.(incoming := left), gate);
    EndExactly(site, q, FoundNext(gate), i);
    HandlerIsNormal(site, q, i);
    EndHappens(site, bare);
    BareRun(site, caps, start, left, gate, q);
    handed := AtTheEnd(site, bare).context.request;
    var done := site.routes[i].handler(handed, Response(Ok, map[], ""));
    FixedAnswerTells(start, InternalServerError, "Internal Server Error", site.order);
    if CleanResponse(done.response) && |done.response.body| < SIZE_LIMIT {
      ReplyTells(start, done.response, site.order);
    }
  }

  lemma InternalErrorNumber()
    ensures StatusCode(InternalServerError) == 500
  {
  }

  lemma HandlerIsNormal(site: Site, q: Request, i: nat)
    requires IsFirstFit(site.routes, i, false, q)
    ensures i < |site.routes| && site.routes[i].Normal?
  {
  }
}
