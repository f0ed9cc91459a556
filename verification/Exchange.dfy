/**
 The client against the server, over two byte streams that may be cut into reads anywhere and
 may break off at any byte.  Either the server runs its chain on the caller's request and the
 caller gets exactly what the chain produced, or the caller gets nothing.
 */
module Exchange {
  import opened ByteStrings
  import opened Messages
  import opened HeaderFields
  import opened HttpParser
  import opened HttpSerializer
  import opened Transport
  import opened HttpClient
  import opened RequestIntake
  import opened ScanMeetsParser
  import opened RoundTrips
  import opened Chain
  import opened Server
  import ServerChunking
  import ClientChunking

  // ---------- The scan of a printed request ----------

  lemma {:induction false} NoLengthLines(ls: seq<string>, n: nat)
    requires forall i :: 0 <= i < |ls| ==> !IsLengthLine(ls[i])
    ensures Scanned(ls, n) == Some(n)
  {
    if ls != [] {
      hide IsLengthLine, LengthIn;
      assert forall i :: 0 <= i < |ls[1..]| ==> ls[1..][i] == ls[i + 1];
      NoLengthLines(ls[1..], n);
    }
  }

  /** The scan of one printed field. */
  lemma PrintedFieldScanned(key: string, value: string)
    requires CleanField(key, value)
    ensures IsLengthLine(FieldLine(key, value)) <==> Lower(key) == LENGTH_KEY
    ensures Lower(key) == LENGTH_KEY ==> LengthIn(FieldLine(key, value)) == FromChars(DropSpaces(value))
  {
    hide IsLengthLine, LengthIn, FieldLine, ReadField;
    PrintedFieldReadsBack(AtServer, key, value);
    LengthLineIsField(FieldLine(key, value));
  }

  lemma CallerFieldsHaveNoLength(call: Call, order: seq<string>, n: nat)
    requires CleanCall(call) && Listing(order, call.headers)
    ensures Scanned(FieldLines(Printed(ForRequest, order), call.headers), n) == Some(n)
  {
    hide IsLengthLine, FieldLine;
    var keys := Printed(ForRequest, order);
    forall i | 0 <= i < |keys|
      ensures !IsLengthLine(FieldLines(keys, call.headers)[i])
    {
      assert keys[i] in keys;
      PrintedFieldScanned(keys[i], call.headers[keys[i]]);
    }
    NoLengthLines(FieldLines(keys, call.headers), n);
  }

  /** Of four lines in front of `more` only the last is a length line. */
  lemma FourthLineIsLength(a: string, b: string, c: string, d: string, more: seq<string>)
    requires !IsLengthLine(a) && !IsLengthLine(b) && !IsLengthLine(c) && IsLengthLine(d)
    ensures Scanned([a, b, c, d] + more, 0) ==
            match LengthIn(d) case None => None case Some(n) => Scanned(more, n)
  {
    hide IsLengthLine, LengthIn;
    assert ([a, b, c, d] + more)[1..] == [b, c, d] + more;
    assert ([b, c, d] + more)[1..] == [c, d] + more;
    assert ([c, d] + more)[1..] == [d] + more;
    assert ([d] + more)[1..] == more;
    assert Scanned([a, b, c, d] + more, 0) == Scanned([b, c, d] + more, 0);
    assert Scanned([b, c, d] + more, 0) == Scanned([c, d] + more, 0);
    assert Scanned([c, d] + more, 0) == Scanned([d] + more, 0);
  }

  /** The scan reads the client's own length, whatever the caller's headers are. */
  lemma ScanOfPrintedRequest(call: Call, order: seq<string>)
    requires CleanCall(call) && Listing(order, call.headers) && |call.body| < SIZE_LIMIT
    ensures Scanned(RequestLines(call, order), 0) == Some(|call.body|)
  {
    hide IsLengthLine, LengthIn, FieldLine, RequestLine, HostField, WithRequestLine;
    RequestLineReadsBack(call);
    HostFieldIsClean(call);
    CloseFieldIsClean();
    PrintedNumberIsClean(|call.body|);
    FromCharsOfDecimal(|call.body|);
    LengthFieldIsClean(Decimal(|call.body|));
    OwnedKeysInLowerCase();
    LengthKeyInLowerCase();
    PrintedFieldScanned("Host", HostField(call));
    PrintedFieldScanned("Connection", "close");
    PrintedFieldScanned("Content-Length", Decimal(|call.body|));
    CallerFieldsHaveNoLength(call, order, |call.body|);
    FourthLineIsLength(RequestLine(call), FieldLine("Host", HostField(call)), FieldLine("Connection", "close"),
                       FieldLine("Content-Length", Decimal(|call.body|)),
                       FieldLines(Printed(ForRequest, order), call.headers));
  }

  /** Where the head of a printed request ends. */
  lemma PrintedRequestSplit(call: Call, order: seq<string>)
    requires CleanCall(call) && Listing(order, call.headers)
    ensures var s, ls := BuiltRequest(call, order), RequestLines(call, order);
            && Find(s, BlankLine) == Some(|Unlines(ls)|) && s[..|Unlines(ls)|] == Unlines(ls)
            && |s| == |Unlines(ls)| + 4 + |call.body| && Lines(Unlines(ls)) == ls
  {
    hide RequestLines;
    var ls := RequestLines(call, order);
    RequestHeadIsClean(call, order);
    BlankLineAfterHead(ls, call.body);
    LinesOfUnlines(ls);
  }

  // ---------- The request arrives, or it does not ----------

  /** What the server's caps allow. */
  ghost predicate WithinCaps(call: Call, order: seq<string>, caps: Caps)
    requires Listing(order, call.headers)
  {
    && |Unlines(RequestLines(call, order))| + 3 <= caps.maxHeader
    && |call.body| <= caps.maxBody && |call.body| < SIZE_LIMIT
  }

  /** A complete request without surplus bytes is taken; of a proper prefix nothing is answered. */
  lemma CompleteOrSilent(s: string, whole: string, h: nat, n: nat, caps: Caps)
    requires s <= whole && Find(whole, BlankLine) == Some(h) && |whole| == h + 4 + n
    requires Scanned(Lines(whole[..h]), 0) == Some(n) && h + 3 <= caps.maxHeader && n <= caps.maxBody
    ensures !ServerChunking.ChunkingMatters(s, caps)
    ensures ServerChunking.IntakeOfBytes(s, caps) == if s == whole then Taken(whole) else Dropped
  {
    hide Scanned;
    assert whole == s + whole[|s|..];
    if Find(s, BlankLine).Some? {
      FindInPrefix(s, whole[|s|..], BlankLine, 0);
      assert s[..h] == whole[..h];
    } else if |s| >= h + 4 {
      FindBackInPrefix(s, whole[|s|..], BlankLine);
    }
  }

  /**
   However a printed request is cut into reads and wherever it breaks off: the server hands the
   whole of it to the parser, or closes without a word.
   */
  lemma RequestAllOrNothing(call: Call, order: seq<string>, caps: Caps, incoming: seq<Recv>)
    requires CleanCall(call) && Listing(order, call.headers) && WithinCaps(call, order, caps)
    requires Delivered(incoming) <= BuiltRequest(call, order)
    ensures IntakeOf(incoming, caps) ==
            if Delivered(incoming) == BuiltRequest(call, order) then Taken(BuiltRequest(call, order)) else Dropped
  {
    hide Scanned, BuiltRequest, IntakeOf, ServerChunking.IntakeOfBytes, ServerChunking.ChunkingMatters;
    PrintedRequestSplit(call, order);
    ScanOfPrintedRequest(call, order);
    var h := |Unlines(RequestLines(call, order))|;
    CompleteOrSilent(Delivered(incoming), BuiltRequest(call, order), h, |call.body|, caps);
    ServerChunking.BytesDecide(incoming, caps);
  }

  /** What arrives is the caller's request. */
  lemma ServerSeesTheCall(call: Call, order: seq<string>, caps: Caps, incoming: seq<Recv>)
    requires CleanCall(call) && Listing(order, call.headers) && WithinCaps(call, order, caps)
    requires Delivered(incoming) == BuiltRequest(call, order)
    ensures var intake := IntakeOf(incoming, caps);
            intake.Taken? && Parsed(intake.raw).Success? && IsRequestOf(Parsed(intake.raw).value, call)
  {
    hide BuiltRequest, IntakeOf, Parsed, IsRequestOf;
    RequestAllOrNothing(call, order, caps, incoming);
    RequestRoundTrip(call, order);
  }

  // ---------- The response arrives, or it does not ----------

  /**
   However a printed response is cut into reads and wherever it breaks off: the caller gets what
   the handler produced if and only if every byte arrived and the client accepts that many, and
   nothing otherwise.
   */
  lemma ResponseAllOrNothing(r: Response, order: seq<string>, incoming: seq<Recv>, maxResponse: nat)
    requires CleanResponse(r) && Listing(order, r.headers) && |r.body| < SIZE_LIMIT
    requires Delivered(incoming) <= Serialized(r, order)
    ensures var answer := Received("", incoming, maxResponse);
            && (answer.Some? <==> Delivered(incoming) == Serialized(r, order) && |Serialized(r, order)| <= maxResponse)
            && (answer.Some? ==> IsAnswerTo(answer.value, r))
  {
    hide Serialized, Framed', IsAnswerTo, Received, AnswerHeaders;
    var s, whole := Delivered(incoming), Serialized(r, order);
    ResponseFraming(r, order, maxResponse);
    AnswerHeadersHold(r, order);
    assert s[..|s|] == s;
    assert whole == s + whole[|s|..];
    ClientChunking.FramingOfPrefix(s, whole[|s|..], maxResponse);
    ClientChunking.BytesDecide(incoming, maxResponse);
  }

  // ---------- Both directions ----------

  /** The chain's run on a request. */
  function ChainRun(site: Site, request: Request, k: Kernel, gate: Gate): Flow
    requires IsOrder(site.order)
  {
    Chain.RunChain(site, 0, Context(request, EmptyResponse, true, k, gate, []))
  }

  /** The response the chain settles on: none if it streamed or threw something foreign. */
  function Produced(f: Flow): Option<Response> {
    if !f.context.owned || f.streamed then None
    else match f.thrown
      case Nothing => Some(f.context.response)
      case StdException => Some(SERVER_ERROR)
      case OtherException => None
  }

  /** What a chain produces is what goes out. */
  lemma ProducedIsWritten(site: Site, request: Request, k: Kernel, gate: Gate)
    requires IsOrder(site.order)
    ensures var r := Produced(ChainRun(site, request, k, gate));
            r.Some? ==>
              ServedRequest(site, Success(request), k, gate).kernel.written ==
              k.written + Pushed(k.sends, ResponseText(r.value, site.order)).sent
  {
    hide Chain.RunChain, ResponseText, IsStream, Pushed, FirstStream;
    NoStreamYet();
    ChainIsSound(site, 0, Context(request, EmptyResponse, true, k, gate, []), k, gate.turns);
  }

  /** The two parties to an exchange: what the client was given, the server's set-up, and both kernels' scripts. */
  datatype Parties = Parties(
    call: Call, callOrder: seq<string>, maxResponse: nat, client: Kernel,
    site: Site, caps: Caps, server: Kernel, left: seq<Recv>, gate: Gate)
  {
    /** A clean call of any size, on fresh connections. */
    ghost predicate Fresh() {
      && CleanCall(call) && Listing(callOrder, call.headers) && IsOrder(site.order)
      && client.written == "" && server.written == ""
    }

    ghost predicate Valid() {
      Fresh() && WithinCaps(call, callOrder, caps)
    }

    function Sent(): string
      requires Listing(callOrder, call.headers)
    {
      BuiltRequest(call, callOrder)
    }

    /** The value `send` returns, as its contract states it. */
    function Result(): Option<ClientResponse>
      requires Listing(callOrder, call.headers)
    {
      if Pushed(client.sends, Sent()).ok then Received("", client.incoming, maxResponse) else None
    }

    /** What `handleConnection` writes, as its contract states it. */
    function ServerWrote(): string
      requires IsOrder(site.order)
    {
      ServedConnection(site, caps, server, left, gate).kernel.written
    }

    /** The chain's run on the request this call is meant to make. */
    function Run(): Flow
      requires Listing(callOrder, call.headers) && IsOrder(site.order) && Parsed(Sent()).Success?
    {
      ChainRun(site, Parsed(Sent()).value, server.(incoming := left), gate)
    }

    /** The response the server's chain produces for the request this call is meant to make. */
    function Intended(): Option<Response>
      requires Listing(callOrder, call.headers) && IsOrder(site.order) && Parsed(Sent()).Success?
    {
      Produced(Run())
    }

    /** Each direction delivers a prefix of what the other end managed to write. */
    ghost predicate Wired()
      requires Listing(callOrder, call.headers) && IsOrder(site.order)
    {
      && Delivered(server.incoming) <= AfterSend(client, Sent()).written
      && Delivered(client.incoming) <= ServerWrote()
    }
  }

  lemma CallIsParsed(x: Parties)
    requires x.Valid()
    ensures Parsed(x.Sent()).Success? && IsRequestOf(Parsed(x.Sent()).value, x.call)
  {
    hide BuiltRequest, Parsed, IsRequestOf;
    RequestRoundTrip(x.call, x.callOrder);
  }

  /** What the server writes, for each way the request may arrive. */
  lemma ServerWrites(x: Parties, r: Response)
    requires x.Valid() && Delivered(x.server.incoming) <= x.Sent()
    requires Parsed(x.Sent()).Success? && x.Intended() == Some(r)
    ensures x.ServerWrote() ==
            if Delivered(x.server.incoming) == x.Sent() then Pushed(x.server.sends, ResponseText(r, x.site.order)).sent
            else ""
  {
    hide BuiltRequest, IntakeOf, Parsed, ChainRun, Produced, ServedRequest, ResponseText;
    RequestAllOrNothing(x.call, x.callOrder, x.caps, x.server.incoming);
    ProducedIsWritten(x.site, Parsed(x.Sent()).value, x.server.(incoming := x.left), x.gate);
  }

  lemma SomethingIsWritten(r: Response, order: Order)
    requires IsOrder(order)
    ensures ResponseText(r, order) != ""
  {
    hide ResponseLines;
  }

  /**
   One exchange.  Both ends may write in pieces and fail; each direction may lose any tail of
   what was written.  The caller gets a response if and only if the whole request and the whole
   response arrived and the response is no larger than the client accepts; the chain then ran on
   the caller's request, and the caller has its response.
   */
  lemma ExchangeAllOrNothing(x: Parties, r: Response)
    requires x.Valid() && x.Wired()
    requires Parsed(x.Sent()).Success? ==> x.Intended() == Some(r)
    requires CleanResponse(r) && |r.body| < SIZE_LIMIT
    ensures Parsed(x.Sent()).Success? && IsRequestOf(Parsed(x.Sent()).value, x.call)
    ensures x.Result().Some? <==>
            && Delivered(x.server.incoming) == x.Sent()
            && Delivered(x.client.incoming) == ResponseText(r, x.site.order)
            && |ResponseText(r, x.site.order)| <= x.maxResponse
    ensures x.Result().Some? ==> IsAnswerTo(x.Result().value, r)
  {
    hide BuiltRequest, Parsed, ChainRun, Produced, ServedConnection, Serialized, IsAnswerTo, IsRequestOf, Received;
    CallIsParsed(x);
    assert Listing(x.site.order(r.headers), r.headers);
    assert x.client.written + Pushed(x.client.sends, x.Sent()).sent == Pushed(x.client.sends, x.Sent()).sent;
    ServerWrites(x, r);
    SomethingIsWritten(r, x.site.order);
    ResponseAllOrNothing(r, x.site.order(r.headers), x.client.incoming, x.maxResponse);
  }

  /** If no write fails and nothing is lost, the caller gets the response unless it is too large for the client. */
  lemma ExchangeSucceeds(x: Parties, r: Response)
    requires x.Valid() && Reliable(x.client.sends) && Reliable(x.server.sends)
    requires Delivered(x.server.incoming) == AfterSend(x.client, x.Sent()).written
    requires Delivered(x.client.incoming) == x.ServerWrote()
    requires Parsed(x.Sent()).Success? ==> x.Intended() == Some(r)
    requires CleanResponse(r) && |r.body| < SIZE_LIMIT
    ensures x.Result().Some? <==> |ResponseText(r, x.site.order)| <= x.maxResponse
    ensures x.Result().Some? ==> IsAnswerTo(x.Result().value, r)
  {
    hide BuiltRequest, Parsed, ChainRun, Produced, ServedConnection, ResponseText, IsAnswerTo, IsRequestOf, Received;
    ReliablePush(x.client.sends, x.Sent());
    ReliablePush(x.server.sends, ResponseText(r, x.site.order));
    CallIsParsed(x);
    ServerWrites(x, r);
    ExchangeAllOrNothing(x, r);
  }

  /** Every clean call within the caps has such a run, whatever the server's chain is and does. */
  lemma LosslessRun(call: Call, order: seq<string>, maxResponse: nat, site: Site, caps: Caps, gate: Gate) returns (x: Parties)
    requires CleanCall(call) && Listing(order, call.headers) && WithinCaps(call, order, caps) && IsOrder(site.order)
    ensures x.call == call && x.callOrder == order && x.maxResponse == maxResponse
    ensures x.site == site && x.caps == caps && x.gate == gate
    ensures x.Valid() && Reliable(x.client.sends) && Reliable(x.server.sends)
    ensures Delivered(x.server.incoming) == AfterSend(x.client, x.Sent()).written
    ensures Delivered(x.client.incoming) == x.ServerWrote()
  {
    hide ServedConnection, BuiltRequest, CleanCall, WithinCaps;
    var request := BuiltRequest(call, order);
    var server := Kernel(OneByOne(request, []), [], "", 0);
    var written := ServedConnection(site, caps, server, [], gate).kernel.written;
    var client := Kernel(OneByOne(written, []), [], "", 0);
    DeliveredOneByOne(request, []);
    DeliveredOneByOne(written, []);
    ReliablePush(client.sends, request);
    x := Parties(call, order, maxResponse, client, site, caps, server, [], gate);
    assert "" + request == request && request + "" == request && written + "" == written;
  }

  // ---------- A body that is too large ----------

  const PAYLOAD_TOO_LARGE := ErrorResponse(PayloadTooLarge, "Request body too large")

  /** An acceptable head announces a body that the server does not accept. */
  ghost predicate BodyBeyondCap(call: Call, order: seq<string>, caps: Caps)
    requires Listing(order, call.headers)
  {
    && |Unlines(RequestLines(call, order))| + 3 <= caps.maxHeader
    && caps.maxBody < |call.body| < SIZE_LIMIT
  }

  lemma RefusedByHead(s: string, whole: string, h: nat, n: nat, caps: Caps)
    requires s <= whole && Find(whole, BlankLine) == Some(h)
    requires Scanned(Lines(whole[..h]), 0) == Some(n) && h + 3 <= caps.maxHeader && n > caps.maxBody
    ensures !ServerChunking.ChunkingMatters(s, caps)
    ensures ServerChunking.IntakeOfBytes(s, caps) == if |s| >= h + 4 then BODY_TOO_LARGE else Dropped
  {
    hide Scanned;
    assert whole == s + whole[|s|..];
    if Find(s, BlankLine).Some? {
      FindInPrefix(s, whole[|s|..], BlankLine, 0);
      assert s[..h] == whole[..h];
    } else if |s| >= h + 4 {
      FindBackInPrefix(s, whole[|s|..], BlankLine);
    }
  }

  /** The refusal needs the whole head and nothing of the body, under every cutting. */
  lemma LargeBodyIsRefused(call: Call, order: seq<string>, caps: Caps, incoming: seq<Recv>)
    requires CleanCall(call) && Listing(order, call.headers) && BodyBeyondCap(call, order, caps)
    requires Delivered(incoming) <= BuiltRequest(call, order)
    ensures IntakeOf(incoming, caps) ==
            if |Delivered(incoming)| >= |Unlines(RequestLines(call, order))| + 4 then BODY_TOO_LARGE else Dropped
  {
    hide Scanned, BuiltRequest, IntakeOf, ServerChunking.IntakeOfBytes, ServerChunking.ChunkingMatters;
    PrintedRequestSplit(call, order);
    ScanOfPrintedRequest(call, order);
    var h := |Unlines(RequestLines(call, order))|;
    RefusedByHead(Delivered(incoming), BuiltRequest(call, order), h, |call.body|, caps);
    ServerChunking.BytesDecide(incoming, caps);
  }

  /**
   One exchange whose request is too large.  The caller gets the 413 if and only if it could write
   all of its request, the head of it arrived, and the whole 413 did; otherwise it gets nothing.
   */
  lemma LargeBodyExchange(x: Parties)
    requires x.Fresh() && BodyBeyondCap(x.call, x.callOrder, x.caps) && x.Wired()
    ensures var text := ResponseText(PAYLOAD_TOO_LARGE, x.site.order);
            x.Result().Some? <==>
            && Pushed(x.client.sends, x.Sent()).ok
            && |Delivered(x.server.incoming)| >= |Unlines(RequestLines(x.call, x.callOrder))| + 4
            && Delivered(x.client.incoming) == text && |text| <= x.maxResponse
    ensures x.Result().Some? ==> IsAnswerTo(x.Result().value, PAYLOAD_TOO_LARGE)
  {
    hide BuiltRequest, RequestLines, IntakeOf, ServedRequest, Serialized, IsAnswerTo, Received, Pushed;
    assert x.client.written + Pushed(x.client.sends, x.Sent()).sent == Pushed(x.client.sends, x.Sent()).sent;
    LargeBodyIsRefused(x.call, x.callOrder, x.caps, x.server.incoming);
    var r := PAYLOAD_TOO_LARGE;
    assert Listing(x.site.order(r.headers), r.headers);
    SomethingIsWritten(r, x.site.order);
    assert "" + Pushed(x.server.sends, ResponseText(r, x.site.order)).sent == Pushed(x.server.sends, ResponseText(r, x.site.order)).sent;
    ResponseAllOrNothing(r, x.site.order(r.headers), x.client.incoming, x.maxResponse);
  }

  // ---------- A response for which the reads matter ----------

  function PowerOfTen(k: nat): nat {
    if k == 0 then 1 else 10 * PowerOfTen(k - 1)
  }

  lemma {:induction false} DigitCount(n: nat, k: nat)
    requires k > 0 && n < PowerOfTen(k)
    ensures |Decimal(n)| <= k
  {
    if n >= 10 {
      DigitCount(n / 10, k - 1);
    }
  }

  /** A response without headers of its own. */
  function Plain(n: nat): Response {
    Response(Ok, map[], seq(n, i requires 0 <= i < n => 'b'))
  }

  lemma PlainHeadIsShort(n: nat)
    requires n < SIZE_LIMIT
    ensures Listing([], Plain(n).headers) && CleanResponse(Plain(n))
    ensures |Serialized(Plain(n), [])| <= n + 100
  {
    hide StatusLineOf, FieldLine;
    TwentyDigits();
    DigitCount(n, 20);
    PlainLines(n);
    ThreeLines(ResponseLines(Plain(n), []));
  }

  lemma TwentyDigits()
    ensures SIZE_LIMIT < PowerOfTen(20)
  {
    assert PowerOfTen(5) == 100_000;
    assert PowerOfTen(10) == 10_000_000_000;
    assert PowerOfTen(15) == 1_000_000_000_000_000;
  }

  lemma ThreeLines(ls: seq<string>)
    requires |ls| == 3
    ensures |Unlines(ls)| == |ls[0]| + |ls[1]| + |ls[2]| + 4
  {
    assert ls[1..][1..] == [ls[2]];
    assert |Unlines(ls[1..])| == |ls[1]| + 2 + |ls[2]|;
  }

  lemma PlainLines(n: nat)
    requires |Decimal(n)| <= 20
    ensures var ls := ResponseLines(Plain(n), []); |ls| == 3 && |ls[0]| == 15 && |ls[1]| <= 36 && |ls[2]| == 17
  {
    assert |Decimal(200)| == 3;
  }

  /**
   Under every limit from 4 KiB on, a response that nearly fills it and one read's worth of bytes
   behind it make a stream whose result depends on the reads.
   */
  lemma NearlyFullResponseMatters(maxResponse: nat)
    requires 4096 <= maxResponse < SIZE_LIMIT
    ensures var surplus := seq(READ_CHUNK, i requires 0 <= i < READ_CHUNK => 'x');
            Listing([], Plain(maxResponse - 4000).headers)
            && ClientChunking.ChunkingMatters(Serialized(Plain(maxResponse - 4000), []) + surplus, maxResponse)
  {
    hide Serialized, Framed', Plain;
    var r, surplus := Plain(maxResponse - 4000), seq(READ_CHUNK, i requires 0 <= i < READ_CHUNK => 'x');
    assert |r.body| == maxResponse - 4000 by { PlainSize(maxResponse - 4000); }
    PlainHeadIsShort(maxResponse - 4000);
    ResponseRoundTrip(r, [], maxResponse);
    FramingIsStable(Serialized(r, []), surplus, maxResponse);
  }

  lemma PlainSize(n: nat)
    ensures |Plain(n).body| == n
  {
  }
}
