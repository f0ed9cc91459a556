/**
 An event stream from the handler to the caller: what a client that reads until the end of the
 stream makes of the bytes, wherever the server's writes fail and wherever the network stops.
 */
module StreamReception {
  import opened ByteStrings
  import opened Messages
  import opened HeaderFields
  import opened HttpSerializer
  import opened Transport
  import opened HttpClient
  import opened EventStream
  import opened SseConnection
  import opened RoundTrips
  import opened HttpParser
  import opened RequestIntake
  import opened Router
  import opened Chain
  import opened Server
  import opened Exchange
  import ClientChunking

  // ---------- The preamble at the client ----------

  /** Extra headers that stay on their lines and do not announce a length. */
  ghost predicate LengthFree(extra: Fields) {
    CleanFields(extra) && forall k :: k in extra ==> StoredKey(AtClient, k) != "content-length"
  }

  const OK_LINE := "HTTP/1.1 200 OK"

  lemma StreamStatusReadsBack()
    ensures ParsedStatus(OK_LINE) == Some(200) && Without(OK_LINE, Crlf)
  {
    hide ParsedStatus, StatusLineOf;
    ReasonPhraseIsClean(Ok);
    StatusReadsBack(200, ReasonPhrase(Ok));
    StatusLineIsClean(200, ReasonPhrase(Ok));
    StreamStatusLine();
  }

  /** The status line of a stream is the one the serializer would print. */
  lemma StreamStatusLine()
    ensures StatusLineOf(200, ReasonPhrase(Ok)) == OK_LINE
  {
    assert Decimal(200) == "200";
  }

  function FixedFields(): seq<string> {
    [FieldLine("Content-Type", "text/event-stream"),
     FieldLine("Cache-Control", "no-cache"),
     FieldLine("Connection", "close")]
  }

  /** The fixed fields as the client stores them. */
  function FixedStored(): Fields {
    map["content-type" := "text/event-stream", "cache-control" := "no-cache", "connection" := "close"]
  }

  /** The client's headers of a stream: every extra header, the fixed ones that none of them overrides, and nothing else. */
  ghost predicate IsStreamHead(held: Fields, extra: Fields) {
    && (forall k :: k in extra ==>
          StoredKey(AtClient, k) in held && held[StoredKey(AtClient, k)] == StoredValue(AtClient, extra[k]))
    && (forall n :: n in FixedStored() && !StoredAs(n, extra) ==> n in held && held[n] == FixedStored()[n])
    && (forall n :: n in held && !StoredAs(n, extra) ==> n in FixedStored())
  }

  ghost predicate StoredAs(name: string, extra: Fields) {
    exists k :: k in extra && StoredKey(AtClient, k) == name
  }

  lemma PlainField(key: string, value: string, stored: string)
    requires '\r' !in key && ':' !in key && Trim(key) == key && |key| == |stored|
    requires forall i :: 0 <= i < |key| ==> LowerChar(key[i]) == stored[i]
    requires '\r' !in value && Trim(value) == value
    ensures Without(FieldLine(key, value), Crlf) && !Without(FieldLine(key, value), Char(':'))
    ensures ReadField(AtClient, FieldLine(key, value)) == (stored, value)
  {
    hide FieldLine, ReadField, Trim;
    NoReturnNoCrlf(value);
    PlainFieldIsClean(key, value);
    PrintedFieldReadsBack(AtClient, key, value);
    assert Lower(key) == stored;
  }

  lemma TypeField()
    ensures var line := FieldLine("Content-Type", "text/event-stream");
            && Without(line, Crlf) && !Without(line, Char(':'))
            && ReadField(AtClient, line) == ("content-type", "text/event-stream")
  {
    hide FieldLine, ReadField, Find;
    var key, value := "Content-Type", "text/event-stream";
    PlainField(key, value, "content-type");
  }

  lemma CacheField()
    ensures var line := FieldLine("Cache-Control", "no-cache");
            && Without(line, Crlf) && !Without(line, Char(':'))
            && ReadField(AtClient, line) == ("cache-control", "no-cache")
  {
    hide FieldLine, ReadField, Find;
    var key, value := "Cache-Control", "no-cache";
    PlainField(key, value, "cache-control");
  }

  lemma CloseField()
    ensures var line := FieldLine("Connection", "close");
            && Without(line, Crlf) && !Without(line, Char(':'))
            && ReadField(AtClient, line) == ("connection", "close")
  {
    hide FieldLine, ReadField, Find;
    var key, value := "Connection", "close";
    PlainField(key, value, "connection");
  }

  lemma FixedFieldsReadBack()
    ensures AllFields(FixedFields()) && CrlfFree(FixedFields())
    ensures Collapsed(ReadFields(AtClient, FixedFields()), map[]) == FixedStored()
  {
    hide ReadField, FieldLine, Find;
    TypeField();
    CacheField();
    CloseField();
    ThreePairs(ReadFields(AtClient, FixedFields()));
  }

  /** The client's headers for a preamble. */
  function StreamHeaders(extra: Fields, order: seq<string>): Fields
    requires Listing(order, extra) && CleanFields(extra)
  {
    PrintedFieldsReadAs(AtClient, Printed(ForStream, order), extra);
    Collapsed(ReadFields(AtClient, FieldLines(Printed(ForStream, order), extra)), FixedStored())
  }

  lemma ExtraHeadersHold(extra: Fields, order: seq<string>)
    requires Listing(order, extra) && CleanFields(extra) && DistinctWhenStored(AtClient, extra)
    ensures var held := StreamHeaders(extra, order);
            forall k :: k in extra ==>
              StoredKey(AtClient, k) in held && held[StoredKey(AtClient, k)] == StoredValue(AtClient, extra[k])
  {
    hide StoredKey, StoredValue, CleanFields, DistinctWhenStored, FixedStored, ReadField, Collapsed;
    forall k | k in extra
      ensures var held := StreamHeaders(extra, order);
              StoredKey(AtClient, k) in held && held[StoredKey(AtClient, k)] == StoredValue(AtClient, extra[k])
    {
      PrintedFieldHeld(AtClient, ForStream, extra, order, FixedStored(), k);
    }
  }

  lemma OtherHeadersStay(extra: Fields, order: seq<string>, n: string)
    requires Listing(order, extra) && CleanFields(extra) && !StoredAs(n, extra)
    ensures var held := StreamHeaders(extra, order);
            (n in held <==> n in FixedStored()) && (n in held ==> held[n] == FixedStored()[n])
  {
    hide StoredKey, StoredValue, CleanFields, FixedStored, ReadField, Collapsed;
    OtherFieldsKept(AtClient, ForStream, extra, order, FixedStored(), n);
  }

  lemma StreamHeadersHold(extra: Fields, order: seq<string>)
    requires Listing(order, extra) && LengthFree(extra)
    ensures "content-length" !in StreamHeaders(extra, order)
    ensures DistinctWhenStored(AtClient, extra) ==> IsStreamHead(StreamHeaders(extra, order), extra)
  {
    hide StoredKey, StoredValue, CleanFields, StreamHeaders, DistinctWhenStored;
    OtherHeadersStay(extra, order, "content-length");
    if DistinctWhenStored(AtClient, extra) {
      ExtraHeadersHold(extra, order);
      forall n: string | !StoredAs(n, extra)
        ensures n in StreamHeaders(extra, order) <==> n in FixedStored()
        ensures n in StreamHeaders(extra, order) ==> StreamHeaders(extra, order)[n] == FixedStored()[n]
      {
        OtherHeadersStay(extra, order, n);
      }
    }
  }

  lemma JoinedIsHead(first: string, a: seq<string>, b: seq<string>)
    requires Without(first, Crlf) && CrlfFree(a) && CrlfFree(b)
    requires AllFields(a) && forall i :: 0 <= i < |b| ==> b[i] != ""
    ensures HeadLines([first] + (a + b))
  {
    hide Find;
    NoOccurrence("", Char(':'), 0);
  }

  lemma PreambleInLines(extra: Fields, order: seq<string>)
    requires forall k :: k in order ==> k in extra
    ensures PreambleLines(extra, order) == [OK_LINE] + (FixedFields() + FieldLines(Printed(ForStream, order), extra))
  {
    hide FieldLine, Printed;
  }

  lemma PreambleIsHead(extra: Fields, order: seq<string>)
    requires Listing(order, extra) && CleanFields(extra)
    ensures HeadLines(PreambleLines(extra, order))
    ensures PreambleLines(extra, order)[1..] == FixedFields() + FieldLines(Printed(ForStream, order), extra)
  {
    hide FixedFields, ReadField, Find, Prints, HeadLines, PreambleLines, FixedStored;
    var fields := FieldLines(Printed(ForStream, order), extra);
    StreamStatusReadsBack();
    FixedFieldsReadBack();
    FieldLinesAreClean(Printed(ForStream, order), extra);
    JoinedIsHead(OK_LINE, FixedFields(), fields);
    PreambleInLines(extra, order);
  }

  /** The client reads the preamble as a 200 with the stream's headers, among which there is no length. */
  lemma PreambleReadsBack(extra: Fields, order: seq<string>)
    requires Listing(order, extra) && LengthFree(extra)
    ensures HeadLines(PreambleLines(extra, order))
    ensures ResponseHead(Unlines(PreambleLines(extra, order))) == Some(HeadInfo(200, StreamHeaders(extra, order)))
    ensures "content-length" !in StreamHeaders(extra, order)
    ensures DistinctWhenStored(AtClient, extra) ==> IsStreamHead(StreamHeaders(extra, order), extra)
  {
    hide ReadField, ParsedStatus, ResponseHead, FixedFields, FixedStored, IsStreamHead, DistinctWhenStored, Prints, HeadLines,
      StoredKey;
    var ls := PreambleLines(extra, order);
    var fields := FieldLines(Printed(ForStream, order), extra);
    PreambleIsHead(extra, order);
    StreamStatusReadsBack();
    FixedFieldsReadBack();
    PrintedFieldsReadAs(AtClient, Printed(ForStream, order), extra);
    StreamHeadersHold(extra, order);
    ClientParsesLines(ls);
    ReadConcat(AtClient, FixedFields(), fields, map[]);
    HeadLinesStore(ls[1..], map[]);
  }

  /** Behind a whole preamble everything is body, up to the end of the stream. */
  lemma StreamIsFramed(extra: Fields, order: seq<string>, body: string, maxResponse: nat)
    requires Listing(order, extra) && LengthFree(extra)
    ensures FramingOf(Preamble(extra, order) + body, maxResponse) ==
            Framed(|Preamble(extra, order)|, HeadInfo(200, StreamHeaders(extra, order)), None)
  {
    hide PreambleLines, ResponseHead, StreamHeaders, IsStreamHead;
    PreambleReadsBack(extra, order);
    var head := Unlines(PreambleLines(extra, order));
    BlankLineAfterHead(PreambleLines(extra, order), body);
    assert (Preamble(extra, order) + body)[..|head|] == head;
  }

  /** What the client returns for the part `t` of a stream that arrives: all of the body, if it can see the end. */
  lemma PartOfStreamReceived(extra: Fields, order: seq<string>, body: string, incoming: seq<Recv>, maxResponse: nat)
    requires Listing(order, extra) && LengthFree(extra)
    requires Delivered(incoming) <= Preamble(extra, order) + body
    ensures var t, answer := Delivered(incoming), Received("", incoming, maxResponse);
            && (answer.Some? <==> |Preamble(extra, order)| <= |t| <= maxResponse && Ending(incoming) == Eof)
            && (answer.Some? ==>
                  && answer.value.statusCode == 200 && answer.value.body == t[|Preamble(extra, order)|..]
                  && (DistinctWhenStored(AtClient, extra) ==> IsStreamHead(answer.value.headers, extra)))
  {
    hide Preamble, Framed', Received, StreamHeaders, IsStreamHead, DistinctWhenStored;
    var t, whole := Delivered(incoming), Preamble(extra, order) + body;
    StreamHeadersHold(extra, order);
    StreamIsFramed(extra, order, body, maxResponse);
    assert whole == t + whole[|t|..];
    ClientChunking.FramingOfPrefix(t, whole[|t|..], maxResponse);
    ClientChunking.BytesDecide(incoming, maxResponse);
  }

  // ---------- The events that are seen ----------

  lemma ExpectedOfPrefix(sends: seq<Pair>, last: Pair, k: nat)
    requires k <= |sends|
    ensures Expected((sends + [last])[..k]) <= Expected(sends)
    ensures Expected((sends + [last])[..k]) == Expected(sends) <==> k == |sends|
  {
  }

  /** The events in a cut-off body: a prefix of the events that were sent in full, all of them if nothing was cut off. */
  lemma EventsInPart(log: seq<Pair>, torn: string, last: Pair, t: string)
    requires CleanSends(log) && TornFrame(torn, last) && t <= Frames(log) + torn
    ensures Events(t) <= Expected(log)
    ensures t == Frames(log) + torn ==> Events(t) == Expected(log)
  {
    hide Frame, EventsFrom, Frames, Expected, WholeFrames;
    var sends := log + [last];
    FramesSnoc(log, last);
    assert t <= Frames(sends);
    FramesHaveNoBom(sends, t);
    EventsSoFar(sends, t);
    WholeFramesBefore(log, last, torn);
    WholeFramesGrow(sends, |t|, |Frames(log)| + |torn|);
    ExpectedOfPrefix(log, last, WholeFrames(sends, |t|));
  }

  /** What is torn is a proper part of a frame; possibly nothing of it. */
  ghost predicate TornFrame(torn: string, last: Pair) {
    CleanSend(last.0, last.1) && torn < Frame(last.0, last.1)
  }

  /** The client's answer for the part `t` of what a stream has written. */
  ghost predicate ShowsEvents(answer: Option<ClientResponse>, incoming: seq<Recv>, extra: Fields, order: seq<string>,
                              s: Stream, maxResponse: nat)
    requires Listing(order, extra)
  {
    var t := Delivered(incoming);
    && (answer.Some? <==> |Preamble(extra, order)| <= |t| <= maxResponse && Ending(incoming) == Eof)
    && (answer.Some? ==> answer.value.statusCode == 200 && Events(answer.value.body) <= Expected(s.log))
    && (answer.Some? && DistinctWhenStored(AtClient, extra) ==> IsStreamHead(answer.value.headers, extra))
    && (answer.Some? && t == s.kernel.written ==> Events(answer.value.body) == Expected(s.log))
  }

  lemma TornPart(s: Stream, preamble: string) returns (last: Pair)
    requires PreambleAndFrames(s, "", preamble) && CleanSends(Told(s))
    ensures CleanSends(s.log) && TornFrame(s.torn, last)
  {
    hide Frame;
    assert forall i :: 0 <= i < |s.log| ==> Told(s)[i] == s.log[i];
    match s.lost
    case None => last := ("", "");
    case Some(event) =>
      last := event;
      assert Told(s)[|s.log|] == event;
  }

  lemma BytesOfStream(s: Stream, extra: Fields, order: seq<string>, incoming: seq<Recv>, maxResponse: nat)
    requires Listing(order, extra) && LengthFree(extra)
    requires WellFormed(s, "", Preamble(extra, order)) && CleanSends(Told(s))
    requires Delivered(incoming) <= s.kernel.written
    ensures ShowsEvents(Received("", incoming, maxResponse), incoming, extra, order, s, maxResponse)
  {
    hide Preamble, Received, LengthFree, IsStreamHead, DistinctWhenStored, Events, Expected, Frame, Frames, TornFrame, CleanSends;
    var preamble := Preamble(extra, order);
    if PartOfPreamble(s, "", preamble) {
      assert Delivered(incoming) <= preamble + "";
      PartOfStreamReceived(extra, order, "", incoming, maxResponse);
    } else {
      var last := TornPart(s, preamble);
      var body := Frames(s.log) + s.torn;
      assert s.kernel.written == preamble + body;
      PartOfStreamReceived(extra, order, body, incoming, maxResponse);
      if |preamble| <= |Delivered(incoming)| {
        EventsInPart(s.log, s.torn, last, Delivered(incoming)[|preamble|..]);
      }
    }
  }

  /**
   Whatever the handler does and whichever writes fail: a client that gets any part of the bytes
   has an answer exactly if it got the preamble, no more than it accepts, and then the end of the
   stream.  The answer is a 200 whose body holds a prefix of the events whose `send` returned true,
   in order, and all of them if no written byte is lost.
   */
  lemma EventsReachTheClient(p: StreamProgram, k: Kernel, extra: Fields, order: seq<string>,
                             incoming: seq<Recv>, maxResponse: nat)
    requires Listing(order, extra) && LengthFree(extra) && k.written == ""
    requires CleanSends(Attempted(p, Opened(true, k, Preamble(extra, order))))
    requires Delivered(incoming) <= Ran(p, Opened(true, k, Preamble(extra, order))).stream.kernel.written
    ensures ShowsEvents(Received("", incoming, maxResponse), incoming, extra, order,
                        Ran(p, Opened(true, k, Preamble(extra, order))).stream, maxResponse)
  {
    hide Preamble, Ran, Received, LengthFree, WellFormed, CleanSends, ShowsEvents, Attempted, Pushed;
    var preamble := Preamble(extra, order);
    var start := Opened(true, k, preamble);
    OpenedIsWellFormed(true, k, preamble);
    RunIsWellFormed(p, start, "", preamble);
    AttemptsAreTold(p, start);
    assert Told(start) == [] && [] + Attempted(p, start) == Attempted(p, start);
    BytesOfStream(Ran(p, start).stream, extra, order, incoming, maxResponse);
  }

  // ---------- The whole streaming exchange ----------

  lemma NothingReceived(incoming: seq<Recv>, maxResponse: nat)
    requires Delivered(incoming) == ""
    ensures Received("", incoming, maxResponse) == None
  {
    NoOccurrence("", BlankLine, 0);
    ClientChunking.BytesDecide(incoming, maxResponse);
  }

  ghost predicate IsRoute(x: Parties, st: Start) {
    IsOrder(x.site.order) && st.route < |x.site.routes| && x.site.routes[st.route].Streaming?
  }

  /** What the handler attempts, once the handle is its own. */
  ghost function AttemptsOf(x: Parties, st: Start): seq<Pair>
    requires IsRoute(x, st)
  {
    assert Listing(x.site.order(st.headers), st.headers);
    var bound := WithBindings(st.request, x.site.routes[st.route].pattern);
    Attempted(x.site.routes[st.route].streamHandler(bound),
              Opened(true, x.server.(incoming := x.left), Preamble(st.headers, x.site.order(st.headers))))
  }

  /** The stream that is started with `st`. */
  ghost function StreamIn(x: Parties, st: Start): Stream
    requires IsRoute(x, st)
  {
    var bound := WithBindings(st.request, x.site.routes[st.route].pattern);
    StreamOf(x.site, st.route, bound, st.headers, true, x.server.(incoming := x.left)).stream
  }

  /**
   One exchange whose chain starts a stream, the first one with `st`.  A request that does not
   arrive whole gets nothing.  One that does gets the bytes of that stream, and the caller has its
   events as `EventsReachTheClient` says.
   */
  lemma StreamingExchange(x: Parties, st: Start)
    requires x.Valid() && x.Wired()
    requires Parsed(x.Sent()).Success? ==> FirstStream(x.Run().context.trace) == Some(st)
    ensures Delivered(x.server.incoming) != x.Sent() ==> x.ServerWrote() == "" && x.Result() == None
    ensures Delivered(x.server.incoming) == x.Sent() ==>
              && IsRoute(x, st) && x.ServerWrote() == StreamIn(x, st).kernel.written
              && Listing(x.site.order(st.headers), st.headers)
              && (LengthFree(st.headers) && CleanSends(AttemptsOf(x, st)) ==>
                    ShowsEvents(x.Result(), x.client.incoming, st.headers, x.site.order(st.headers),
                                StreamIn(x, st), x.maxResponse))
  {
    hide BuiltRequest, Parsed, ServedConnection, Chain.RunChain, Received, LengthFree, Preamble, CleanSends, ShowsEvents,
      FirstStream, Pushed, IntakeOf, StreamOf, Attempted, IsRequestOf, WithBindings;
    CallIsParsed(x);
    assert x.client.written + Pushed(x.client.sends, x.Sent()).sent == Pushed(x.client.sends, x.Sent()).sent;
    RequestAllOrNothing(x.call, x.callOrder, x.caps, x.server.incoming);
    OneMessageOneClose(x.site, x.caps, x.server, x.left, x.gate);
    if Delivered(x.server.incoming) != x.Sent() {
      NothingReceived(x.client.incoming, x.maxResponse);
    } else {
      assert Listing(x.site.order(st.headers), st.headers);
      if LengthFree(st.headers) && CleanSends(AttemptsOf(x, st)) {
        StreamIsShown(x, st);
      }
    }
  }

  lemma StreamIsShown(x: Parties, st: Start)
    requires x.Valid() && IsRoute(x, st)
    requires Listing(x.site.order(st.headers), st.headers) && LengthFree(st.headers) && CleanSends(AttemptsOf(x, st))
    requires Delivered(x.client.incoming) <= StreamIn(x, st).kernel.written
    ensures ShowsEvents(Received("", x.client.incoming, x.maxResponse), x.client.incoming,
                        st.headers, x.site.order(st.headers), StreamIn(x, st), x.maxResponse)
  {
    hide Preamble, Ran, Received, LengthFree, CleanSends, Attempted, Opened, Expected, Events, WithBindings;
    var bound := WithBindings(st.request, x.site.routes[st.route].pattern);
    EventsReachTheClient(x.site.routes[st.route].streamHandler(bound), x.server.(incoming := x.left), st.headers,
                         x.site.order(st.headers), x.client.incoming, x.maxResponse);
  }
}
