/**
 The client: the request printer, the response-head parser, and the loop that reads until the
 framed response is complete.  The loop caches what it has learnt (`headEnd`, `expectedBody`,
 `hasLength`); its meaning, `Received`, looks at nothing but the bytes so far.
 */
module HttpClient {
  import opened ByteStrings
  import opened Messages
  import opened HeaderFields
  import opened Transport

  // ---------- Requests ----------

  /** What a caller of `send` hands over. */
  datatype Call = Call(verb: HttpMethod, host: string, port: nat, path: string, body: string, headers: Fields)

  function RequestLine(call: Call): string {
    MethodToString(call.verb) + " " + call.path + " " + "HTTP/1.1"
  }

  function HostField(call: Call): string {
    call.host + ":" + Decimal(call.port)
  }

  /** The request line, the three fields the client owns, then the caller's other fields. */
  function RequestLines(call: Call, order: seq<string>): seq<string>
    requires forall k :: k in order ==> k in call.headers
  {
    [RequestLine(call),
     FieldLine("Host", HostField(call)),
     FieldLine("Connection", "close"),
     FieldLine("Content-Length", Decimal(|call.body|))]
    + FieldLines(Printed(ForRequest, order), call.headers)
  }

  function BuiltRequest(call: Call, order: seq<string>): string
    requires forall k :: k in order ==> k in call.headers
  {
    Unlines(RequestLines(call, order)) + CRLF_CRLF + call.body
  }

  method AppendOwnedFields(call: Call) returns (request: string)
    ensures request == OwnedText(call)
  {
    request := MethodToString(call.verb);
    request := request + " ";
    request := request + call.path;
    request := request + " " + "HTTP/1.1" + CRLF;
    request := request + ("Host" + ": " + (call.host + ":" + Decimal(call.port))) + CRLF;
    request := request + ("Connection" + ": " + "close") + CRLF;
    request := request + ("Content-Length" + ": " + Decimal(|call.body|)) + CRLF;
  }

  method BuildRequest(call: Call, order: seq<string>) returns (request: string)
    requires Listing(order, call.headers)
    ensures request == BuiltRequest(call, order)
  {
    hide BuiltRequest, OwnedText, Lower, ClientOwns, PrintedText;
    request := AppendOwnedFields(call);
    ghost var start, m := request, call.headers;
    PrintNothing(ForRequest, order[..0], m);
    for i := 0 to |order|
      invariant request == start + PrintedText(ForRequest, order[..i], m)
    {
      PrintOneMore(ForRequest, order, m, i);
      if ClientOwns(Lower(order[i])) {
        continue;
      }
      request := request + (order[i] + ": " + call.headers[order[i]] + CRLF);
    }
    assert order[..|order|] == order;
    RequestInParts(call, order);
    request := request + CRLF;
    request := request + call.body;
  }

  /** The head up to and including the three fields the client owns. */
  function OwnedText(call: Call): string {
    RequestLine(call) + CRLF
    + FieldLine("Host", HostField(call)) + CRLF
    + FieldLine("Connection", "close") + CRLF
    + FieldLine("Content-Length", Decimal(|call.body|)) + CRLF
  }

  lemma RequestInParts(call: Call, order: seq<string>)
    requires forall k :: k in order ==> k in call.headers
    ensures BuiltRequest(call, order) ==
            OwnedText(call) + PrintedText(ForRequest, order, call.headers) + CRLF + call.body
  {
    FourLinesThen(RequestLine(call), FieldLine("Host", HostField(call)), FieldLine("Connection", "close"),
                   FieldLine("Content-Length", Decimal(|call.body|)),
                   FieldLines(Printed(ForRequest, order), call.headers));
  }

  // ---------- Response heads ----------

  datatype ClientResponse = ClientResponse(statusCode: int, headers: Fields, body: string)

  /** `parseNumber`: blanks around the digits are allowed, anything else is not. */
  function ParsedNumber(text: string): Option<nat> {
    FromChars(Trim(text))
  }

  function UpTo(s: string, at: Option<nat>): string
    requires at.Some? ==> at.value <= |s|
  {
    match at case Some(i) => s[..i] case None => s
  }

  const HTTP_PREFIX := "HTTP/"

  /** The status code is the second space-separated token of a line that starts with "HTTP/". */
  function ParsedStatus(line: string): Option<nat> {
    match Find(line, Char(' '))
    case None => None
    case Some(i) =>
      if !(HTTP_PREFIX <= line) then None
      else
        var afterVersion := line[i + 1..];
        match ParsedNumber(UpTo(afterVersion, Find(afterVersion, Char(' '))))
        case None => None
        case Some(code) => if code < 100 || code > 599 then None else Some(code)
  }

  /** The lines of the part after the status line; nothing, if that part is empty. */
  function LinesIfAny(rest: string): seq<string> {
    if rest == "" then []
    else match Find(rest, Crlf)
      case None => [rest]
      case Some(i) => [rest[..i]] + LinesIfAny(rest[i + 2..])
  }

  datatype HeadInfo = HeadInfo(statusCode: nat, headers: Fields)

  function WithHeadLines(ls: seq<string>, headers: Fields): Option<Fields> {
    if ls == [] then Some(headers)
    else if Without(ls[0], Char(':')) then None
    else
      var field := ReadField(AtClient, ls[0]);
      WithHeadLines(ls[1..], headers[field.0 := field.1])
  }

  /** The first line of what is left, and what is left after it. */
  function FirstLine(rest: string): string {
    UpTo(rest, Find(rest, Crlf))
  }

  function AfterFirstLine(rest: string): (later: string)
    ensures rest != "" ==> |later| < |rest|
  {
    match Find(rest, Crlf) case None => "" case Some(i) => rest[i + 2..]
  }

  function ResponseHead(head: string): Option<HeadInfo> {
    match ParsedStatus(FirstLine(head))
    case None => None
    case Some(code) =>
      match WithHeadLines(LinesIfAny(AfterFirstLine(head)), map[])
      case None => None
      case Some(headers) => Some(HeadInfo(code, headers))
  }

  lemma HeadLineStep(rest: string, headers: Fields)
    requires rest != ""
    ensures WithHeadLines(LinesIfAny(rest), headers) ==
            if Without(FirstLine(rest), Char(':')) then None
            else
              var field := ReadField(AtClient, FirstLine(rest));
              WithHeadLines(LinesIfAny(AfterFirstLine(rest)), headers[field.0 := field.1])
  {
    var ls := LinesIfAny(rest);
    assert ls == [FirstLine(rest)] + LinesIfAny(AfterFirstLine(rest));
    assert ls[1..] == LinesIfAny(AfterFirstLine(rest));
  }

  method ParseStatusLine(statusLine: string) returns (status: Option<nat>)
    ensures status == ParsedStatus(statusLine)
  {
    var firstSpace := Find(statusLine, Char(' '));
    if firstSpace.None? || !(HTTP_PREFIX <= statusLine) {
      return None;
    }
    var afterVersion := statusLine[firstSpace.value + 1..];
    var code := ParsedNumber(UpTo(afterVersion, Find(afterVersion, Char(' '))));
    if code.None? || code.value < 100 || code.value > 599 {
      return None;
    }
    return code;
  }

  method ParseHead(head: string) returns (out: Option<HeadInfo>)
    ensures out == ResponseHead(head)
  {
    var code := ParseStatusLine(FirstLine(head));
    if code.None? {
      return None;
    }
    var headers: Fields := map[];
    var rest := AfterFirstLine(head);
    ghost var stored := WithHeadLines(LinesIfAny(rest), map[]);
    while rest != ""
      invariant WithHeadLines(LinesIfAny(rest), headers) == stored
      decreases |rest|
    {
      HeadLineStep(rest, headers);
      var line := FirstLine(rest);
      rest := AfterFirstLine(rest);

      if Without(line, Char(':')) {
        return None;
      }
      var field := ReadField(AtClient, line);
      headers := headers[field.0 := field.1];
    }
    return Some(HeadInfo(code.value, headers));
  }

  // ---------- Responses ----------

  /**
   What the bytes so far say about the response: no head yet, an unacceptable one, or where
   the body starts and how long it is (`None`: until the server closes).
   */
  datatype Framing = NoHead | BadHead | Framed(bodyStart: nat, head: HeadInfo, length: Option<nat>)

  function Framed'(bodyStart: nat, head: string, maxResponse: nat): Framing {
    match ResponseHead(head)
    case None => BadHead
    case Some(h) =>
      if "content-length" !in h.headers then Framed(bodyStart, h, None)
      else match ParsedNumber(h.headers["content-length"])
        case None => BadHead
        case Some(n) => if n > maxResponse then BadHead else Framed(bodyStart, h, Some(n))
  }

  function FramingOf(received: string, maxResponse: nat): (f: Framing)
    ensures f.Framed? ==> 4 <= f.bodyStart <= |received|
    ensures f.NoHead? <==> Without(received, BlankLine)
  {
    match Find(received, BlankLine)
    case None => NoHead
    case Some(b) => Framed'(b + 4, received[..b], maxResponse)
  }

  datatype Verdict = More | Rejected | Complete(response: ClientResponse)

  function Answer(h: HeadInfo, body: string): ClientResponse {
    ClientResponse(h.statusCode, h.headers, body)
  }

  /** Is a response of this framing complete? */
  function Judged(received: string, f: Framing): Verdict
    requires f.Framed? ==> f.bodyStart <= |received|
  {
    match f
    case NoHead => More
    case BadHead => Rejected
    case Framed(start, h, None) => More
    case Framed(start, h, Some(n)) =>
      if |received| - start >= n then Complete(Answer(h, received[start..start + n])) else More
  }

  function VerdictOn(received: string, maxResponse: nat): Verdict {
    if |received| > maxResponse then Rejected else Judged(received, FramingOf(received, maxResponse))
  }

  /** When the server has finished, only a body without a declared length is complete. */
  function Finished(received: string, f: Framing): Option<ClientResponse>
    requires f.Framed? ==> f.bodyStart <= |received|
  {
    if f.Framed? && f.length.None? then Some(Answer(f.head, received[f.bodyStart..])) else None
  }

  /** The result of reading on after `received`. */
  function Received(received: string, incoming: seq<Recv>, maxResponse: nat): Option<ClientResponse>
    decreases |incoming|
  {
    match VerdictOn(received, maxResponse)
    case Rejected => None
    case Complete(response) => Some(response)
    case More =>
      if incoming == [] || incoming[0].Eof? then Finished(received, FramingOf(received, maxResponse))
      else if incoming[0].Failed? then None
      else Received(received + incoming[0].bytes, incoming[1..], maxResponse)
  }

  /** More bytes change the framing of a response only as long as its head is missing. */
  lemma FramingIsStable(received: string, bytes: string, maxResponse: nat)
    requires !Without(received, BlankLine)
    ensures FramingOf(received + bytes, maxResponse) == FramingOf(received, maxResponse)
  {
    FindInPrefix(received, bytes, BlankLine, 0);
    var b := Find(received, BlankLine).value;
    assert (received + bytes)[..b] == received[..b];
  }

  class HttpClient {
    const maxResponseSize: nat

    constructor (maxResponseSize: nat)
      ensures this.maxResponseSize == maxResponseSize
    {
      this.maxResponseSize := maxResponseSize;
    }

    /** Looks for the head in `received` and, once it is there, works out how the body ends. */
    method ExamineHead(received: string) returns (f: Framing)
      ensures f == FramingOf(received, maxResponseSize)
    {
      var blank := Find(received, BlankLine);
      if blank.None? {
        return NoHead;
      }
      var head := ParseHead(received[..blank.value]);
      if head.None? {
        return BadHead;
      }
      if "content-length" in head.value.headers {
        var length := ParsedNumber(head.value.headers["content-length"]);
        if length.None? || length.value > maxResponseSize {
          return BadHead;
        }
        return Framed(blank.value + 4, head.value, length);
      }
      return Framed(blank.value + 4, head.value, None);
    }

    /**
     The receive loop.  It parses the head once and keeps the result in `f`; the answer is
     nevertheless the one of `Received`, which looks at the bytes afresh after every read.
     */
    method ReceiveResponse(socket: Socket) returns (response: Option<ClientResponse>)
      requires socket.fd != null
      modifies socket.fd
      ensures response == Received("", old(socket.fd.incoming), maxResponseSize)
      ensures socket.fd.View() == old(socket.fd.View()).(incoming := socket.fd.incoming)
    {
      hide Framed';
      var received := "";
      var f := NoHead;
      ghost var goal := Received("", socket.fd.incoming, maxResponseSize);
      NoOccurrence("", BlankLine, 0);

      while true
        invariant Received(received, socket.fd.incoming, maxResponseSize) == goal
        invariant |received| <= maxResponseSize
        invariant f == FramingOf(received, maxResponseSize) && !f.BadHead?
        invariant socket.fd.View() == old(socket.fd.View()).(incoming := socket.fd.incoming)
        decreases |socket.fd.incoming|
      {
        if f.Framed? && f.length.Some? && |received| - f.bodyStart >= f.length.value {
          break;
        }
        var got := socket.Receive();
        if got.Failed? {
          return None;
        }
        if got.Eof? {
          if f.NoHead? {
            return None;
          }
          if f.length.Some? && |received| - f.bodyStart < f.length.value {
            return None;
          }
          break;
        }
        if f.Framed? {
          FramingIsStable(received, got.bytes, maxResponseSize);
        }
        received := received + got.bytes;
        if |received| > maxResponseSize {
          return None;
        }
        if f.NoHead? {
          f := ExamineHead(received);
          if f.BadHead? {
            return None;
          }
        }
      }
      var body := if f.length.Some? then received[f.bodyStart..f.bodyStart + f.length.value] else received[f.bodyStart..];
      return Some(Answer(f.head, body));
    }

    /**
     `send` from the point at which it owns a connected socket (or failed to get one): write the
     request, read the response, and give the handle up on every path.
     */
    method Send(socket: Socket, call: Call, order: seq<string>) returns (response: Option<ClientResponse>)
      requires Listing(order, call.headers)
      modifies socket, if socket.fd == null then {} else {socket.fd}
      ensures socket.fd == null
      ensures old(socket.fd) == null ==> response == None
      ensures old(socket.fd) != null ==>
                var h, k := old(socket.fd), old(socket.fd.View());
                var push := Pushed(k.sends, BuiltRequest(call, order));
                && response == (if push.ok then Received("", k.incoming, maxResponseSize) else None)
                && h.View() == AfterSend(k, BuiltRequest(call, order)).(incoming := h.incoming, closes := k.closes + 1)
                && (!push.ok ==> h.incoming == k.incoming)
    {
      if !(socket.fd != null) {
        return None;
      }
      var request := BuildRequest(call, order);
      ghost var h := socket.fd;
      ghost var start := h.View();
      StartOfSend(start, request);
      var sent := 0;
      while sent < |request|
        invariant 0 <= sent <= |request| && socket.fd == h
        invariant Sending(start, h.View(), request, sent)
      {
        ghost var before := h.View();
        var written := socket.Send(request[sent..]);
        SendStep(start, before, request, sent);
        if written <= 0 {
          socket.Close();
          return None;
        }
        sent := sent + written;
      }
      SendDone(start, h.View(), request);
      response := ReceiveResponse(socket);
      socket.Close();
    }
  }
}
