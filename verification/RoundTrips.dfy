/**
 The two printers against the two parsers.  A printed request parses back to what the caller
 gave, a printed response to what the handler gave, for every iteration order of the header
 maps and whatever the body contains.
 */
module RoundTrips {
  import opened ByteStrings
  import opened Messages
  import opened HeaderFields
  import opened UrlQuery
  import opened HttpParser
  import opened HttpSerializer
  import opened HttpClient
  import opened RequestIntake

  // ---------- Requests ----------

  /** What the request line and the Host field need to stay on their lines and in their places. */
  ghost predicate CleanCall(call: Call) {
    && Without(call.path, Char(' ')) && Without(call.path, Crlf) && Without(call.host, Crlf)
    && CleanFields(call.headers) && DistinctWhenStored(AtServer, call.headers)
  }

  /** The request a server should see for a call. */
  ghost predicate IsRequestOf(r: Request, call: Call) {
    && r.verb == call.verb && r.version == "HTTP/1.1" && r.body == call.body && r.pathParams == map[]
    && ReadsTarget(r.path, r.queryParams, call.path)
    && HoldsOwned(r.headers, call) && HoldsCallers(r.headers, call)
  }

  const OWNED := ["host", "connection", "content-length"]

  /** Every other field the caller gave, as the server stores it, and no further ones. */
  ghost predicate HoldsCallers(held: Fields, call: Call) {
    && (forall k :: k in call.headers && Lower(k) !in OWNED ==>
          Lower(k) in held && held[Lower(k)] == DropSpaces(call.headers[k]))
    && (forall n :: n in held && n !in OWNED ==> exists k :: k in call.headers && Lower(k) == n)
  }

  /** The three fields the client sets, as the server stores them. */
  ghost predicate HoldsOwned(held: Fields, call: Call) {
    && "host" in held && held["host"] == DropSpaces(call.host + ":" + Decimal(call.port))
    && "connection" in held && held["connection"] == "close"
    && "content-length" in held && held["content-length"] == Decimal(|call.body|)
  }

  const HTTP_VERSION := "HTTP/1.1"

  lemma {:induction false} RequestLineReadsBack(call: Call)
    requires Without(call.path, Char(' ')) && Without(call.path, Crlf)
    ensures var line := RequestLine(call);
            && Without(line, Crlf) && !IsLengthLine(line) && HasTwoSpaces(line)
            && WithRequestLine(line, EmptyRequest) ==
               Success(WithTarget(call.path, EmptyRequest.(verb := call.verb)).(version := HTTP_VERSION))
  {
    hide WithTarget, IsLengthLine, MethodFromString, MethodToString, Find;
    var m := MethodToString(call.verb);
    MethodRoundTrip(call.verb);
    NoReturnNoCrlf(m);
    NoSuchChar(m, ' ');
    NoReturnNoCrlf(HTTP_VERSION);
    ThreeFieldsAreClean(m, call.path, HTTP_VERSION);
    CutAtSpaces(m, call.path, HTTP_VERSION);
    ThreeParts(m, call.path, HTTP_VERSION);
    NoLengthBeforeSpace(m, " " + call.path + " " + HTTP_VERSION);
    assert m + (" " + call.path + " " + HTTP_VERSION) == RequestLine(call);
  }

  lemma CutAtSpaces(a: string, b: string, c: string)
    requires Without(a, Char(' ')) && Without(b, Char(' '))
    ensures var line := a + " " + b + " " + c;
            && Find(line, Char(' ')) == Some(|a|)
            && Find(line, Char(' '), |a| + 1) == Some(|a| + 1 + |b|)
  {
    hide Find;
    var line, rest := a + " " + b + " " + c, b + " " + c;
    TwoParts(a, b, c);
    FirstSpace(line, a, rest);
    SecondSpace(line, |a| + 1, b, c);
  }

  lemma TwoParts(a: string, b: string, c: string)
    ensures a + " " + b + " " + c == a + " " + (b + " " + c)
    ensures (a + " " + b + " " + c)[|a| + 1..] == b + " " + c
  {
  }

  lemma FirstSpace(line: string, a: string, rest: string)
    requires Without(a, Char(' ')) && line == a + " " + rest
    ensures Find(line, Char(' ')) == Some(|a|)
  {
    CutAtChar(a, " ", ' ', rest);
  }

  lemma SecondSpace(line: string, k: nat, b: string, c: string)
    requires Without(b, Char(' ')) && k <= |line| && line[k..] == b + " " + c
    ensures Find(line, Char(' '), k) == Some(k + |b|)
  {
    hide Find;
    CutAtChar(b, " ", ' ', c);
    FindInRest(line, b + " " + c, Char(' '), k);
  }

  lemma ThreeParts(a: string, b: string, c: string)
    ensures var line := a + " " + b + " " + c;
            && line[..|a|] == a && line[|a| + 1..|a| + 1 + |b|] == b && line[|a| + 1 + |b| + 1..] == c
  {
  }

  /** A line whose first token is followed by a space before any colon names no field of the scan. */
  lemma NoLengthBeforeSpace(token: string, rest: string)
    requires ':' !in token && rest != "" && rest[0] == ' '
    ensures !IsLengthLine(token + rest)
  {
    var line := token + rest;
    assert ' ' !in LENGTH_KEY;
    if Find(line, Char(':')).Some? {
      var i := Find(line, Char(':')).value;
      assert i > |token|;
      assert Lower(line[..i])[|token|] == ' ';
    }
  }

  /** The fields the client owns, as a list. */
  function OwnedFields(call: Call): seq<string> {
    [FieldLine("Host", HostField(call)),
     FieldLine("Connection", "close"),
     FieldLine("Content-Length", Decimal(|call.body|))]
  }

  lemma HostFieldIsClean(call: Call)
    requires Without(call.host, Crlf)
    ensures CleanField("Host", HostField(call)) && Without(FieldLine("Host", HostField(call)), Crlf)
  {
    PrintedNumberIsClean(call.port);
    CleanAround(call.host, ":", Decimal(call.port));
    PlainFieldIsClean("Host", HostField(call));
  }

  lemma RequestHeadIsClean(call: Call, order: seq<string>)
    requires CleanCall(call) && Listing(order, call.headers)
    ensures HeadLines(RequestLines(call, order))
  {
    hide Find;
    RequestLineReadsBack(call);
    HostFieldIsClean(call);
    CloseFieldIsClean();
    PrintedNumberIsClean(|call.body|);
    LengthFieldIsClean(Decimal(|call.body|));
    FieldLinesAreClean(Printed(ForRequest, order), call.headers);
  }

  lemma OwnedKeysInLowerCase()
    ensures Lower("Host") == "host" && Lower("Connection") == "connection"
  {
    assert forall i :: 0 <= i < 4 ==> LowerChar("Host"[i]) == "host"[i];
    assert forall i :: 0 <= i < 10 ==> LowerChar("Connection"[i]) == "connection"[i];
  }

  /** The owned fields as the server stores them. */
  function OwnedStored(call: Call): Fields {
    map["host" := DropSpaces(HostField(call)), "connection" := "close", "content-length" := Decimal(|call.body|)]
  }

  lemma CloseHasNoSpaces()
    ensures DropSpaces("close") == "close" && Trim("close") == "close"
  {
  }

  lemma OwnedFieldsReadBack(call: Call)
    requires Without(call.host, Crlf)
    ensures AllFields(OwnedFields(call))
    ensures Collapsed(ReadFields(AtServer, OwnedFields(call)), map[]) == OwnedStored(call)
  {
    hide ReadField, HostField, DropSpaces, Decimal, Lower, Without, CleanField;
    HostFieldIsClean(call);
    CloseFieldIsClean();
    PrintedNumberIsClean(|call.body|);
    LengthFieldIsClean(Decimal(|call.body|));
    PrintedFieldReadsBack(AtServer, "Host", HostField(call));
    PrintedFieldReadsBack(AtServer, "Connection", "close");
    PrintedFieldReadsBack(AtServer, "Content-Length", Decimal(|call.body|));
    OwnedKeysInLowerCase();
    LengthKeyInLowerCase();
    CloseHasNoSpaces();
    ThreePairs(ReadFields(AtServer, OwnedFields(call)));
  }

  lemma ThreePairs(ps: seq<Pair>)
    requires |ps| == 3
    ensures Collapsed(ps, map[]) == map[][ps[0].0 := ps[0].1][ps[1].0 := ps[1].1][ps[2].0 := ps[2].1]
  {
    var m: Fields := map[];
    var m1 := m[ps[0].0 := ps[0].1];
    var m2 := m1[ps[1].0 := ps[1].1];
    assert Collapsed(ps, m) == Collapsed(ps[1..], m1);
    assert ps[1..][1..] == [ps[2]] && [ps[2]][1..] == [];
    assert Collapsed(ps[1..], m1) == Collapsed([ps[2]], m2);
    assert Collapsed([ps[2]], m2) == m2[ps[2].0 := ps[2].1];
  }

  lemma FieldsAfterRequestLine(call: Call, order: seq<string>)
    requires Listing(order, call.headers)
    ensures RequestLines(call, order)[1..] == OwnedFields(call) + FieldLines(Printed(ForRequest, order), call.headers)
  {
    hide FieldLine, RequestLine, Prints;
  }

  /** The header map the parser ends up with: the owned fields, then the caller's. */
  lemma RequestFieldsReadBack(call: Call, order: seq<string>)
    requires CleanCall(call) && Listing(order, call.headers)
    ensures var fields := FieldLines(Printed(ForRequest, order), call.headers);
            && RequestLines(call, order)[1..] == OwnedFields(call) + fields
            && AllFields(OwnedFields(call) + fields) && AllFields(fields)
            && Collapsed(ReadFields(AtServer, OwnedFields(call) + fields), map[]) ==
               Collapsed(ReadFields(AtServer, fields), OwnedStored(call))
  {
    hide OwnedStored, OwnedFields, RequestLines, ReadField, Lower, Prints;
    var keys := Printed(ForRequest, order);
    var fields := FieldLines(keys, call.headers);
    FieldsAfterRequestLine(call, order);
    OwnedFieldsReadBack(call);
    PrintedFieldsReadAs(AtServer, keys, call.headers);
    ReadConcat(AtServer, OwnedFields(call), fields, map[]);
  }

  /** What the printed caller fields make of a header map. */
  function WithCallers(call: Call, order: seq<string>, start: Fields): Fields
    requires CleanCall(call) && Listing(order, call.headers)
  {
    PrintedFieldsReadAs(AtServer, Printed(ForRequest, order), call.headers);
    Collapsed(ReadFields(AtServer, FieldLines(Printed(ForRequest, order), call.headers)), start)
  }

  /** The fields the client owns are not overwritten. */
  lemma OwnedFieldsStay(call: Call, order: seq<string>, start: Fields, n: string)
    requires CleanCall(call) && Listing(order, call.headers) && n in OWNED
    ensures var held := WithCallers(call, order, start);
            (n in held <==> n in start) && (n in start ==> held[n] == start[n])
  {
    hide CleanField, Lower;
    OtherFieldsKept(AtServer, ForRequest, call.headers, order, start, n);
  }

  /** Each caller field is held, and nothing else is added. */
  lemma CallersAreHeld(call: Call, order: seq<string>, start: Fields)
    requires CleanCall(call) && Listing(order, call.headers) && forall n :: n in start ==> n in OWNED
    ensures HoldsCallers(WithCallers(call, order, start), call)
  {
    hide CleanField, Lower, DropSpaces, ReadField, Collapsed;
    var held := WithCallers(call, order, start);
    forall k | k in call.headers && Lower(k) !in OWNED
      ensures Lower(k) in held && held[Lower(k)] == DropSpaces(call.headers[k])
    {
      PrintedFieldHeld(AtServer, ForRequest, call.headers, order, start, k);
    }
    forall n | n in held && n !in OWNED
      ensures exists k :: k in call.headers && Lower(k) == n
    {
      if forall k :: k in call.headers ==> Lower(k) != n {
        OtherFieldsKept(AtServer, ForRequest, call.headers, order, start, n);
      }
    }
  }

  lemma CallerFieldsReadBack(call: Call, order: seq<string>)
    requires CleanCall(call) && Listing(order, call.headers)
    ensures var fields := FieldLines(Printed(ForRequest, order), call.headers);
            && AllFields(fields)
            && var held := Collapsed(ReadFields(AtServer, fields), OwnedStored(call));
            HoldsOwned(held, call) && HoldsCallers(held, call)
  {
    hide CleanCall, Lower, DropSpaces, ReadField, Collapsed, HoldsCallers, Printed;
    var start := OwnedStored(call);
    OwnedFieldsStay(call, order, start, "host");
    OwnedFieldsStay(call, order, start, "connection");
    OwnedFieldsStay(call, order, start, "content-length");
    CallersAreHeld(call, order, start);
    CallerLinesAreFields(call, order);
  }

  lemma CallerLinesAreFields(call: Call, order: seq<string>)
    requires CleanCall(call) && Listing(order, call.headers)
    ensures AllFields(FieldLines(Printed(ForRequest, order), call.headers))
  {
    PrintedFieldsReadAs(AtServer, Printed(ForRequest, order), call.headers);
  }

  /** Printing a request and parsing it gives back the call, whatever the header order and the body. */
  lemma RequestRoundTrip(call: Call, order: seq<string>)
    requires CleanCall(call) && Listing(order, call.headers)
    ensures Parsed(BuiltRequest(call, order)).Success?
    ensures IsRequestOf(Parsed(BuiltRequest(call, order)).value, call)
  {
    hide WithRequestLine, WithTarget, Parsed, HoldsOwned, HoldsCallers, ReadsTarget, OwnedStored, ReadField;
    var ls := RequestLines(call, order);
    RequestHeadIsClean(call, order);
    ParseOfPrintedHead(ls, call.body);
    RequestLineReadsBack(call);
    RequestFieldsReadBack(call, order);
    CallerFieldsReadBack(call, order);
    TargetIsRead(call.path, EmptyRequest.(verb := call.verb));
    var r := WithTarget(call.path, EmptyRequest.(verb := call.verb)).(version := HTTP_VERSION);
    HeaderLinesStore(ls[1..], r);
  }

  lemma NoSpaceAround(a: string, sep: string, b: string)
    requires Without(a, Char(' ')) && |sep| == 1 && sep[0] != ' ' && ' ' !in b
    ensures Without(a + sep + b, Char(' '))
  {
    var s := a + sep + b;
    forall i: int | 0 <= i
      ensures !At(s, Char(' '), i)
    {
      assert !At(a, Char(' '), i);
      assert |a| < i < |s| ==> s[i] == b[i - |a| - 1] && s[i] in b;
    }
    NoOccurrence(s, Char(' '), 0);
  }

  /** A target with a rendered query has neither spaces nor line breaks, and its query starts where it should. */
  lemma RenderedTarget(path: string, m: Fields, keys: seq<string>) returns (query: string)
    requires Without(path, Char(' ')) && Without(path, Crlf) && Without(path, Char('?'))
    requires Listing(keys, m) && forall k :: k in m ==> IsBytes(k) && IsBytes(m[k])
    ensures PairsOfBytes(Entries(keys, m)) && query == Rendered(Entries(keys, m))
    ensures var target := path + "?" + query;
            && Without(target, Char(' ')) && Without(target, Crlf)
            && Find(target, Char('?')) == Some(|path|) && target[..|path|] == path && target[|path| + 1..] == query
            && Collapsed(Pairs(query), map[]) == m
  {
    hide Rendered, Entries, Pairs, Find;
    QueryRoundTrip(m, keys);
    query := Rendered(Entries(keys, m));
    RenderedStaysInPlace(Entries(keys, m));
    NoReturnNoCrlf(query);
    CleanAround(path, "?", query);
    CutAtChar(path, "?", '?', query);
    NoSpaceAround(path, "?", query);
  }

  /**
   A query survives the whole way: any map of byte strings, rendered in any order behind any clean
   path, printed by the client and parsed by the server, is the query map the server ends up with.
   */
  lemma QueryReachesTheServer(call: Call, order: seq<string>, path: string, m: Fields, keys: seq<string>)
    requires Without(call.host, Crlf) && CleanFields(call.headers) && DistinctWhenStored(AtServer, call.headers)
    requires Listing(order, call.headers)
    requires Without(path, Char(' ')) && Without(path, Crlf) && Without(path, Char('?'))
    requires Listing(keys, m) && forall k :: k in m ==> IsBytes(k) && IsBytes(m[k])
    requires PairsOfBytes(Entries(keys, m)) ==> call.path == path + "?" + Rendered(Entries(keys, m))
    ensures CleanCall(call) && Parsed(BuiltRequest(call, order)).Success?
    ensures Parsed(BuiltRequest(call, order)).value.path == path
    ensures Parsed(BuiltRequest(call, order)).value.queryParams == m
  {
    hide Rendered, Entries, Parsed, BuiltRequest, Pairs, CleanFields, DistinctWhenStored, HoldsOwned, HoldsCallers;
    var query := RenderedTarget(path, m, keys);
    PairsMeetStandard(query);
    RequestRoundTrip(call, order);
  }

  // ---------- Responses ----------

  /** The client's response to what the server's chain produced: its own two fields always win. */
  ghost predicate IsAnswerTo(c: ClientResponse, r: Response) {
    && c.statusCode == StatusCode(r.status) && c.body == r.body
    && HoldsComputed(c.headers, |r.body|)
    && (forall k :: k in r.headers && k !in COMPUTED && Lower(Trim(k)) !in COMPUTED ==>
          Lower(Trim(k)) in c.headers && c.headers[Lower(Trim(k))] == Trim(r.headers[k]))
    && (forall n :: n in c.headers && n !in COMPUTED ==>
          exists k :: k in r.headers && k !in COMPUTED && Lower(Trim(k)) == n)
  }

  const COMPUTED := ["content-length", "connection"]

  ghost predicate HoldsComputed(held: Fields, length: nat) {
    && "content-length" in held && held["content-length"] == Decimal(length)
    && "connection" in held && held["connection"] == "close"
  }

  ghost predicate CleanResponse(r: Response) {
    CleanFields(r.headers) && DistinctWhenStored(AtClient, r.headers)
  }

  /** The client's head parser, as a function of the lines of a head. */
  lemma ClientParsesLines(ls: seq<string>)
    requires HeadLines(ls)
    ensures ResponseHead(Unlines(ls)) ==
            match ParsedStatus(ls[0])
            case None => None
            case Some(code) =>
              match WithHeadLines(ls[1..], map[])
              case None => None
              case Some(headers) => Some(HeadInfo(code, headers))
  {
    hide ParsedStatus, WithHeadLines;
    if |ls| == 1 {
      assert ls[1..] == [];
    } else {
      CrlfAfterLine(ls[0], Unlines(ls[1..]));
      LinesIfAnyOfUnlines(ls[1..]);
    }
  }

  lemma {:induction false} LinesIfAnyOfUnlines(ls: seq<string>)
    requires |ls| >= 1 && CrlfFree(ls) && forall i :: 0 <= i < |ls| ==> ls[i] != ""
    ensures LinesIfAny(Unlines(ls)) == ls
  {
    if |ls| > 1 {
      CrlfAfterLine(ls[0], Unlines(ls[1..]));
      LinesIfAnyOfUnlines(ls[1..]);
    }
  }

  lemma {:induction false} HeadLinesStore(ls: seq<string>, m: Fields)
    requires AllFields(ls)
    ensures WithHeadLines(ls, m) == Some(Collapsed(ReadFields(AtClient, ls), m))
  {
    if ls != [] {
      hide ReadField;
      assert AllFields(ls[1..]) by {
        assert forall i :: 0 <= i < |ls[1..]| ==> ls[1..][i] == ls[i + 1];
      }
      var field := ReadField(AtClient, ls[0]);
      assert ReadFields(AtClient, ls)[1..] == ReadFields(AtClient, ls[1..]);
      HeadLinesStore(ls[1..], m[field.0 := field.1]);
    }
  }

  lemma StatusReadsBack(code: nat, phrase: string)
    requires 100 <= code <= 599
    ensures ParsedStatus(StatusLineOf(code, phrase)) == Some(code)
  {
    hide Trim, Decimal, FromChars;
    var line, digits := StatusLineOf(code, phrase), Decimal(code);
    var after := digits + " " + phrase;
    PrintedNumberIsClean(code);
    FromCharsOfDecimal(code);
    TwoParts(VERSION, digits, phrase);
    NoSuchChar(VERSION, ' ');
    FirstSpace(line, VERSION, after);
    DigitsHaveNoSpace(digits);
    FirstSpace(after, digits, phrase);
    assert after[..|digits|] == digits;
    assert HTTP_PREFIX <= VERSION;
  }

  lemma DigitsHaveNoSpace(s: string)
    requires AllDigits(s)
    ensures Without(s, Char(' '))
  {
    NoOccurrence(s, Char(' '), 0);
  }

  function ComputedFields(length: nat): seq<string> {
    [FieldLine("Content-Length", Decimal(length)), FieldLine("Connection", "close")]
  }

  lemma ComputedFieldsReadBack(length: nat, m: Fields)
    ensures AllFields(ComputedFields(length))
    ensures Collapsed(ReadFields(AtClient, ComputedFields(length)), m) ==
            m["content-length" := Decimal(length)]["connection" := "close"]
  {
    hide ReadField, Trim, Decimal, Lower;
    CloseFieldIsClean();
    PrintedNumberIsClean(length);
    LengthFieldIsClean(Decimal(length));
    PrintedFieldReadsBack(AtClient, "Connection", "close");
    PrintedFieldReadsBack(AtClient, "Content-Length", Decimal(length));
    CloseHasNoSpaces();
    KeysTrim();
    OwnedKeysInLowerCase();
    LengthKeyInLowerCase();
    TwoPairs(ReadFields(AtClient, ComputedFields(length)), m);
  }

  lemma KeysTrim()
    ensures Trim("Connection") == "Connection" && Trim("Content-Length") == "Content-Length"
  {
  }

  lemma TwoPairs(ps: seq<Pair>, m: Fields)
    requires |ps| == 2
    ensures Collapsed(ps, m) == m[ps[0].0 := ps[0].1][ps[1].0 := ps[1].1]
  {
    var m1 := m[ps[0].0 := ps[0].1];
    assert Collapsed(ps, m) == Collapsed(ps[1..], m1);
    assert ps[1..] == [ps[1]] && [ps[1]][1..] == [];
    assert Collapsed([ps[1]], m1) == m1[ps[1].0 := ps[1].1];
  }

  /** The handler's fields, as the client stores them before the computed ones. */
  function HandlerStored(r: Response, order: seq<string>): Fields
    requires Listing(order, r.headers) && CleanFields(r.headers)
  {
    PrintedFieldsReadAs(AtClient, Printed(ForResponse, order), r.headers);
    Collapsed(ReadFields(AtClient, FieldLines(Printed(ForResponse, order), r.headers)), map[])
  }

  /** The client's header map for a printed response. */
  function AnswerHeaders(r: Response, order: seq<string>): Fields
    requires Listing(order, r.headers) && CleanFields(r.headers)
  {
    HandlerStored(r, order)["content-length" := Decimal(|r.body|)]["connection" := "close"]
  }

  lemma AnswerHeadersHold(r: Response, order: seq<string>)
    requires CleanResponse(r) && Listing(order, r.headers)
    ensures IsAnswerTo(ClientResponse(StatusCode(r.status), AnswerHeaders(r, order), r.body), r)
  {
    hide StatusCode, Trim, Lower, CleanField;
    var stored, held := HandlerStored(r, order), AnswerHeaders(r, order);
    forall k | k in r.headers && k !in COMPUTED && Lower(Trim(k)) !in COMPUTED
      ensures Lower(Trim(k)) in held && held[Lower(Trim(k))] == Trim(r.headers[k])
    {
      PrintedFieldHeld(AtClient, ForResponse, r.headers, order, map[], k);
    }
    forall n | n in held && n !in COMPUTED
      ensures exists k :: k in r.headers && k !in COMPUTED && Lower(Trim(k)) == n
    {
      if forall k :: k in r.headers && k !in COMPUTED ==> Lower(Trim(k)) != n {
        OtherFieldsKept(AtClient, ForResponse, r.headers, order, map[], n);
      }
    }
  }

  lemma ResponseHeadReadsBack(r: Response, order: seq<string>)
    requires CleanResponse(r) && Listing(order, r.headers)
    ensures HeadLines(ResponseLines(r, order))
    ensures ResponseHead(Unlines(ResponseLines(r, order))) == Some(HeadInfo(StatusCode(r.status), AnswerHeaders(r, order)))
  {
    hide ParsedStatus, ResponseHead, ReadField, StatusLineOf, ReasonPhrase, Prints, Find;
    var ls := ResponseLines(r, order);
    var fields := FieldLines(Printed(ForResponse, order), r.headers);
    ResponseHeadIsClean(r, order);
    ClientParsesLines(ls);
    StatusReadsBack(StatusCode(r.status), ReasonPhrase(r.status));
    PrintedFieldsReadAs(AtClient, Printed(ForResponse, order), r.headers);
    ComputedFieldsReadBack(|r.body|, HandlerStored(r, order));
    assert ls[1..] == fields + ComputedFields(|r.body|);
    ReadConcat(AtClient, fields, ComputedFields(|r.body|), map[]);
    HeadLinesStore(ls[1..], map[]);
  }

  /** How the client frames a printed response of any size: as what it is, or not at all if the body alone is too large. */
  lemma ResponseFraming(r: Response, order: seq<string>, maxResponse: nat)
    requires CleanResponse(r) && Listing(order, r.headers) && |r.body| < SIZE_LIMIT
    ensures var s, f := Serialized(r, order), FramingOf(Serialized(r, order), maxResponse);
            if |r.body| > maxResponse then f == BadHead
            else
              && f.Framed? && f.head == HeadInfo(StatusCode(r.status), AnswerHeaders(r, order)) && f.length == Some(|r.body|)
              && f.bodyStart + |r.body| == |s| && s[f.bodyStart..] == r.body
    ensures |r.body| <= |Serialized(r, order)|
  {
    hide ResponseHead, AnswerHeaders, ResponseLines, FromChars;
    var ls := ResponseLines(r, order);
    ResponseHeadReadsBack(r, order);
    var s, head := Serialized(r, order), Unlines(ls);
    BlankLineAfterHead(ls, r.body);
    assert s[..|head|] == head && s[|head| + 4..] == r.body;
    PrintedNumberIsClean(|r.body|);
    FromCharsOfDecimal(|r.body|);
    LengthIsHeld(r, order);
  }

  /** The client frames a printed response exactly: body and length are the handler's, whatever the body contains. */
  lemma ResponseRoundTrip(r: Response, order: seq<string>, maxResponse: nat)
    requires CleanResponse(r) && Listing(order, r.headers)
    requires |Serialized(r, order)| <= maxResponse && |r.body| < SIZE_LIMIT
    ensures VerdictOn(Serialized(r, order), maxResponse).Complete?
    ensures IsAnswerTo(VerdictOn(Serialized(r, order), maxResponse).response, r)
    ensures var f := FramingOf(Serialized(r, order), maxResponse);
            f.Framed? && f.length == Some(|r.body|) && f.bodyStart + |r.body| == |Serialized(r, order)|
  {
    hide AnswerHeaders, IsAnswerTo, Serialized, Framed';
    ResponseFraming(r, order, maxResponse);
    AnswerHeadersHold(r, order);
    var s := Serialized(r, order);
    assert s[..|s|] == s;
  }

  lemma LengthIsHeld(r: Response, order: seq<string>)
    requires Listing(order, r.headers) && CleanFields(r.headers)
    ensures "content-length" in AnswerHeaders(r, order)
    ensures AnswerHeaders(r, order)["content-length"] == Decimal(|r.body|)
  {
  }
}
