/**
 The request parser: what it computes, its step-by-step form, and the theorem that it reads
 exactly the lines before the first blank line and takes the rest as the body.
 */
module HttpParser {
  import opened ByteStrings
  import opened Messages
  import opened HeaderFields
  import opened UrlQuery

  datatype ParseError = MissingCrlf | MalformedRequestLine | MalformedHeaderLine

  type Outcome = Result<Request, ParseError>

  // ---------- What each helper computes ----------

  function WithTarget(target: string, r: Request): Request {
    match Find(target, Char('?'))
    case None => r.(path := target)
    case Some(i) => r.(path := target[..i], queryParams := Collapsed(Pairs(target[i + 1..]), r.queryParams))
  }

  /**
   A path and a query map are what a target says: without a question mark it is the path; else what
   precedes the first one is, and the rest is a form as section 5.1 of the URL Standard reads it,
   the last value of each name staying.
   */
  ghost predicate ReadsTarget(path: string, query: Fields, target: string) {
    && (Without(target, Char('?')) ==> path == target && query == map[])
    && (forall p: string, q: string {:trigger p + "?" + q} :: Without(p, Char('?')) && target == p + "?" + q ==>
          path == p && query == Collapsed(FormTuples(StrictlySplit(q, '&')), map[]))
  }

  /** Reading a target into a request without a query sets the path and the query as it says, and nothing else. */
  lemma TargetIsRead(target: string, r: Request)
    requires r.queryParams == map[]
    ensures var q := WithTarget(target, r);
            ReadsTarget(q.path, q.queryParams, target) && q.(path := r.path, queryParams := map[]) == r
  {
    var read := WithTarget(target, r);
    forall p: string, q: string {:trigger p + "?" + q} | Without(p, Char('?')) && target == p + "?" + q
      ensures read.path == p && read.queryParams == Collapsed(FormTuples(StrictlySplit(q, '&')), map[])
    {
      CutAtChar(p, "?", '?', q);
      PairsMeetStandard(q);
    }
  }

  /** "METHOD target VERSION", cut at the first two spaces. */
  function WithRequestLine(line: string, r: Request): Outcome {
    match Find(line, Char(' '))
    case None => Failure(MalformedRequestLine)
    case Some(i) =>
      match Find(line, Char(' '), i + 1)
      case None => Failure(MalformedRequestLine)
      case Some(j) =>
        Success(WithTarget(line[i + 1..j], r.(verb := MethodFromString(line[..i]))).(version := line[j + 1..]))
  }

  function WithHeader(name: string, value: string, r: Request): Request {
    r.(headers := r.headers[Lower(name) := DropSpaces(value)])
  }

  function WithHeaderLine(line: string, r: Request): Outcome {
    match Find(line, Char(':'))
    case None => Failure(MalformedHeaderLine)
    case Some(i) => Success(WithHeader(line[..i], line[i + 1..], r))
  }

  /** Header lines up to the first empty one, then the body. */
  function WithHeaderBlock(remaining: string, r: Request): Outcome
    decreases |remaining|
  {
    match Find(remaining, Crlf)
    case None => Failure(MissingCrlf)
    case Some(i) =>
      var rest := remaining[i + 2..];
      if i == 0 then Success(r.(body := rest))
      else
        var next :- WithHeaderLine(remaining[..i], r);
        WithHeaderBlock(rest, next)
  }

  function Parsed(raw: string): Outcome {
    match Find(raw, Crlf)
    case None => Failure(MissingCrlf)
    case Some(i) =>
      var r :- WithRequestLine(raw[..i], EmptyRequest);
      WithHeaderBlock(raw[i + 2..], r)
  }

  // ---------- The parser ----------

  /** Takes the next line off the front of `remaining`; `None` stands for the exception. */
  method ExtractLine(remaining: string) returns (line: Option<string>, rest: string)
    ensures line.None? <==> Without(remaining, Crlf)
    ensures line.None? ==> rest == remaining
    ensures line.Some? ==> remaining == line.value + CRLF + rest && Without(line.value, Crlf)
  {
    var pos := Find(remaining, Crlf);
    if pos.None? {
      return None, remaining;
    }
    ghost var tail := remaining[pos.value..];
    line, rest := Some(remaining[..pos.value]), remaining[pos.value + 2..];
    forall j: int | 0 <= j
      ensures !At(line.value, Crlf, j)
    {
      assert At(line.value, Crlf, j) ==> At(remaining, Crlf, j);
    }
    assert tail == CRLF + rest;
  }

  /** One turn of the query loop: the first piece, then the rest. */
  lemma PairsStep(query: string, before: Fields)
    requires query != ""
    ensures match Find(query, Char('&'))
            case None => Collapsed(Pairs(query), before) == Collapsed(PieceToPairs(query), before)
            case Some(i) =>
              Collapsed(Pairs(query), before) ==
              Collapsed(Pairs(query[i + 1..]), Collapsed(PieceToPairs(query[..i]), before))
  {
    hide PieceToPairs;
    var at := Find(query, Char('&'));
    if at.Some? {
      CollapsedConcat(PieceToPairs(query[..at.value]), Pairs(query[at.value + 1..]), before);
    }
  }

  /** Stores one piece of a query: nothing, a bare key, or a key and a value. */
  method StorePiece(pair: string, request: HttpRequest)
    modifies request
    ensures request.View() ==
            old(request.View()).(queryParams := Collapsed(PieceToPairs(pair), old(request.queryParams)))
  {
    hide Decoded, Find;
    var equals := Find(pair, Char('='));
    if equals.Some? {
      var key := Decode(pair[..equals.value]);
      var value := Decode(pair[equals.value + 1..]);
      request.SetQueryParam(key, value);
    } else if pair != "" {
      var key := Decode(pair);
      request.SetQueryParam(key, "");
    }
  }

  method ParsePath(rawPath: string, request: HttpRequest)
    modifies request
    ensures request.View() == WithTarget(rawPath, old(request.View()))
  {
    hide Pairs, PieceToPairs, Collapsed;
    var queryStart := Find(rawPath, Char('?'));
    if queryStart.None? {
      request.SetPath(rawPath);
      return;
    }
    request.SetPath(rawPath[..queryStart.value]);

    var query := rawPath[queryStart.value + 1..];
    ghost var goal := WithTarget(rawPath, old(request.View()));
    while query != ""
      invariant request.View().(queryParams := Collapsed(Pairs(query), request.queryParams)) == goal
      decreases |query|
    {
      var ampersand := Find(query, Char('&'));
      PairsStep(query, request.queryParams);
      StorePiece(if ampersand.None? then query else query[..ampersand.value], request);
      if ampersand.None? {
        return;
      }
      query := query[ampersand.value + 1..];
    }
    NoPairs(request.queryParams);
  }

  lemma NoPairs(m: Fields)
    ensures Collapsed(Pairs(""), m) == m
  {
  }

  method ParseRequestLine(line: string, request: HttpRequest) returns (thrown: Option<ParseError>)
    modifies request
    ensures match WithRequestLine(line, old(request.View()))
            case Success(r) => thrown == None && request.View() == r
            case Failure(e) => thrown == Some(e) && request.View() == old(request.View())
  {
    var firstSpace := Find(line, Char(' '));
    var secondSpace := Find(line, Char(' '), if firstSpace.None? then 0 else firstSpace.value + 1);
    if firstSpace.None? || secondSpace.None? {
      return Some(MalformedRequestLine);
    }
    request.SetMethod(MethodFromString(line[..firstSpace.value]));
    ParsePath(line[firstSpace.value + 1..secondSpace.value], request);
    request.SetVersion(line[secondSpace.value + 1..]);
    return None;
  }

  method ParseHeaderLine(line: string, request: HttpRequest) returns (thrown: Option<ParseError>)
    modifies request
    ensures match WithHeaderLine(line, old(request.View()))
            case Success(r) => thrown == None && request.View() == r
            case Failure(e) => thrown == Some(e) && request.View() == old(request.View())
  {
    var colon := Find(line, Char(':'));
    if colon.None? {
      return Some(MalformedHeaderLine);
    }
    var name := line[..colon.value];
    var value := line[colon.value + 1..];
    while value != "" && value[0] == ' '
      invariant DropSpaces(value) == DropSpaces(line[colon.value + 1..])
      decreases |value|
    {
      value := value[1..];
    }
    request.SetHeader(name, value);
    return None;
  }

  method Parse(raw: string) returns (thrown: Option<ParseError>, request: HttpRequest)
    ensures fresh(request)
    ensures match Parsed(raw)
            case Success(r) => thrown == None && request.View() == r
            case Failure(e) => thrown == Some(e)
  {
    request := new HttpRequest();
    var line, remaining := ExtractLine(raw);
    if line.None? {
      return Some(MissingCrlf), request;
    }
    CrlfAfterLine(line.value, remaining);
    thrown := ParseRequestLine(line.value, request);
    if thrown.Some? {
      return;
    }
    while true
      invariant Parsed(raw) == WithHeaderBlock(remaining, request.View())
      invariant thrown == None
      decreases |remaining|
    {
      ghost var block := remaining;
      line, remaining := ExtractLine(remaining);
      if line.None? {
        return Some(MissingCrlf), request;
      }
      CrlfAfterLine(line.value, remaining);
      assert block == line.value + CRLF + remaining;
      if line.value == "" {
        break;
      }
      thrown := ParseHeaderLine(line.value, request);
      if thrown.Some? {
        return;
      }
    }
    request.SetBody(remaining);
  }

  // ---------- The parser reads the lines before the blank line ----------

  /** Header lines applied one after the other; the first without a colon is an error. */
  function WithHeaderLines(ls: seq<string>, r: Request): Outcome {
    if ls == [] then Success(r)
    else
      var next :- WithHeaderLine(ls[0], r);
      WithHeaderLines(ls[1..], next)
  }

  lemma {:induction false} HeaderBlockByLines(ls: seq<string>, body: string, r: Request)
    requires CrlfFree(ls) && forall i :: 0 <= i < |ls| ==> ls[i] != ""
    ensures WithHeaderBlock(Terminated(ls) + CRLF + body, r) ==
            match WithHeaderLines(ls, r) case Success(q) => Success(q.(body := body)) case Failure(e) => Failure(e)
  {
    var remaining := Terminated(ls) + CRLF + body;
    if ls == [] {
      CrlfAfterLine("", body);
      assert remaining == "" + CRLF + body;
    } else {
      var rest := Terminated(ls[1..]) + CRLF + body;
      CrlfAfterLine(ls[0], rest);
      assert remaining == ls[0] + CRLF + rest;
      var next := WithHeaderLine(ls[0], r);
      if next.Success? {
        HeaderBlockByLines(ls[1..], body, next.value);
      }
    }
  }

  /**
   The parser as a function of the head's lines: the first is the request line, the others
   are headers, and everything after the first blank line is the body.
   */
  function ParsedHead(ls: seq<string>, body: string): Outcome
    requires |ls| >= 1
  {
    var r :- WithRequestLine(ls[0], EmptyRequest);
    var q :- WithHeaderLines(ls[1..], r);
    Success(q.(body := body))
  }

  lemma ParseOfPrintedHead(ls: seq<string>, body: string)
    requires HeadLines(ls)
    ensures Parsed(Unlines(ls) + CRLF_CRLF + body) == ParsedHead(ls, body)
  {
    hide WithRequestLine;
    var raw := Unlines(ls) + CRLF_CRLF + body;
    var rest := Terminated(ls[1..]) + CRLF + body;
    TerminatedIsUnlines(ls);
    assert raw == Terminated(ls) + CRLF + body;
    assert raw == ls[0] + CRLF + rest;
    CrlfAfterLine(ls[0], rest);
    var r := WithRequestLine(ls[0], EmptyRequest);
    if r.Success? {
      HeaderBlockByLines(ls[1..], body, r.value);
    }
  }

  /** Once a blank line is in the buffer, parsing is a matter of the lines before it. */
  lemma ParseByHead(raw: string)
    requires Find(raw, BlankLine).Some?
    ensures var h := Find(raw, BlankLine).value;
            Parsed(raw) == ParsedHead(Lines(raw[..h]), raw[h + 4..])
    ensures Parsed(raw) != Failure(MissingCrlf)
  {
    var h := Find(raw, BlankLine).value;
    var ls := Lines(raw[..h]);
    HeadBeforeBlankLine(raw);
    UnlinesOfLines(raw[..h]);
    assert raw == raw[..h] + CRLF_CRLF + raw[h + 4..];
    ParseOfPrintedHead(ls, raw[h + 4..]);
    forall r
      ensures WithHeaderLines(ls[1..], r) != Failure(MissingCrlf)
    {
      HeaderLinesErrors(ls[1..], r);
    }
  }

  lemma {:induction false} HeaderLinesErrors(ls: seq<string>, r: Request)
    ensures WithHeaderLines(ls, r).Failure? ==> WithHeaderLines(ls, r).error == MalformedHeaderLine
    ensures WithHeaderLines(ls, r).Success? <==> forall i :: 0 <= i < |ls| ==> !Without(ls[i], Char(':'))
  {
    if ls != [] {
      var next := WithHeaderLine(ls[0], r);
      if next.Success? {
        HeaderLinesErrors(ls[1..], next.value);
        assert forall i :: 1 <= i < |ls| ==> ls[i] == ls[1..][i - 1];
        assert forall i :: 0 <= i < |ls[1..]| ==> ls[1..][i] == ls[i + 1];
      }
    }
  }

  /** When every line has a colon, the headers are the stored fields, the last of each name winning. */
  lemma {:induction false} HeaderLinesStore(ls: seq<string>, r: Request)
    requires AllFields(ls)
    ensures WithHeaderLines(ls, r) == Success(r.(headers := Collapsed(ReadFields(AtServer, ls), r.headers)))
  {
    if ls != [] {
      assert AllFields(ls[1..]) by {
        assert forall i :: 0 <= i < |ls[1..]| ==> ls[1..][i] == ls[i + 1];
      }
      HeaderLinesStore(ls[1..], WithHeaderLine(ls[0], r).value);
      assert ReadFields(AtServer, ls)[1..] == ReadFields(AtServer, ls[1..]);
    }
  }

  /** Two spaces, which is all the parser asks of a request line. */
  predicate HasTwoSpaces(line: string) {
    match Find(line, Char(' '))
    case None => false
    case Some(i) => Find(line, Char(' '), i + 1).Some?
  }

  /** Exactly the accepted buffers: a blank line, two spaces in line one, a colon in every other line. */
  lemma AcceptedExactly(raw: string)
    ensures Parsed(raw).Success? <==>
            && Find(raw, BlankLine).Some?
            && var ls := Lines(raw[..Find(raw, BlankLine).value]);
            && HasTwoSpaces(ls[0])
            && forall i :: 1 <= i < |ls| ==> !Without(ls[i], Char(':'))
  {
    if Find(raw, BlankLine).None? {
      NoBlankLineNoRequest(raw);
    } else {
      var h := Find(raw, BlankLine).value;
      ParseByHead(raw);
      HeadAcceptedExactly(Lines(raw[..h]), raw[h + 4..]);
    }
  }

  lemma HeadAcceptedExactly(ls: seq<string>, body: string)
    requires |ls| >= 1
    ensures ParsedHead(ls, body).Success? <==>
            HasTwoSpaces(ls[0]) && forall i :: 1 <= i < |ls| ==> !Without(ls[i], Char(':'))
  {
    var r := WithRequestLine(ls[0], EmptyRequest);
    if r.Success? {
      HeaderLinesErrors(ls[1..], r.value);
      assert forall i :: 1 <= i < |ls| ==> ls[i] == ls[1..][i - 1];
      assert forall i :: 0 <= i < |ls[1..]| ==> ls[1..][i] == ls[i + 1];
    }
  }

  lemma NoBlankLineNoRequest(raw: string)
    requires Without(raw, BlankLine)
    ensures Parsed(raw).Failure?
  {
    if Parsed(raw).Success? {
      var i := Find(raw, Crlf).value;
      NoBlankLineNoBlock(raw, i, WithRequestLine(raw[..i], EmptyRequest).value);
    }
  }

  lemma NoBlankLineNoBlock(raw: string, i: nat, r: Request)
    requires CrlfAt(raw, i) && Without(raw, BlankLine)
    ensures WithHeaderBlock(raw[i + 2..], r).Failure?
  {
    if WithHeaderBlock(raw[i + 2..], r).Success? {
      var k := BlockEndsWithBlankLine(raw[i + 2..], r);
      assert At(raw, BlankLine, i + k);
      assert false;
    }
  }

  /** A block that parses holds an empty line: at its start, or right behind another CRLF. */
  lemma {:induction false} BlockEndsWithBlankLine(remaining: string, r: Request) returns (k: nat)
    requires WithHeaderBlock(remaining, r).Success?
    ensures CrlfAt(remaining, k) && (k == 0 || CrlfAt(remaining, k - 2))
    decreases |remaining|
  {
    var i := Find(remaining, Crlf).value;
    if i == 0 {
      return 0;
    }
    var later := BlockEndsWithBlankLine(remaining[i + 2..], WithHeaderLine(remaining[..i], r).value);
    k := i + 2 + later;
  }
}
