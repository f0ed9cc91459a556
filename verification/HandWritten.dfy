/**
 Requests and responses as anyone may write them: what the two parsers make of every text of the
 right shape, whoever printed it, and what becomes of a length that is no number.
 */
module HandWritten {
  import opened ByteStrings
  import opened Messages
  import opened HeaderFields
  import opened UrlQuery
  import opened HttpParser
  import opened Transport
  import opened HttpClient
  import opened RequestIntake
  import opened RoundTrips
  import ServerChunking
  import ClientChunking

  // ---------- Fields ----------

  /** Names and values, with whatever spaces, in whatever case, with or without duplicates. */
  ghost predicate CleanTexts(fields: seq<Pair>) {
    forall i :: 0 <= i < |fields| ==> CleanField(fields[i].0, fields[i].1)
  }

  function FieldTexts(fields: seq<Pair>): (ls: seq<string>)
    ensures |ls| == |fields| && forall i :: 0 <= i < |ls| ==> ls[i] == fields[i].0 + ":" + fields[i].1
  {
    seq(|fields|, i requires 0 <= i < |fields| => fields[i].0 + ":" + fields[i].1)
  }

  /** The server lower-cases names and drops the spaces in front of values. */
  function AtServerSide(fields: seq<Pair>): (ps: seq<Pair>)
    ensures |ps| == |fields| && forall i :: 0 <= i < |ps| ==> ps[i] == (Lower(fields[i].0), DropSpaces(fields[i].1))
  {
    seq(|fields|, i requires 0 <= i < |fields| => (Lower(fields[i].0), DropSpaces(fields[i].1)))
  }

  /** The client trims both and lower-cases names. */
  function AtClientSide(fields: seq<Pair>): (ps: seq<Pair>)
    ensures |ps| == |fields| && forall i :: 0 <= i < |ps| ==> ps[i] == (Lower(Trim(fields[i].0)), Trim(fields[i].1))
  {
    seq(|fields|, i requires 0 <= i < |fields| => (Lower(Trim(fields[i].0)), Trim(fields[i].1)))
  }

  lemma FieldTextsRead(fields: seq<Pair>)
    requires CleanTexts(fields)
    ensures var ls := FieldTexts(fields);
            && AllFields(ls) && CrlfFree(ls) && (forall i :: 0 <= i < |ls| ==> ls[i] != "")
            && ReadFields(AtServer, ls) == AtServerSide(fields) && ReadFields(AtClient, ls) == AtClientSide(fields)
  {
    hide ReadField, Find, Lower, Trim, DropSpaces;
    var ls := FieldTexts(fields);
    forall i | 0 <= i < |ls|
      ensures !Without(ls[i], Char(':')) && Without(ls[i], Crlf) && ls[i] != ""
      ensures ReadField(AtServer, ls[i]) == AtServerSide(fields)[i] && ReadField(AtClient, ls[i]) == AtClientSide(fields)[i]
    {
      FieldReadsAsWritten(fields[i].0, fields[i].1);
      CleanAround(fields[i].0, ":", fields[i].1);
    }
  }

  lemma FirstThenFields(first: string, fields: seq<Pair>)
    requires Without(first, Crlf) && CleanTexts(fields)
    ensures var ls := [first] + FieldTexts(fields); HeadLines(ls) && ls[0] == first && ls[1..] == FieldTexts(fields)
  {
    hide Find;
    FieldTextsRead(fields);
  }

  // ---------- Requests ----------

  lemma RequestLineAsWritten(verb: string, target: string, version: string)
    requires Without(verb, Char(' ')) && Without(target, Char(' '))
    ensures WithRequestLine(verb + " " + target + " " + version, EmptyRequest) ==
            Success(WithTarget(target, EmptyRequest.(verb := MethodFromString(verb))).(version := version))
  {
    hide Find, WithTarget, MethodFromString;
    CutAtSpaces(verb, target, version);
    ThreeParts(verb, target, version);
  }

  /** Every request with three tokens and clean fields is parsed as exactly what it says. */
  lemma RequestAsWritten(verb: string, target: string, version: string, fields: seq<Pair>, body: string)
    requires Without(verb, Char(' ')) && Without(target, Char(' '))
    requires Without(verb, Crlf) && Without(target, Crlf) && Without(version, Crlf) && CleanTexts(fields)
    ensures var parsed := Parsed(Unlines([verb + " " + target + " " + version] + FieldTexts(fields)) + CRLF_CRLF + body);
            && parsed.Success?
            && var r := parsed.value;
            && r.verb == MethodFromString(verb) && ReadsTarget(r.path, r.queryParams, target) && r.version == version
            && r.headers == Collapsed(AtServerSide(fields), map[]) && r.pathParams == map[] && r.body == body
  {
    hide Find, Parsed, WithRequestLine, WithTarget, ReadsTarget, ReadField, MethodFromString, Collapsed;
    var line := verb + " " + target + " " + version;
    ThreeFieldsAreClean(verb, target, version);
    FirstThenFields(line, fields);
    ParseOfPrintedHead([line] + FieldTexts(fields), body);
    RequestLineAsWritten(verb, target, version);
    FieldTextsRead(fields);
    TargetIsRead(target, EmptyRequest.(verb := MethodFromString(verb)));
    HeaderLinesStore(FieldTexts(fields), WithTarget(target, EmptyRequest.(verb := MethodFromString(verb))).(version := version));
  }

  // ---------- Responses ----------

  /** A status line: a version, a code between optional blanks, and anything behind a further space. */
  ghost predicate IsStatusLine(line: string, version: string, digits: string, rest: string, code: nat) {
    && line == version + " " + digits + rest && "HTTP/" <= version
    && Without(version, Char(' ')) && Without(digits, Char(' ')) && (rest != "" ==> rest[0] == ' ')
    && IsNumeral(Trim(digits), code) && 100 <= code <= 599
  }

  /** The second token of a line, and where it stands. */
  lemma SecondToken(line: string, version: string, digits: string, rest: string)
    requires line == version + " " + digits + rest && (rest != "" ==> rest[0] == ' ')
    requires Without(version, Char(' ')) && Without(digits, Char(' '))
    ensures Find(line, Char(' ')) == Some(|version|) && line[|version| + 1..] == digits + rest
    ensures UpTo(digits + rest, Find(digits + rest, Char(' '))) == digits
  {
    hide Find;
    var after := digits + rest;
    assert line == version + " " + after;
    FirstSpace(line, version, after);
    if rest == "" {
      assert after == digits;
    } else {
      assert after == digits + " " + rest[1..];
      FirstSpace(after, digits, rest[1..]);
      assert after[..|digits|] == digits;
    }
  }

  lemma StatusAsWritten(line: string, version: string, digits: string, rest: string, code: nat)
    requires IsStatusLine(line, version, digits, rest, code)
    ensures ParsedStatus(line) == Some(code)
  {
    hide FromChars, Trim, IsNumeral, Find;
    SecondToken(line, version, digits, rest);
    PrefixOfLine(line, version);
    FromCharsExactly(Trim(digits), code);
  }

  lemma PrefixOfLine(line: string, version: string)
    requires "HTTP/" <= version <= line
    ensures HTTP_PREFIX <= line
  {
  }

  /** Every line with a space is a first token, a second one, and a rest. */
  lemma Tokens(line: string) returns (version: string, digits: string, rest: string)
    requires Find(line, Char(' ')).Some?
    ensures line == version + " " + digits + rest && (rest != "" ==> rest[0] == ' ')
    ensures Without(version, Char(' ')) && Without(digits, Char(' '))
    ensures version == line[..Find(line, Char(' ')).value]
  {
    var i := Find(line, Char(' ')).value;
    var after := line[i + 1..];
    var at := Find(after, Char(' '));
    var n := if at.Some? then at.value else |after|;
    version, digits, rest := line[..i], after[..n], after[n..];
    NoSpaceBefore(line, i);
    NoSpaceBefore(after, n);
    assert after == digits + rest;
  }

  lemma StatusIsWritten(line: string) returns (version: string, digits: string, rest: string)
    requires ParsedStatus(line).Some?
    ensures IsStatusLine(line, version, digits, rest, ParsedStatus(line).value)
  {
    hide FromChars, Trim, IsNumeral, Find;
    version, digits, rest := Tokens(line);
    SecondToken(line, version, digits, rest);
    PrefixStays(line, |version|);
    FromCharsExactly(Trim(digits), ParsedStatus(line).value);
  }

  lemma NoSpaceBefore(s: string, i: nat)
    requires i <= |s| && match Find(s, Char(' ')) case None => true case Some(k) => i <= k
    ensures Without(s[..i], Char(' '))
  {
    forall j: int | 0 <= j
      ensures !At(s[..i], Char(' '), j)
    {
      assert At(s[..i], Char(' '), j) ==> At(s, Char(' '), j);
    }
    NoOccurrence(s[..i], Char(' '), 0);
  }

  lemma PrefixStays(line: string, i: nat)
    requires HTTP_PREFIX <= line && Find(line, Char(' ')) == Some(i)
    ensures "HTTP/" <= line[..i]
  {
    forall j | 0 <= j < 5
      ensures line[j] != ' '
    {
      assert line[j] == HTTP_PREFIX[j];
    }
  }

  lemma {:induction false} FieldsOrNothing(ls: seq<string>, m: Fields)
    ensures WithHeadLines(ls, m).Some? <==> AllFields(ls)
  {
    if ls != [] {
      hide ReadField, Find;
      if !Without(ls[0], Char(':')) {
        var field := ReadField(AtClient, ls[0]);
        FieldsOrNothing(ls[1..], m[field.0 := field.1]);
        assert forall i :: 0 <= i < |ls[1..]| ==> ls[1..][i] == ls[i + 1];
        assert forall i :: 1 <= i < |ls| ==> ls[i] == ls[1..][i - 1];
      }
    }
  }

  /** Every response head with a status line and clean fields is parsed as exactly what it says. */
  lemma ResponseAsWritten(version: string, digits: string, rest: string, code: nat, fields: seq<Pair>)
    requires var line := version + " " + digits + rest;
             IsStatusLine(line, version, digits, rest, code) && Without(line, Crlf)
    requires CleanTexts(fields)
    ensures ResponseHead(Unlines([version + " " + digits + rest] + FieldTexts(fields))) ==
            Some(HeadInfo(code, Collapsed(AtClientSide(fields), map[])))
  {
    hide Find, ParsedStatus, ResponseHead, ReadField, IsStatusLine, Collapsed;
    var line := version + " " + digits + rest;
    StatusAsWritten(line, version, digits, rest, code);
    FirstThenFields(line, fields);
    ClientParsesLines([line] + FieldTexts(fields));
    FieldTextsRead(fields);
    RoundTrips.HeadLinesStore(FieldTexts(fields), map[]);
  }

  /** Exactly the accepted heads: a status line, and a colon in every other line. */
  lemma HeadAcceptedAtClient(ls: seq<string>)
    requires HeadLines(ls)
    ensures ResponseHead(Unlines(ls)).Some? <==>
            && (exists version, digits, rest, code :: IsStatusLine(ls[0], version, digits, rest, code))
            && forall i :: 1 <= i < |ls| ==> !Without(ls[i], Char(':'))
  {
    hide Find, ParsedStatus, ResponseHead, IsStatusLine, ReadField;
    ClientParsesLines(ls);
    FieldsOrNothing(ls[1..], map[]);
    assert forall i :: 0 <= i < |ls[1..]| ==> ls[1..][i] == ls[i + 1];
    assert forall i :: 1 <= i < |ls| ==> ls[i] == ls[1..][i - 1];
    if ParsedStatus(ls[0]).Some? {
      var version, digits, rest := StatusIsWritten(ls[0]);
    }
    if version, digits, rest, code :| IsStatusLine(ls[0], version, digits, rest, code) {
      StatusAsWritten(ls[0], version, digits, rest, code);
    }
  }

  // ---------- Lengths that are no numbers ----------

  /** No number below 2^64. */
  ghost predicate NoNumber(text: string) {
    forall n: nat :: n < 0x1_0000_0000_0000_0000 ==> !IsNumeral(text, n)
  }

  lemma NoNumberExactly(text: string)
    ensures NoNumber(text) <==> FromChars(text) == None
  {
    hide FromChars, IsNumeral;
    forall n: nat
      ensures FromChars(text) == Some(n) <==> n < 0x1_0000_0000_0000_0000 && IsNumeral(text, n)
    {
      FromCharsExactly(text, n);
    }
    if FromChars(text).Some? {
      assert FromChars(text) == Some(FromChars(text).value);
    }
  }

  /** A line that announces a length and does not say one. */
  ghost predicate IsMalformedLength(line: string, name: string, value: string) {
    && line == name + ":" + value && Without(name, Char(':')) && Lower(name) == "content-length"
    && NoNumber(DropSpaces(value))
  }

  lemma MalformedExactly(line: string)
    ensures (exists name, value :: IsMalformedLength(line, name, value)) <==> IsLengthLine(line) && LengthIn(line) == None
  {
    hide Lower, DropSpaces, FromChars, NoNumber;
    if name, value :| IsMalformedLength(line, name, value) {
      CutAtChar(name, ":", ':', value);
      NoNumberExactly(DropSpaces(value));
    }
    if IsLengthLine(line) && LengthIn(line) == None {
      var i := Find(line, Char(':')).value;
      NoNumberExactly(DropSpaces(line[i + 1..]));
      NothingBefore(line, i);
      assert line == line[..i] + ":" + line[i + 1..];
      assert IsMalformedLength(line, line[..i], line[i + 1..]);
    }
  }

  lemma NothingBefore(line: string, i: nat)
    requires Find(line, Char(':')) == Some(i)
    ensures Without(line[..i], Char(':'))
  {
    forall j: int | 0 <= j
      ensures !At(line[..i], Char(':'), j)
    {
      assert At(line[..i], Char(':'), j) ==> At(line, Char(':'), j);
    }
    NoOccurrence(line[..i], Char(':'), 0);
  }

  lemma {:induction false} ScanFailsExactly(ls: seq<string>, length: nat)
    ensures Scanned(ls, length) == None <==>
            exists i :: 0 <= i < |ls| && IsLengthLine(ls[i]) && LengthIn(ls[i]) == None
  {
    if ls != [] {
      hide IsLengthLine, LengthIn;
      var next := if IsLengthLine(ls[0]) && LengthIn(ls[0]).Some? then LengthIn(ls[0]).value else length;
      ScanFailsExactly(ls[1..], next);
      assert forall i :: 0 <= i < |ls[1..]| ==> ls[1..][i] == ls[i + 1];
      assert forall i :: 1 <= i < |ls| ==> ls[i] == ls[1..][i - 1];
    }
  }

  ghost predicate HasMalformedLength(ls: seq<string>) {
    exists i :: 0 <= i < |ls| && Malformed(ls[i])
  }

  ghost predicate Malformed(line: string) {
    exists name, value :: IsMalformedLength(line, name, value)
  }

  lemma MalformedIsScanned(ls: seq<string>)
    ensures Scanned(ls, 0) == None <==> HasMalformedLength(ls)
  {
    hide IsMalformedLength, IsLengthLine, LengthIn, Scanned;
    ScanFailsExactly(ls, 0);
    forall i | 0 <= i < |ls|
      ensures Malformed(ls[i]) <==> IsLengthLine(ls[i]) && LengthIn(ls[i]) == None
    {
      MalformedExactly(ls[i]);
    }
  }

  lemma BadLengthAfterHead(raw: string, incoming: seq<Recv>, maxBody: nat)
    requires !Without(raw, BlankLine)
    ensures AfterHead(raw, incoming, maxBody) == Refused(BadRequest, "Malformed Content-Length header") <==>
            Scanned(Lines(HeadOf(raw)), 0) == None
  {
    hide Scanned, GatherBody;
  }

  /**
   The server answers 400, for a head within the cap, exactly if some line of it announces a length
   and does not say a number below 2^64; under every cutting, and whatever follows the head.
   */
  lemma BadLengthExactly(incoming: seq<Recv>, caps: Caps, h: nat)
    requires Find(Delivered(incoming), BlankLine) == Some(h) && h + 3 <= caps.maxHeader
    ensures IntakeOf(incoming, caps) == Refused(BadRequest, "Malformed Content-Length header") <==>
            HasMalformedLength(Lines(Delivered(incoming)[..h]))
  {
    hide HasMalformedLength, GatherHead, GatherBody, Scanned, AfterHead;
    var s := Delivered(incoming);
    assert "" + s == s;
    ServerChunking.HeadIsFound("", incoming, caps.maxHeader);
    var g := GatherHead("", incoming, caps.maxHeader);
    ServerChunking.SameHead(g.raw, Delivered(g.rest));
    assert HeadOf(g.raw) == s[..h];
    BadLengthAfterHead(g.raw, g.rest, caps.maxBody);
    MalformedIsScanned(Lines(s[..h]));
  }

  /** The client takes a response whose length is no number below 2^64 for none at all. */
  lemma BadLengthAtClient(incoming: seq<Recv>, maxResponse: nat, b: nat)
    requires Find(Delivered(incoming), BlankLine) == Some(b)
    requires var head := ResponseHead(Delivered(incoming)[..b]);
             head.Some? && "content-length" in head.value.headers && NoNumber(Trim(head.value.headers["content-length"]))
    ensures Received("", incoming, maxResponse) == None
  {
    hide ResponseHead, Trim, NoNumber, Received;
    var s := Delivered(incoming);
    NoNumberExactly(Trim(ResponseHead(s[..b]).value.headers["content-length"]));
    assert FramingOf(s, maxResponse) == BadHead;
    BadHeadIsNothing(incoming, maxResponse);
  }

  lemma BadHeadIsNothing(incoming: seq<Recv>, maxResponse: nat)
    requires FramingOf(Delivered(incoming), maxResponse) == BadHead
    ensures Received("", incoming, maxResponse) == None
  {
    hide FramingOf, Received;
    ClientChunking.BytesDecide(incoming, maxResponse);
  }
}
