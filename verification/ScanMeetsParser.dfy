/**
 Two readers of one head: the server's scan for Content-Length and the request parser.  They
 agree on the length, except that the scan also looks at the request line.
 */
module ScanMeetsParser {
  import opened ByteStrings
  import opened Messages
  import opened HeaderFields
  import opened HttpParser
  import opened Transport
  import opened RequestIntake

  /** The length the parsed request declares; none declared means 0. */
  function HeaderLength(r: Request): Option<nat> {
    if LENGTH_KEY in r.headers then FromChars(r.headers[LENGTH_KEY]) else Some(0)
  }

  /** The length the scan takes from the request line, which the parser does not read as a header. */
  function RequestLineLength(line: string): nat {
    if IsLengthLine(line) && LengthIn(line).Some? then LengthIn(line).value else 0
  }

  lemma LengthLineIsField(line: string)
    requires !Without(line, Char(':'))
    ensures IsLengthLine(line) <==> ReadField(AtServer, line).0 == LENGTH_KEY
    ensures IsLengthLine(line) ==> LengthIn(line) == FromChars(ReadField(AtServer, line).1)
  {
  }

  /** Over header lines the scan and the header map move together: the last duplicate wins in both. */
  lemma {:induction false} ScanOfFields(ls: seq<string>, length: nat, n: nat, m: Fields)
    requires AllFields(ls) && Scanned(ls, length) == Some(n)
    requires LENGTH_KEY in m ==> FromChars(m[LENGTH_KEY]) == Some(length)
    ensures var held := Collapsed(ReadFields(AtServer, ls), m);
            if LENGTH_KEY in held then FromChars(held[LENGTH_KEY]) == Some(n) else n == length
  {
    if ls != [] {
      hide IsLengthLine, LengthIn, ReadField;
      var field := ReadField(AtServer, ls[0]);
      LengthLineIsField(ls[0]);
      assert AllFields(ls[1..]) by {
        assert forall i :: 0 <= i < |ls[1..]| ==> ls[1..][i] == ls[i + 1];
      }
      assert ReadFields(AtServer, ls)[1..] == ReadFields(AtServer, ls[1..]);
      var next := if IsLengthLine(ls[0]) then LengthIn(ls[0]).value else length;
      ScanOfFields(ls[1..], next, n, m[field.0 := field.1]);
      if LENGTH_KEY in m[field.0 := field.1] {
        StaysHeld(ReadFields(AtServer, ls[1..]), m[field.0 := field.1], LENGTH_KEY);
      }
    }
  }

  lemma {:induction false} StaysHeld(ps: seq<Pair>, m: Fields, k: string)
    requires k in m
    ensures k in Collapsed(ps, m)
  {
    if ps != [] {
      StaysHeld(ps[1..], m[ps[0].0 := ps[0].1], k);
    }
  }

  /**
   What the scan and the parser make of the same buffer.  The scanned length is the parsed
   header's whenever there is such a header; otherwise it is whatever the scan read in the
   request line.
   */
  lemma ScanAgainstParser(raw: string, n: nat, r: Request)
    requires !Without(raw, BlankLine) && Scanned(Lines(HeadOf(raw)), 0) == Some(n)
    requires Parsed(raw) == Success(r)
    ensures r.body == raw[RequestEnd(raw, 0)..]
    ensures LENGTH_KEY in r.headers ==> HeaderLength(r) == Some(n)
    ensures LENGTH_KEY !in r.headers ==> n == RequestLineLength(Lines(HeadOf(raw))[0])
  {
    hide IsLengthLine, LengthIn, WithRequestLine;
    var ls := Lines(HeadOf(raw));
    ParseByHead(raw);
    AcceptedExactly(raw);
    assert AllFields(ls[1..]);
    var first := WithRequestLine(ls[0], EmptyRequest).value;
    RequestLineHasNoFields(ls[0]);
    HeaderLinesStore(ls[1..], first);
    ScanOfFields(ls[1..], RequestLineLength(ls[0]), n, map[]);
  }

  lemma RequestLineHasNoFields(line: string)
    requires WithRequestLine(line, EmptyRequest).Success?
    ensures WithRequestLine(line, EmptyRequest).value.headers == map[]
  {
  }

  /** The parser holds a length exactly if some line after the request line is a length line. */
  lemma HeldExactly(raw: string, r: Request)
    requires !Without(raw, BlankLine) && Parsed(raw) == Success(r)
    ensures LENGTH_KEY in r.headers <==>
            exists i :: 1 <= i < |Lines(HeadOf(raw))| && IsLengthLine(Lines(HeadOf(raw))[i])
  {
    hide IsLengthLine, LengthIn, WithRequestLine, ReadField;
    var ls := Lines(HeadOf(raw));
    ParseByHead(raw);
    AcceptedExactly(raw);
    assert AllFields(ls[1..]);
    RequestLineHasNoFields(ls[0]);
    HeaderLinesStore(ls[1..], WithRequestLine(ls[0], EmptyRequest).value);
    var ps := ReadFields(AtServer, ls[1..]);
    forall i | 0 <= i < |ps|
      ensures ps[i].0 == LENGTH_KEY <==> IsLengthLine(ls[i + 1])
    {
      assert ls[1..][i] == ls[i + 1];
      LengthLineIsField(ls[i + 1]);
    }
    HeldIfStored(ps, map[], LENGTH_KEY);
    if k: nat :| k < |ps| && ps[k].0 == LENGTH_KEY {
      assert IsLengthLine(ls[k + 1]);
    }
    if i: nat :| 1 <= i < |ls| && IsLengthLine(ls[i]) {
      assert ps[i - 1].0 == LENGTH_KEY;
    }
  }

  lemma {:induction false} HeldIfStored(ps: seq<Pair>, m: Fields, k: string)
    ensures k in Collapsed(ps, m) <==> k in m || exists i :: 0 <= i < |ps| && ps[i].0 == k
  {
    if ps != [] {
      HeldIfStored(ps[1..], m[ps[0].0 := ps[0].1], k);
      assert forall i :: 0 <= i < |ps[1..]| ==> ps[1..][i] == ps[i + 1];
      assert forall i :: 1 <= i < |ps| ==> ps[i] == ps[1..][i - 1];
    }
  }

  /** The two lengths are equal, except exactly when only the request line looks like a (non-zero) length. */
  lemma ScanAgreesExactly(raw: string, n: nat, r: Request)
    requires !Without(raw, BlankLine) && Scanned(Lines(HeadOf(raw)), 0) == Some(n)
    requires Parsed(raw) == Success(r)
    ensures var ls := Lines(HeadOf(raw));
            HeaderLength(r) == Some(n) <==>
            (exists i :: 1 <= i < |ls| && IsLengthLine(ls[i])) || RequestLineLength(ls[0]) == 0
  {
    hide IsLengthLine, LengthIn, HeadOf;
    ScanAgainstParser(raw, n, r);
    HeldExactly(raw, r);
  }

  /** A buffer that reaches the parser is complete: a prefix of the stream with head, length and body. */
  lemma TakenIsComplete(incoming: seq<Recv>, caps: Caps)
    requires IntakeOf(incoming, caps).Taken?
    ensures var raw := IntakeOf(incoming, caps).raw;
            && raw <= Delivered(incoming)
            && !Without(raw, BlankLine)
            && exists n :: Scanned(Lines(HeadOf(raw)), 0) == Some(n) && n <= caps.maxBody && RequestEnd(raw, n) <= |raw|
  {
    hide Scanned, IsLengthLine;
    var g := GatherHead("", incoming, caps.maxHeader);
    HeadIsPrefix("", incoming, caps.maxHeader);
    assert "" + Delivered(incoming) == Delivered(incoming);
    var n := Declared(HeadOf(g.raw), caps.maxBody).value;
    var end := RequestEnd(g.raw, n);
    BodyIsPrefix(g.raw, g.rest, end);
    var whole := GatherBody(g.raw, g.rest, end);
    assert whole.raw == g.raw + whole.raw[|g.raw|..];
    FindInPrefix(g.raw, whole.raw[|g.raw|..], BlankLine, 0);
    assert HeadOf(whole.raw) == HeadOf(g.raw);
    assert Scanned(Lines(HeadOf(whole.raw)), 0) == Some(n);
  }

  lemma {:induction false} HeadIsPrefix(raw: string, incoming: seq<Recv>, maxHeader: nat)
    ensures var g := GatherHead(raw, incoming, maxHeader);
            g.Got? ==> g.raw + Delivered(g.rest) == raw + Delivered(incoming)
    decreases |incoming|
  {
    if incoming != [] && incoming[0].Data? {
      assert raw + Delivered(incoming) == raw + incoming[0].bytes + Delivered(incoming[1..]);
      HeadIsPrefix(raw + incoming[0].bytes, incoming[1..], maxHeader);
    }
  }

  lemma {:induction false} BodyIsPrefix(raw: string, incoming: seq<Recv>, need: nat)
    ensures var g := GatherBody(raw, incoming, need);
            g.Got? ==> g.raw + Delivered(g.rest) == raw + Delivered(incoming)
    decreases |incoming|
  {
    if incoming != [] && incoming[0].Data? {
      assert raw + Delivered(incoming) == raw + incoming[0].bytes + Delivered(incoming[1..]);
      BodyIsPrefix(raw + incoming[0].bytes, incoming[1..], need);
    }
  }

  /** The body of a parsed request is never shorter than its declared length. */
  lemma BodyIsLongEnough(incoming: seq<Recv>, caps: Caps, r: Request)
    requires IntakeOf(incoming, caps).Taken? && Parsed(IntakeOf(incoming, caps).raw) == Success(r)
    ensures HeaderLength(r).Some? && HeaderLength(r).value <= |r.body|
  {
    hide Scanned, IntakeOf, Parsed, HeadOf;
    var raw := IntakeOf(incoming, caps).raw;
    TakenIsComplete(incoming, caps);
    var n :| Scanned(Lines(HeadOf(raw)), 0) == Some(n) && n <= caps.maxBody && RequestEnd(raw, n) <= |raw|;
    ScanAgainstParser(raw, n, r);
  }

  // ---------- The one disagreement ----------

  /**
   A request line that reads as a length line: the scan makes the server wait for that many
   body bytes, while the parsed request has no Content-Length at all.
   */
  lemma RequestLineCountsAsLength(line: string, body: string)
    requires Without(line, Crlf) && HasTwoSpaces(line)
    requires IsLengthLine(line) && LengthIn(line).Some?
    ensures var raw := line + CRLF_CRLF + body;
            && Parsed(raw).Success? && LENGTH_KEY !in Parsed(raw).value.headers
            && !Without(raw, BlankLine) && Scanned(Lines(HeadOf(raw)), 0) == LengthIn(line)
  {
    hide IsLengthLine, LengthIn, WithRequestLine, Parsed;
    var raw := line + CRLF_CRLF + body;
    assert HeadLines([line]);
    BlankLineAfterHead([line], body);
    assert HeadOf(raw) == line;
    ParseByHead(raw);
    HeadAcceptedExactly([line], body);
    assert raw[|line| + 4..] == body;
    assert [line][1..] == [];
    assert Parsed(raw) == ParsedHead([line], body);
    RequestLineHasNoFields(line);
  }

  const TRAP_LINE := "Content-Length:  5"

  /** Such a line exists: method "Content-Length:", an empty target, version "5". */
  lemma TrapLineReadsAsLength()
    ensures IsLengthLine(TRAP_LINE) && LengthIn(TRAP_LINE) == Some(5)
  {
    var line := TRAP_LINE;
    FoundAt(line, Char(':'), 0, 14);
    LengthKeyInLowerCase();
    assert line[..14] == "Content-Length";
    var value := line[15..];
    assert value == "  5" && value[1..] == " 5" && value[1..][1..] == "5";
    assert DropSpaces(value[1..]) == DropSpaces("5") == "5";
    assert DropSpaces(value) == "5";
    DecimalValueOfDecimal(5);
    assert Decimal(5) == "5";
  }

  lemma TrapLineIsRequestLine()
    ensures Without(TRAP_LINE, Crlf) && HasTwoSpaces(TRAP_LINE)
  {
    var line := TRAP_LINE;
    NoReturnNoCrlf(line);
    assert At(line, Char(' '), 15) && At(line, Char(' '), 16);
    FoundAt(line, Char(' '), 0, 15);
    FoundAt(line, Char(' '), 16, 16);
  }

  /** A concrete request on which the two readers differ: 5 bytes awaited, none declared. */
  lemma ScanCanDisagree()
    ensures var raw := TRAP_LINE + CRLF_CRLF + "hello";
            && Parsed(raw).Success? && HeaderLength(Parsed(raw).value) == Some(0)
            && !Without(raw, BlankLine) && Scanned(Lines(HeadOf(raw)), 0) == Some(5)
  {
    hide Parsed, Scanned, HeadOf, IsLengthLine, LengthIn, HasTwoSpaces;
    TrapLineReadsAsLength();
    TrapLineIsRequestLine();
    RequestLineCountsAsLength(TRAP_LINE, "hello");
  }
}
