/**
 Does the way the network cuts a request into reads change what the server makes of it?
 For most streams it does not, and then the outcome is a function of the bytes alone; the
 streams for which it does are named exactly.
 */
module ServerChunking {
  import opened ByteStrings
  import opened Messages
  import opened Transport
  import opened RequestIntake

  /** The outcome as a function of the bytes. */
  function IntakeOfBytes(s: string, caps: Caps): Intake {
    match Find(s, BlankLine)
    case None => if |s| > caps.maxHeader then HEADER_TOO_LARGE else Dropped
    case Some(h) =>
      if h + 3 > caps.maxHeader then HEADER_TOO_LARGE
      else match Declared(s[..h], caps.maxBody)
        case Failure(refusal) => refusal
        case Success(n) => if |s| < h + 4 + n then Dropped else Taken(s)
  }

  /**
   The head ends beyond the cap but one read can still bridge the gap, or the head is
   accepted and bytes follow the declared body.
   */
  predicate ChunkingMatters(s: string, caps: Caps) {
    match Find(s, BlankLine)
    case None => false
    case Some(h) =>
      if h + 3 > caps.maxHeader then h + 4 <= caps.maxHeader + READ_CHUNK
      else match Declared(s[..h], caps.maxBody)
        case Failure(_) => false
        case Success(n) => |s| > h + 4 + n
  }

  // ---------- When chunking does not matter ----------

  lemma {:induction false} HeadlessStream(raw: string, incoming: seq<Recv>, maxHeader: nat)
    requires Without(raw + Delivered(incoming), BlankLine)
    ensures GatherHead(raw, incoming, maxHeader) ==
            if |raw + Delivered(incoming)| > maxHeader then TooLarge else Gone
    decreases |incoming|
  {
    var more := Delivered(incoming);
    if !Without(raw, BlankLine) {
      FindInPrefix(raw, more, BlankLine, 0);
    } else if |raw| <= maxHeader && incoming != [] && incoming[0].Data? {
      assert raw + more == raw + incoming[0].bytes + Delivered(incoming[1..]);
      HeadlessStream(raw + incoming[0].bytes, incoming[1..], maxHeader);
    }
  }

  /** A head that ends within the cap is found, and nothing of the stream is lost. */
  lemma {:induction false} HeadIsFound(raw: string, incoming: seq<Recv>, maxHeader: nat)
    requires var s := raw + Delivered(incoming);
             Find(s, BlankLine).Some? && Find(s, BlankLine).value + 3 <= maxHeader
    ensures var s := raw + Delivered(incoming);
            var g := GatherHead(raw, incoming, maxHeader);
            && g.Got? && g.raw + Delivered(g.rest) == s && Find(g.raw, BlankLine) == Find(s, BlankLine)
    decreases |incoming|
  {
    var more := Delivered(incoming);
    var s := raw + more;
    if !Without(raw, BlankLine) {
      FindInPrefix(raw, more, BlankLine, 0);
    } else {
      ShorterThanHead(raw, more);
      assert more == "" ==> s == raw;
      if incoming != [] && incoming[0].Data? {
        assert s == raw + incoming[0].bytes + Delivered(incoming[1..]);
        HeadIsFound(raw + incoming[0].bytes, incoming[1..], maxHeader);
      }
    }
  }

  lemma ShorterThanHead(raw: string, more: string)
    requires Find(raw + more, BlankLine).Some? && Without(raw, BlankLine)
    ensures |raw| < Find(raw + more, BlankLine).value + 4
  {
    if |raw| >= Find(raw + more, BlankLine).value + 4 {
      FindBackInPrefix(raw, more, BlankLine);
    }
  }

  /** A head that ends more than one read beyond the cap is always refused. */
  lemma {:induction false} HeadIsTooFar(raw: string, incoming: seq<Recv>, maxHeader: nat)
    requires var s := raw + Delivered(incoming);
             Find(s, BlankLine).Some? && Find(s, BlankLine).value + 4 > maxHeader + READ_CHUNK
    requires Without(raw, BlankLine)
    ensures GatherHead(raw, incoming, maxHeader) == TooLarge
    decreases |incoming|
  {
    var more := Delivered(incoming);
    assert more == "" ==> raw + more == raw;
    if |raw| <= maxHeader {
      if incoming != [] && incoming[0].Data? {
        var next, later := raw + incoming[0].bytes, Delivered(incoming[1..]);
        assert raw + more == next + later;
        if !Without(next, BlankLine) {
          FindInPrefix(next, later, BlankLine, 0);
        }
        HeadIsTooFar(next, incoming[1..], maxHeader);
      }
    }
  }

  lemma {:induction false} BodyIsGathered(raw: string, incoming: seq<Recv>, need: nat)
    ensures var s := raw + Delivered(incoming);
            var g := GatherBody(raw, incoming, need);
            if |s| < need then g == Gone else g.Got? && g.raw + Delivered(g.rest) == s
    decreases |incoming|
  {
    if |raw| < need && incoming != [] && incoming[0].Data? {
      assert raw + Delivered(incoming) == raw + incoming[0].bytes + Delivered(incoming[1..]);
      BodyIsGathered(raw + incoming[0].bytes, incoming[1..], need);
    }
  }

  /** Once the head is there, the rest of the intake is decided by the bytes, if none follow the body. */
  lemma BodyByBytes(raw: string, incoming: seq<Recv>, maxBody: nat, s: string)
    requires !Without(raw, BlankLine) && raw + Delivered(incoming) == s
    requires Declared(HeadOf(raw), maxBody).Success? ==>
               |s| <= RequestEnd(raw, Declared(HeadOf(raw), maxBody).value)
    ensures AfterHead(raw, incoming, maxBody) ==
            match Declared(HeadOf(raw), maxBody)
            case Failure(refusal) => refusal
            case Success(n) => if |s| < RequestEnd(raw, n) then Dropped else Taken(s)
  {
    hide Declared;
    var d := Declared(HeadOf(raw), maxBody);
    if d.Success? {
      var need := RequestEnd(raw, d.value);
      BodyIsGathered(raw, incoming, need);
      var g := GatherBody(raw, incoming, need);
      if g.Got? {
        assert |g.raw| == |s| && g.raw + Delivered(g.rest) == g.raw;
      }
    }
  }

  /** Outside the named family the outcome depends on the bytes alone, not on the reads. */
  lemma BytesDecide(incoming: seq<Recv>, caps: Caps)
    requires !ChunkingMatters(Delivered(incoming), caps)
    ensures IntakeOf(incoming, caps) == IntakeOfBytes(Delivered(incoming), caps)
  {
    hide Declared, AfterHead, GatherHead;
    var s := Delivered(incoming);
    assert "" + s == s;
    NoOccurrence("", BlankLine, 0);
    if Without(s, BlankLine) {
      HeadlessStream("", incoming, caps.maxHeader);
    } else if Find(s, BlankLine).value + 3 > caps.maxHeader {
      HeadIsTooFar("", incoming, caps.maxHeader);
    } else {
      HeadIsFound("", incoming, caps.maxHeader);
      var g := GatherHead("", incoming, caps.maxHeader);
      SameHead(g.raw, Delivered(g.rest));
      BodyByBytes(g.raw, g.rest, caps.maxBody, s);
    }
  }

  lemma SameHead(raw: string, more: string)
    requires !Without(raw, BlankLine) && !Without(raw + more, BlankLine)
    ensures Find(raw + more, BlankLine) == Find(raw, BlankLine) && HeadOf(raw + more) == HeadOf(raw)
  {
    FindInPrefix(raw, more, BlankLine, 0);
  }

  // ---------- When it does ----------

  /** Bytes that come one at a time, without completing a head: refused as soon as they exceed the cap. */
  lemma {:induction false} TrickledHead(raw: string, t: string, more: seq<Recv>, maxHeader: nat)
    requires Without(raw + t, BlankLine)
    ensures |raw + t| <= maxHeader ==>
              GatherHead(raw, OneByOne(t, more), maxHeader) == GatherHead(raw + t, more, maxHeader)
    ensures |raw + t| > maxHeader ==> GatherHead(raw, OneByOne(t, more), maxHeader) == TooLarge
    decreases |t|
  {
    if !Without(raw, BlankLine) {
      FindInPrefix(raw, t, BlankLine, 0);
    } else if t == "" {
      assert raw + t == raw;
    } else {
      assert raw + [t[0]] + t[1..] == raw + t;
      assert OneByOne(t, more)[1..] == OneByOne(t[1..], more);
      TrickledHead(raw + [t[0]], t[1..], more, maxHeader);
    }
  }

  lemma {:induction false} TrickledBody(raw: string, t: string, more: seq<Recv>, need: nat)
    requires |raw + t| <= need
    ensures GatherBody(raw, OneByOne(t, more), need) == GatherBody(raw + t, more, need)
    decreases |t|
  {
    if t == "" {
      assert raw + t == raw;
    } else {
      assert raw + [t[0]] + t[1..] == raw + t;
      assert OneByOne(t, more)[1..] == OneByOne(t[1..], more);
      TrickledBody(raw + [t[0]], t[1..], more, need);
    }
  }

  /** Gathering the head and then the body is gathering the whole request. */
  lemma {:induction false} HeadThenBody(raw: string, incoming: seq<Recv>, maxHeader: nat, need: nat)
    requires var s := raw + Delivered(incoming);
             Find(s, BlankLine).Some? && Find(s, BlankLine).value + 3 <= maxHeader
             && Find(s, BlankLine).value + 4 <= need
    ensures var g := GatherHead(raw, incoming, maxHeader);
            g.Got? && GatherBody(g.raw, g.rest, need) == GatherBody(raw, incoming, need)
    decreases |incoming|
  {
    var more := Delivered(incoming);
    if Without(raw, BlankLine) {
      ShorterThanHead(raw, more);
      assert more == "" ==> raw + more == raw;
      if incoming != [] && incoming[0].Data? {
        assert raw + more == raw + incoming[0].bytes + Delivered(incoming[1..]);
        HeadThenBody(raw + incoming[0].bytes, incoming[1..], maxHeader, need);
      }
    }
  }

  /** The cap is overstepped by a trickle, but not by a read that brings the blank line along. */
  lemma HeadAcrossTheCap(s: string, caps: Caps)
    requires Find(s, BlankLine).Some?
    requires caps.maxHeader < Find(s, BlankLine).value + 3
    requires Find(s, BlankLine).value + 4 <= caps.maxHeader + READ_CHUNK
    ensures var h, cap := Find(s, BlankLine).value, caps.maxHeader;
            && IntakeOf(OneBigRead(s, cap + 1, h + 4, []), caps) == HEADER_TOO_LARGE
            && IntakeOf(OneBigRead(s, cap, h + 4, []), caps) != HEADER_TOO_LARGE
  {
    TrickleIsRefused(s, caps);
    BridgingReadIsNot(s, caps);
  }

  lemma TrickleIsRefused(s: string, caps: Caps)
    requires Find(s, BlankLine).Some?
    requires caps.maxHeader < Find(s, BlankLine).value + 3
    requires Find(s, BlankLine).value + 4 <= caps.maxHeader + READ_CHUNK
    ensures IntakeOf(OneBigRead(s, caps.maxHeader + 1, Find(s, BlankLine).value + 4, []), caps) == HEADER_TOO_LARGE
  {
    hide AfterHead;
    var h, cap := Find(s, BlankLine).value, caps.maxHeader;
    WithoutHead(s, cap + 1);
    assert "" + s[..cap + 1] == s[..cap + 1];
    TrickledHead("", s[..cap + 1], [Data(s[cap + 1..h + 4])] + OneByOne(s[h + 4..], []), cap);
  }

  lemma BridgingReadIsNot(s: string, caps: Caps)
    requires Find(s, BlankLine).Some?
    requires caps.maxHeader < Find(s, BlankLine).value + 3
    requires Find(s, BlankLine).value + 4 <= caps.maxHeader + READ_CHUNK
    ensures IntakeOf(OneBigRead(s, caps.maxHeader, Find(s, BlankLine).value + 4, []), caps) != HEADER_TOO_LARGE
  {
    hide AfterHead, OneByOne;
    var h, cap := Find(s, BlankLine).value, caps.maxHeader;
    var tail := OneByOne(s[h + 4..], []);
    var script := [Data(s[cap..h + 4])] + tail;
    WithoutHead(s, cap);
    assert "" + s[..cap] == s[..cap];
    TrickledHead("", s[..cap], script, cap);
    assert script[1..] == tail && s[..cap] + s[cap..h + 4] == s[..h + 4];
    HeadIsComplete(s);
    RefusalsDiffer(s[..h + 4], tail, caps.maxBody);
  }

  lemma HeadIsComplete(s: string)
    requires !Without(s, BlankLine)
    ensures !Without(s[..Find(s, BlankLine).value + 4], BlankLine)
  {
    var k := Find(s, BlankLine).value + 4;
    assert s == s[..k] + s[k..];
    FindBackInPrefix(s[..k], s[k..], BlankLine);
  }

  lemma WithoutHead(s: string, i: nat)
    requires Find(s, BlankLine).Some? && i <= |s| && i < Find(s, BlankLine).value + 4
    ensures Without(s[..i], BlankLine)
  {
    if !Without(s[..i], BlankLine) {
      assert s == s[..i] + s[i..];
      FindInPrefix(s[..i], s[i..], BlankLine, 0);
    }
  }

  lemma RefusalsDiffer(raw: string, incoming: seq<Recv>, maxBody: nat)
    requires !Without(raw, BlankLine)
    ensures AfterHead(raw, incoming, maxBody) != HEADER_TOO_LARGE
  {
  }

  /** With an acceptable head the two read loops act as one that waits for the whole request. */
  lemma OneLoop(incoming: seq<Recv>, caps: Caps, n: nat)
    requires var s := Delivered(incoming);
             && Find(s, BlankLine).Some? && Find(s, BlankLine).value + 3 <= caps.maxHeader
             && Declared(HeadOf(s), caps.maxBody) == Success(n)
    ensures var g := GatherBody("", incoming, RequestEnd(Delivered(incoming), n));
            IntakeOf(incoming, caps) == if g.Got? then Taken(g.raw) else Dropped
  {
    hide Declared, GatherHead, GatherBody, HeadOf;
    var s := Delivered(incoming);
    assert "" + s == s;
    HeadIsFound("", incoming, caps.maxHeader);
    HeadThenBody("", incoming, caps.maxHeader, RequestEnd(s, n));
    var g := GatherHead("", incoming, caps.maxHeader);
    SameHead(g.raw, Delivered(g.rest));
  }

  /**
   Bytes behind the declared body are kept if they come in the same read as its last byte, and
   left behind if not: the buffer handed to the parser ends where the read that completes it ends.
   */
  lemma TakenUpTo(s: string, caps: Caps, n: nat, k: nat)
    requires Find(s, BlankLine).Some? && Find(s, BlankLine).value + 3 <= caps.maxHeader
    requires Declared(HeadOf(s), caps.maxBody) == Success(n)
    requires RequestEnd(s, n) <= k <= RequestEnd(s, n) + 1 && k <= |s|
    ensures IntakeOf(OneBigRead(s, RequestEnd(s, n) - 1, k, []), caps) == Taken(s[..k])
  {
    hide Declared, IntakeOf, GatherBody, OneBigRead;
    var end := RequestEnd(s, n);
    DeliveredOneBigRead(s, end - 1, k, []);
    GatheredInOneBigRead(s, end, k);
    OneLoop(OneBigRead(s, end - 1, k, []), caps, n);
  }

  lemma GatheredInOneBigRead(s: string, end: nat, k: nat)
    requires 1 <= end <= k <= end + 1 && k <= |s|
    ensures GatherBody("", OneBigRead(s, end - 1, k, []), end) == Got(s[..k], OneByOne(s[k..], []))
  {
    hide OneByOne;
    var script := [Data(s[end - 1..k])] + OneByOne(s[k..], []);
    assert "" + s[..end - 1] == s[..end - 1];
    TrickledBody("", s[..end - 1], script, end);
    assert s[..end - 1] + s[end - 1..k] == s[..k];
    assert script[1..] == OneByOne(s[k..], []);
  }

  /** Two ways to cut `s` that the server answers differently. */
  lemma ReadsDecide(s: string, caps: Caps) returns (one: seq<Recv>, other: seq<Recv>)
    requires ChunkingMatters(s, caps)
    ensures Delivered(one) == s && Delivered(other) == s
    ensures IntakeOf(one, caps) != IntakeOf(other, caps)
  {
    var h := Find(s, BlankLine).value;
    if h + 3 > caps.maxHeader {
      HeadAcrossTheCap(s, caps);
      one, other := OneBigRead(s, caps.maxHeader + 1, h + 4, []), OneBigRead(s, caps.maxHeader, h + 4, []);
      DeliveredOneBigRead(s, caps.maxHeader + 1, h + 4, []);
      DeliveredOneBigRead(s, caps.maxHeader, h + 4, []);
    } else {
      var n := Declared(HeadOf(s), caps.maxBody).value;
      var end := RequestEnd(s, n);
      TakenUpTo(s, caps, n, end);
      TakenUpTo(s, caps, n, end + 1);
      one, other := OneBigRead(s, end - 1, end, []), OneBigRead(s, end - 1, end + 1, []);
      DeliveredOneBigRead(s, end - 1, end, []);
      DeliveredOneBigRead(s, end - 1, end + 1, []);
      assert |s[..end]| != |s[..end + 1]|;
    }
  }

  /** Such streams exist under every cap: a head that fills it, ... */
  lemma FullHeadMatters(caps: Caps)
    ensures ChunkingMatters(seq(caps.maxHeader, i requires 0 <= i < caps.maxHeader => 'a') + CRLF_CRLF, caps)
  {
    var head := seq(caps.maxHeader, i requires 0 <= i < caps.maxHeader => 'a');
    NoReturnNoCrlf(head);
    assert HeadLines([head]);
    BlankLineAfterHead([head], "");
    assert head + CRLF_CRLF + "" == head + CRLF_CRLF;
  }

  const PLAIN_LINE := "GET / HTTP/1.1"

  /** ... and a request with one byte too many. */
  lemma SurplusByteMatters(caps: Caps)
    requires caps.maxHeader >= |PLAIN_LINE| + 3
    ensures ChunkingMatters(PLAIN_LINE + CRLF_CRLF + "x", caps)
  {
    PlainLineIsClean();
    SurplusByteBehind(PLAIN_LINE, caps);
  }

  lemma PlainLineIsClean()
    ensures Without(PLAIN_LINE, Crlf) && Without(PLAIN_LINE, Char(':'))
  {
    var line := PLAIN_LINE;
    NoReturnNoCrlf(line);
    NoSuchChar(line, ':');
  }

  lemma SurplusByteBehind(line: string, caps: Caps)
    requires Without(line, Crlf) && Without(line, Char(':')) && caps.maxHeader >= |line| + 3
    ensures ChunkingMatters(line + CRLF_CRLF + "x", caps)
  {
    assert HeadLines([line]);
    BlankLineAfterHead([line], "x");
    assert (line + CRLF_CRLF + "x")[..|line|] == line;
    assert Lines(line) == [line] && [line][1..] == [];
    assert Scanned([line], 0) == Scanned([], 0) == Some(0);
  }

  /** The server's view of a stream is independent of the reads exactly when `ChunkingMatters` fails. */
  lemma IndependentExactly(s: string, caps: Caps)
    ensures (forall one, other :: Delivered(one) == s && Delivered(other) == s ==>
               IntakeOf(one, caps) == IntakeOf(other, caps))
            <==> !ChunkingMatters(s, caps)
  {
    if ChunkingMatters(s, caps) {
      var one, other := ReadsDecide(s, caps);
    } else {
      forall one, other | Delivered(one) == s && Delivered(other) == s
        ensures IntakeOf(one, caps) == IntakeOf(other, caps)
      {
        BytesDecide(one, caps);
        BytesDecide(other, caps);
      }
    }
  }
}
