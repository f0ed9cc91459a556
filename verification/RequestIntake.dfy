/**
 How the server gets one request off the wire: read until the blank line, scan the raw head
 for Content-Length, check the caps, read the body.  The reads may cut the stream anywhere.
 */
module RequestIntake {
  import opened ByteStrings
  import opened Messages
  import opened Transport

  datatype Caps = Caps(maxHeader: nat, maxBody: nat)

  // ---------- The Content-Length scan ----------

  const LENGTH_KEY := "content-length"

  predicate IsLengthLine(line: string) {
    match Find(line, Char(':'))
    case None => false
    case Some(i) => Lower(line[..i]) == LENGTH_KEY
  }

  function LengthIn(line: string): Option<nat>
    requires IsLengthLine(line)
  {
    FromChars(DropSpaces(line[Find(line, Char(':')).value + 1..]))
  }

  /** The scan over the lines of a head: the last length wins, the first malformed one stops it. */
  function Scanned(ls: seq<string>, length: nat): Option<nat> {
    if ls == [] then Some(length)
    else if !IsLengthLine(ls[0]) then Scanned(ls[1..], length)
    else match LengthIn(ls[0])
      case None => None
      case Some(n) => Scanned(ls[1..], n)
  }

  method EqualsIgnoreCase(a: string, b: string) returns (same: bool)
    ensures same <==> Lower(a) == Lower(b)
  {
    if |a| != |b| {
      return false;
    }
    for i := 0 to |a|
      invariant forall j :: 0 <= j < i ==> LowerChar(a[j]) == LowerChar(b[j])
    {
      if LowerChar(a[i]) != LowerChar(b[i]) {
        assert Lower(a)[i] != Lower(b)[i];
        return false;
      }
    }
    assert Lower(a) == Lower(b);
    return true;
  }

  lemma LengthKeyInLowerCase()
    ensures Lower("Content-Length") == LENGTH_KEY
  {
    var s := "Content-Length";
    assert forall i :: 0 <= i < |s| ==> LowerChar(s[i]) == LENGTH_KEY[i];
  }

  /** `None` is the early 400. */
  method ScanContentLength(raw: string, headerEnd: nat) returns (contentLength: Option<nat>)
    requires Find(raw, BlankLine) == Some(headerEnd)
    ensures contentLength == Scanned(Lines(raw[..headerEnd]), 0)
  {
    var length := 0;
    var headerSearchPos := 0;
    ghost var goal := Scanned(Lines(raw[..headerEnd]), 0);
    assert raw[0..headerEnd] == raw[..headerEnd];
    while true
      invariant 0 <= headerSearchPos <= headerEnd + 2
      invariant headerSearchPos <= headerEnd ==> Scanned(Lines(raw[headerSearchPos..headerEnd]), length) == goal
      invariant headerSearchPos == headerEnd + 2 ==> goal == Some(length)
      invariant headerSearchPos != headerEnd + 1
      decreases headerEnd + 2 - headerSearchPos
    {
      if headerSearchPos <= headerEnd {
        NextLine(raw, headerEnd, headerSearchPos);
      }
      var lineStart := headerSearchPos;
      var lineEnd := Find(raw, Crlf, lineStart);
      if lineEnd.None? || lineEnd.value > headerEnd {
        break;
      }
      var line := raw[lineStart..lineEnd.value];
      var colon := Find(line, Char(':'));
      if colon.Some? {
        LengthKeyInLowerCase();
        var isLength := EqualsIgnoreCase(line[..colon.value], "Content-Length");
        if isLength {
          var value := line[colon.value + 1..];
          while value != "" && value[0] == ' '
            invariant DropSpaces(value) == DropSpaces(line[colon.value + 1..])
            decreases |value|
          {
            value := value[1..];
          }
          var parsed := FromChars(value);
          if parsed.None? {
            return None;
          }
          length := parsed.value;
        }
      }
      headerSearchPos := lineEnd.value + 2;
    }
    return Some(length);
  }

  /** The next CRLF in the buffer ends the next line of the head, and the head's last line ends at the blank line. */
  lemma NextLine(raw: string, headerEnd: nat, start: nat)
    requires Find(raw, BlankLine) == Some(headerEnd) && start <= headerEnd
    ensures var e := Find(raw, Crlf, start);
            && e.Some? && start <= e.value <= headerEnd && e.value != headerEnd - 1
            && Lines(raw[start..headerEnd]) ==
               [raw[start..e.value]] + (if e.value == headerEnd then [] else Lines(raw[e.value + 2..headerEnd]))
  {
    assert At(raw, Crlf, headerEnd);
    var e := Find(raw, Crlf, start).value;
    assert e <= headerEnd;
    LinesBetween(raw, start, e, headerEnd);
  }

  lemma LinesBetween(raw: string, start: nat, e: nat, end: nat)
    requires start <= e <= end <= |raw| && Find(raw, Crlf, start) == Some(e) && CrlfAt(raw, end)
    ensures e != end - 1
    ensures Lines(raw[start..end]) == [raw[start..e]] + (if e == end then [] else Lines(raw[e + 2..end]))
  {
    var head := raw[start..end];
    forall j | 0 <= j < e - start
      ensures !At(head, Crlf, j)
    {
      assert !At(raw, Crlf, start + j);
    }
    if e == end {
      NoOccurrence(head, Crlf, 0);
    } else {
      assert CrlfAt(raw, e) && e != end - 1;
      FoundAt(head, Crlf, 0, e - start);
      assert head[..e - start] == raw[start..e] && head[e - start + 2..] == raw[e + 2..end];
    }
  }

  // ---------- Reading ----------

  /** The connection went away, the head grew too large, or the bytes are there (and some reads are left). */
  datatype Gathered = Gone | TooLarge | Got(raw: string, rest: seq<Recv>)

  function GatherHead(raw: string, incoming: seq<Recv>, maxHeader: nat): (g: Gathered)
    ensures g.Got? ==> !Without(g.raw, BlankLine)
    decreases |incoming|
  {
    if !Without(raw, BlankLine) then Got(raw, incoming)
    else if |raw| > maxHeader then TooLarge
    else if incoming == [] || !incoming[0].Data? then Gone
    else GatherHead(raw + incoming[0].bytes, incoming[1..], maxHeader)
  }

  function GatherBody(raw: string, incoming: seq<Recv>, need: nat): (g: Gathered)
    ensures !g.TooLarge?
    ensures g.Got? ==> |g.raw| >= need && raw <= g.raw
    decreases |incoming|
  {
    if |raw| >= need then Got(raw, incoming)
    else if incoming == [] || !incoming[0].Data? then Gone
    else GatherBody(raw + incoming[0].bytes, incoming[1..], need)
  }

  // ---------- The whole intake ----------

  /** Close without a word, answer with an error, or hand `raw` to the parser. */
  datatype Intake = Dropped | Refused(status: HttpStatus, text: string) | Taken(raw: string)

  const HEADER_TOO_LARGE := Refused(RequestHeaderFieldsTooLarge, "Request header too large")
  const BAD_LENGTH := Refused(BadRequest, "Malformed Content-Length header")
  const BODY_TOO_LARGE := Refused(PayloadTooLarge, "Request body too large")

  /** What the head `head` promises: an error, or the length of the body. */
  function Declared(head: string, maxBody: nat): Result<nat, Intake> {
    match Scanned(Lines(head), 0)
    case None => Failure(BAD_LENGTH)
    case Some(n) => if n > maxBody then Failure(BODY_TOO_LARGE) else Success(n)
  }

  function HeadOf(raw: string): string
    requires !Without(raw, BlankLine)
  {
    raw[..Find(raw, BlankLine).value]
  }

  /** The offset at which a request with this head and declared length is complete. */
  function RequestEnd(raw: string, length: nat): nat
    requires !Without(raw, BlankLine)
  {
    Find(raw, BlankLine).value + 4 + length
  }

  function AfterHead(raw: string, incoming: seq<Recv>, maxBody: nat): Intake
    requires !Without(raw, BlankLine)
  {
    match Declared(HeadOf(raw), maxBody)
    case Failure(refusal) => refusal
    case Success(n) =>
      match GatherBody(raw, incoming, RequestEnd(raw, n))
      case Got(whole, _) => Taken(whole)
      case _ => Dropped
  }

  function IntakeOf(incoming: seq<Recv>, caps: Caps): Intake {
    match GatherHead("", incoming, caps.maxHeader)
    case Gone => Dropped
    case TooLarge => HEADER_TOO_LARGE
    case Got(raw, rest) => AfterHead(raw, rest, caps.maxBody)
  }

  // ---------- How large the buffer gets ----------

  function Larger(m: nat, n: nat): nat {
    if m < n then n else m
  }

  /** The largest size of the buffer during the first loop, from `raw` on. */
  function HeadPeak(raw: string, incoming: seq<Recv>, maxHeader: nat): nat
    decreases |incoming|
  {
    if !Without(raw, BlankLine) || |raw| > maxHeader || incoming == [] || !incoming[0].Data? then |raw|
    else Larger(|raw|, HeadPeak(raw + incoming[0].bytes, incoming[1..], maxHeader))
  }

  /** The largest size of the buffer during the second loop, from `raw` on. */
  function BodyPeak(raw: string, incoming: seq<Recv>, need: nat): nat
    decreases |incoming|
  {
    if |raw| >= need || incoming == [] || !incoming[0].Data? then |raw|
    else Larger(|raw|, BodyPeak(raw + incoming[0].bytes, incoming[1..], need))
  }

  /** The largest size of the buffer during the whole intake. */
  function IntakePeak(incoming: seq<Recv>, caps: Caps): nat {
    var first := HeadPeak("", incoming, caps.maxHeader);
    match GatherHead("", incoming, caps.maxHeader)
    case Gone => first
    case TooLarge => first
    case Got(raw, rest) =>
      match Declared(HeadOf(raw), caps.maxBody)
      case Failure(_) => first
      case Success(n) => Larger(first, BodyPeak(raw, rest, RequestEnd(raw, n)))
  }

  /** The largest the buffer may ever get. */
  function BufferBound(caps: Caps): nat {
    caps.maxHeader + caps.maxBody + 2 * READ_CHUNK
  }

  lemma {:induction false} HeadPeakBound(raw: string, incoming: seq<Recv>, maxHeader: nat)
    requires |raw| <= maxHeader + READ_CHUNK
    ensures HeadPeak(raw, incoming, maxHeader) <= maxHeader + READ_CHUNK
    ensures var g := GatherHead(raw, incoming, maxHeader); g.Got? ==> |g.raw| <= HeadPeak(raw, incoming, maxHeader)
    decreases |incoming|
  {
    if Without(raw, BlankLine) && |raw| <= maxHeader && incoming != [] && incoming[0].Data? {
      HeadPeakBound(raw + incoming[0].bytes, incoming[1..], maxHeader);
    }
  }

  lemma {:induction false} BodyPeakBound(raw: string, incoming: seq<Recv>, need: nat)
    ensures BodyPeak(raw, incoming, need) <= Larger(|raw|, need + READ_CHUNK - 1)
    decreases |incoming|
  {
    if |raw| < need && incoming != [] && incoming[0].Data? {
      BodyPeakBound(raw + incoming[0].bytes, incoming[1..], need);
    }
  }

  /** Whatever arrives and however the intake ends, the buffer stays below the bound. */
  lemma BufferStaysBelow(incoming: seq<Recv>, caps: Caps)
    ensures IntakePeak(incoming, caps) < BufferBound(caps) == caps.maxHeader + caps.maxBody + 8192
  {
    hide GatherHead, HeadPeak, BodyPeak, Scanned;
    HeadPeakBound("", incoming, caps.maxHeader);
    var g := GatherHead("", incoming, caps.maxHeader);
    if g.Got? && Declared(HeadOf(g.raw), caps.maxBody).Success? {
      BodyPeakBound(g.raw, g.rest, RequestEnd(g.raw, Declared(HeadOf(g.raw), caps.maxBody).value));
    }
  }

  // ---------- The loops ----------

  /** The first read loop. */
  method ReceiveHead(connection: Connection, maxHeader: nat) returns (g: Gathered, ghost peak: nat)
    requires connection.socket.fd != null
    modifies connection.socket.fd
    ensures g == GatherHead("", old(connection.socket.fd.incoming), maxHeader)
    ensures connection.socket.fd.View() == old(connection.socket.fd.View()).(incoming := connection.socket.fd.incoming)
    ensures g.Got? ==> g.rest == connection.socket.fd.incoming
    ensures peak == HeadPeak("", old(connection.socket.fd.incoming), maxHeader)
  {
    ghost var h := connection.socket.fd;
    ghost var goal, top := GatherHead("", h.incoming, maxHeader), HeadPeak("", h.incoming, maxHeader);
    NoOccurrence("", BlankLine, 0);
    peak := 0;
    var raw := connection.ReceiveAvailable();
    if raw == "" {
      return Gone, peak;
    }
    assert "" + raw == raw;
    peak := |raw|;
    var headerEnd := Find(raw, BlankLine);
    while headerEnd.None?
      invariant headerEnd == Find(raw, BlankLine)
      invariant GatherHead(raw, h.incoming, maxHeader) == goal
      invariant h.View() == old(h.View()).(incoming := h.incoming)
      invariant |raw| <= peak && Larger(peak, HeadPeak(raw, h.incoming, maxHeader)) == top
      decreases |h.incoming|
    {
      if |raw| > maxHeader {
        return TooLarge, peak;
      }
      var more := connection.ReceiveAvailable();
      if more == "" {
        return Gone, peak;
      }
      raw := raw + more;
      peak := Larger(peak, |raw|);
      headerEnd := Find(raw, BlankLine);
    }
    return Got(raw, connection.socket.fd.incoming), peak;
  }

  /** The second read loop: `bodyBytesSoFar` counts what has arrived behind the head. */
  method ReceiveBody(connection: Connection, head: string, bodyStart: nat, contentLength: nat)
    returns (g: Gathered, ghost peak: nat)
    requires connection.socket.fd != null && bodyStart <= |head|
    modifies connection.socket.fd
    ensures g == GatherBody(head, old(connection.socket.fd.incoming), bodyStart + contentLength)
    ensures connection.socket.fd.View() == old(connection.socket.fd.View()).(incoming := connection.socket.fd.incoming)
    ensures peak == BodyPeak(head, old(connection.socket.fd.incoming), bodyStart + contentLength)
  {
    ghost var h := connection.socket.fd;
    var raw := head;
    var bodyBytesSoFar := |raw| - bodyStart;
    peak := |raw|;
    while bodyBytesSoFar < contentLength
      invariant bodyBytesSoFar == |raw| - bodyStart >= 0
      invariant GatherBody(raw, h.incoming, bodyStart + contentLength) ==
                GatherBody(head, old(h.incoming), bodyStart + contentLength)
      invariant h.View() == old(h.View()).(incoming := h.incoming)
      invariant |raw| <= peak
      invariant Larger(peak, BodyPeak(raw, h.incoming, bodyStart + contentLength)) ==
                BodyPeak(head, old(h.incoming), bodyStart + contentLength)
      decreases |h.incoming|
    {
      var more := connection.ReceiveAvailable();
      if more == "" {
        return Gone, peak;
      }
      raw := raw + more;
      bodyBytesSoFar := bodyBytesSoFar + |more|;
      peak := Larger(peak, |raw|);
    }
    return Got(raw, connection.socket.fd.incoming), peak;
  }

  /** Everything `handleConnection` does before it calls the parser. */
  method TakeRequest(connection: Connection, caps: Caps) returns (intake: Intake, ghost peak: nat)
    requires connection.socket.fd != null
    modifies connection.socket.fd
    ensures intake == IntakeOf(old(connection.socket.fd.incoming), caps)
    ensures connection.socket.fd.View() == old(connection.socket.fd.View()).(incoming := connection.socket.fd.incoming)
    ensures peak == IntakePeak(old(connection.socket.fd.incoming), caps) && peak < BufferBound(caps)
  {
    hide GatherHead, GatherBody, Scanned, HeadPeak, BodyPeak;
    BufferStaysBelow(connection.socket.fd.incoming, caps);
    var g;
    g, peak := ReceiveHead(connection, caps.maxHeader);
    match g {
      case Gone => return Dropped, peak;
      case TooLarge => return HEADER_TOO_LARGE, peak;
      case Got(raw, rest) =>
        var headerEnd := Find(raw, BlankLine).value;
        var contentLength := ScanContentLength(raw, headerEnd);
        if contentLength.None? {
          return BAD_LENGTH, peak;
        }
        if contentLength.value > caps.maxBody {
          return BODY_TOO_LARGE, peak;
        }
        ghost var bodyPeak;
        g, bodyPeak := ReceiveBody(connection, raw, headerEnd + 4, contentLength.value);
        return if g.Got? then Taken(g.raw) else Dropped, Larger(peak, bodyPeak);
    }
  }
}
