/**
 Server-Sent Events as text: the frames the server writes, and the parser that sections
 9.2.5 and 9.2.6 of the HTML Standard prescribe for the other end.  Frames interpreted by
 that parser give back exactly the events that were sent.
 */
module EventStream {
  import opened ByteStrings
  import opened Messages
  import opened UrlQuery

  const LF := "\n"
  const EVENT_PREFIX := "event: "
  const DATA_PREFIX := "data: "

  // ---------- Frames ----------

  function DataLine(line: string): string {
    DATA_PREFIX + line + LF
  }

  /** One data line per LF-separated line of the payload; a trailing LF gives an empty last line. */
  function DataLines(data: string): string {
    match Find(data, Char('\n'))
    case None => DataLine(data)
    case Some(i) => DataLine(data[..i]) + DataLines(data[i + 1..])
  }

  function EventLine(event: string): string {
    if event == "" then "" else EVENT_PREFIX + event + LF
  }

  function Frame(event: string, data: string): (f: string)
    ensures f != ""
  {
    EventLine(event) + DataLines(data) + LF
  }

  /** One line for each piece. */
  function PerPiece(pieces: seq<string>): string {
    if pieces == [] then "" else "data: " + pieces[0] + "\n" + PerPiece(pieces[1..])
  }

  lemma {:induction false} DataByPieces(data: string)
    ensures DataLines(data) == PerPiece(StrictlySplit(data, '\n'))
    decreases |data|
  {
    var at := Find(data, Char('\n'));
    var pieces := StrictlySplit(data, '\n');
    if at.None? {
      assert pieces == [data] && pieces[1..] == [];
    } else {
      DataByPieces(data[at.value + 1..]);
      assert pieces[1..] == StrictlySplit(data[at.value + 1..], '\n');
    }
  }

  /** A frame to the letter: the event's name, if it has one, a line for each LF-separated piece of the data, and an empty line. */
  lemma FrameToTheLetter(event: string, data: string)
    ensures event == "" ==> Frame(event, data) == PerPiece(StrictlySplit(data, '\n')) + "\n"
    ensures event != "" ==> Frame(event, data) == "event: " + event + "\n" + PerPiece(StrictlySplit(data, '\n')) + "\n"
  {
    DataByPieces(data);
    assert "" + DataLines(data) == DataLines(data);
  }

  function Frames(sends: seq<Pair>): string {
    if sends == [] then "" else Frame(sends[0].0, sends[0].1) + Frames(sends[1..])
  }

  lemma {:induction false} FramesSnoc(sends: seq<Pair>, last: Pair)
    ensures Frames(sends + [last]) == Frames(sends) + Frame(last.0, last.1)
  {
    if sends == [] {
      assert [] + [last] == [last] && [last][1..] == [];
    } else {
      assert (sends + [last])[1..] == sends[1..] + [last];
      FramesSnoc(sends[1..], last);
    }
  }

  /** The framing loop of `send`. */
  method BuildFrame(event: string, data: string) returns (frame: string)
    ensures frame == Frame(event, data)
  {
    hide DataLines, Find;
    frame := "";
    if event != "" {
      frame := frame + EVENT_PREFIX;
      frame := frame + event;
      frame := frame + LF;
    }
    assert frame == EventLine(event);
    var start := 0;
    assert data[0..] == data;
    while true
      invariant start <= |data|
      invariant frame + DataLines(data[start..]) == EventLine(event) + DataLines(data)
      decreases |data| - start
    {
      var newline := Find(data, Char('\n'), start);
      var line := if newline.None? then data[start..] else data[start..newline.value];
      if newline.None? {
        DataLinesEnd(data, start);
      } else {
        DataLinesStep(data, start, newline.value);
      }
      ghost var before := frame;
      frame := frame + DATA_PREFIX;
      frame := frame + line;
      frame := frame + LF;
      assert frame == before + DataLine(line);
      if newline.None? {
        break;
      }
      start := newline.value + 1;
    }
    frame := frame + LF;
  }

  lemma FirstDataLine(rest: string, line: string, later: string, i: nat)
    requires Find(rest, Char('\n')) == Some(i) && rest[..i] == line && rest[i + 1..] == later
    ensures DataLines(rest) == DataLine(line) + DataLines(later)
  {
    hide DataLine;
  }

  lemma CutInRest(s: string, rest: string, from: nat, i: nat)
    requires from <= i < |s| && s[from..] == rest
    ensures rest[..i - from] == s[from..i] && rest[i - from + 1..] == s[i + 1..]
  {
  }

  lemma DataLinesStep(data: string, start: nat, i: nat)
    requires start <= |data| && Find(data, Char('\n'), start) == Some(i)
    ensures DataLines(data[start..]) == DataLine(data[start..i]) + DataLines(data[i + 1..])
  {
    hide Find, DataLines, DataLine;
    var rest := data[start..];
    FindInRest(data, rest, Char('\n'), start);
    CutInRest(data, rest, start, i);
    FirstDataLine(rest, data[start..i], data[i + 1..], i - start);
  }

  lemma DataLinesEnd(data: string, start: nat)
    requires start <= |data| && Find(data, Char('\n'), start).None?
    ensures DataLines(data[start..]) == DataLine(data[start..])
  {
    FindInRest(data, data[start..], Char('\n'), start);
  }

  // ---------- The receiving parser ----------

  datatype StreamEvent = StreamEvent(kind: string, data: string)

  /** The event type buffer and the data buffer. */
  datatype Buffers = Buffers(kind: string, data: string)

  const EMPTY_BUFFERS := Buffers("", "")

  predicate IsLineBreak(c: char) { c == '\r' || c == '\n' }

  /** Where the first line ends: at a CR or an LF, whichever comes first. */
  function LineEnd(s: string): (r: Option<nat>)
    ensures r.Some? ==> r.value < |s| && IsLineBreak(s[r.value])
    ensures r.Some? ==> forall j :: 0 <= j < r.value ==> !IsLineBreak(s[j])
    ensures r.None? ==> forall j :: 0 <= j < |s| ==> !IsLineBreak(s[j])
  {
    if s == "" then None
    else if IsLineBreak(s[0]) then Some(0)
    else match LineEnd(s[1..])
      case None => None
      case Some(i) => Some(i + 1)
  }

  /** What follows the line break at `i`; CRLF counts as one break. */
  function AfterBreak(s: string, i: nat): string
    requires i < |s|
  {
    if CrlfAt(s, i) then s[i + 2..] else s[i + 1..]
  }

  /** A field: "event" sets the type, "data" appends a line, anything else leaves both buffers alone. */
  function WithField(field: string, value: string, b: Buffers): Buffers {
    if field == "event" then b.(kind := value)
    else if field == "data" then b.(data := b.data + value + LF)
    else b
  }

  /** A line that is not empty: a comment, a field with a value (one leading space dropped), or a bare field. */
  function WithLine(line: string, b: Buffers): Buffers {
    match Find(line, Char(':'))
    case None => WithField(line, "", b)
    case Some(i) =>
      var value := line[i + 1..];
      if i == 0 then b
      else WithField(line[..i], if value != "" && value[0] == ' ' then value[1..] else value, b)
  }

  function KindOf(event: string): string {
    if event == "" then "message" else event
  }

  /** An empty line: nothing if no data was buffered, else an event without the last LF. */
  function Dispatched(b: Buffers): seq<StreamEvent> {
    if b.data == "" then []
    else
      var last := |b.data| - 1;
      [StreamEvent(KindOf(b.kind), if b.data[last] == '\n' then b.data[..last] else b.data)]
  }

  /** Everything dispatched from here on; an unfinished last event is discarded. */
  function EventsFrom(s: string, b: Buffers): seq<StreamEvent>
    decreases |s|
  {
    match LineEnd(s)
    case None => []
    case Some(i) =>
      if i == 0 then Dispatched(b) + EventsFrom(AfterBreak(s, 0), EMPTY_BUFFERS)
      else EventsFrom(AfterBreak(s, i), WithLine(s[..i], b))
  }

  /** The UTF-8 byte order mark, of which one is dropped at the start of a stream. */
  predicate StartsWithBom(s: string) {
    |s| >= 3 && s[0] as int == 0xEF && s[1] as int == 0xBB && s[2] as int == 0xBF
  }

  function Events(s: string): seq<StreamEvent> {
    EventsFrom(if StartsWithBom(s) then s[3..] else s, EMPTY_BUFFERS)
  }

  // ---------- Frames read back ----------

  ghost predicate CleanSend(event: string, data: string) {
    (forall i :: 0 <= i < |event| ==> !IsLineBreak(event[i])) && '\r' !in data
  }

  lemma FirstLineIs(line: string, rest: string)
    requires forall i :: 0 <= i < |line| ==> !IsLineBreak(line[i])
    ensures var s := line + LF + rest;
            LineEnd(s) == Some(|line|) && s[..|line|] == line && AfterBreak(s, |line|) == rest
  {
    var s := line + LF + rest;
    assert s[|line|] == '\n';
  }

  lemma OneField(line: string, field: string, value: string, b: Buffers)
    requires ':' !in field && field != "" && line == field + ": " + value
    ensures WithLine(line, b) == WithField(field, value, b)
  {
    NoSuchChar(field, ':');
    CutAtChar(field, ":", ':', " " + value);
    assert line == field + ":" + (" " + value);
    assert (" " + value)[1..] == value;
  }

  lemma DataLineReadsBack(line: string, rest: string, b: Buffers)
    requires forall i :: 0 <= i < |line| ==> !IsLineBreak(line[i])
    ensures EventsFrom(DataLine(line) + rest, b) == EventsFrom(rest, b.(data := b.data + line + LF))
  {
    var all := DATA_PREFIX + line;
    FirstLineIs(all, rest);
    OneField(all, "data", line, b);
  }

  lemma EventLineReadsBack(event: string, rest: string, b: Buffers)
    requires forall i :: 0 <= i < |event| ==> !IsLineBreak(event[i])
    ensures EventsFrom(EVENT_PREFIX + event + LF + rest, b) == EventsFrom(rest, b.(kind := event))
  {
    var all := EVENT_PREFIX + event;
    FirstLineIs(all, rest);
    OneField(all, "event", event, b);
  }

  lemma EmptyLineReadsBack(rest: string, b: Buffers)
    ensures EventsFrom(LF + rest, b) == Dispatched(b) + EventsFrom(rest, EMPTY_BUFFERS)
  {
    FirstLineIs("", rest);
    assert "" + LF + rest == LF + rest;
  }

  /** The data lines and the empty line behind them: one event, whose data is the payload. */
  lemma {:induction false} DataReadsBack(data: string, rest: string, b: Buffers)
    requires '\r' !in data
    ensures EventsFrom(DataLines(data) + (LF + rest), b) ==
            Dispatched(b.(data := b.data + data + LF)) + EventsFrom(rest, EMPTY_BUFFERS)
    decreases |data|
  {
    hide EventsFrom, Dispatched, DataLine;
    var at := Find(data, Char('\n'));
    var i := if at.None? then |data| else at.value;
    var line := data[..i];
    forall j | 0 <= j < i
      ensures !IsLineBreak(line[j])
    {
      assert !At(data, Char('\n'), j) && data[j] in data;
    }
    var next := b.(data := b.data + line + LF);
    if at.None? {
      assert line == data;
      DataLineReadsBack(data, LF + rest, b);
      EmptyLineReadsBack(rest, next);
    } else {
      var later := data[i + 1..];
      var tail := DataLines(later) + (LF + rest);
      DataLineReadsBack(line, tail, b);
      assert DataLines(data) + (LF + rest) == DataLine(line) + tail;
      DataReadsBack(later, rest, next);
      assert data == line + LF + later;
      assert b.data + line + LF + later + LF == b.data + data + LF;
    }
  }

  lemma FrameReadsBack(event: string, data: string, rest: string)
    requires CleanSend(event, data)
    ensures EventsFrom(Frame(event, data) + rest, EMPTY_BUFFERS) ==
            [StreamEvent(KindOf(event), data)] + EventsFrom(rest, EMPTY_BUFFERS)
  {
    hide EventsFrom, DataLines;
    var b := Buffers(event, "");
    var tail := DataLines(data) + (LF + rest);
    DataReadsBack(data, rest, b);
    assert Frame(event, data) + rest == EventLine(event) + tail;
    if event == "" {
      assert "" + tail == tail;
    } else {
      EventLineReadsBack(event, tail, EMPTY_BUFFERS);
    }
    OneLineDispatched(event, data);
  }

  lemma OneLineDispatched(event: string, data: string)
    ensures Dispatched(Buffers(event, "" + data + LF)) == [StreamEvent(KindOf(event), data)]
  {
    assert ("" + data + LF)[..|data|] == data;
  }

  function Expected(sends: seq<Pair>): (es: seq<StreamEvent>)
    ensures |es| == |sends|
    ensures forall i :: 0 <= i < |es| ==>
              es[i] == StreamEvent(if sends[i].0 == "" then "message" else sends[i].0, sends[i].1)
  {
    seq(|sends|, i requires 0 <= i < |sends| => StreamEvent(KindOf(sends[i].0), sends[i].1))
  }

  // ---------- Frames cut off anywhere ----------

  /** No line of `s` is empty, and all its breaks are LFs. */
  ghost predicate NoBlankLine(s: string) {
    && '\r' !in s
    && (s != "" ==> s[0] != '\n')
    && forall i :: 0 <= i < |s| - 1 && s[i] == '\n' ==> s[i + 1] != '\n'
  }

  lemma {:induction false} NoBlankLineNoEvent(s: string, b: Buffers)
    requires NoBlankLine(s)
    ensures EventsFrom(s, b) == []
    decreases |s|
  {
    var at := LineEnd(s);
    if at.Some? {
      var i := at.value;
      assert s[i] in s && !CrlfAt(s, i);
      var rest := s[i + 1..];
      assert forall j :: 0 <= j < |rest| ==> rest[j] == s[i + 1 + j];
      NoBlankLineNoEvent(rest, WithLine(s[..i], b));
    }
  }

  lemma OneLineNoBlank(line: string, rest: string)
    requires line != "" && (forall i :: 0 <= i < |line| ==> !IsLineBreak(line[i])) && NoBlankLine(rest)
    ensures NoBlankLine(line + LF + rest)
  {
    var s := line + LF + rest;
    forall c | c in s
      ensures c != '\r'
    {
      var i :| 0 <= i < |s| && s[i] == c;
      assert i > |line| ==> s[i] == rest[i - |line| - 1] && s[i] in rest;
    }
    forall i | 0 <= i < |s| - 1 && s[i] == '\n'
      ensures s[i + 1] != '\n'
    {
      assert i > |line| ==> s[i] == rest[i - |line| - 1] && s[i + 1] == rest[i - |line|];
    }
  }

  lemma {:induction false} DataLinesNoBlank(data: string)
    requires '\r' !in data
    ensures NoBlankLine(DataLines(data))
    decreases |data|
  {
    hide NoBlankLine;
    var at := Find(data, Char('\n'));
    var i := if at.None? then |data| else at.value;
    var line := data[..i];
    forall j | 0 <= j < i
      ensures !IsLineBreak(line[j])
    {
      assert !At(data, Char('\n'), j) && data[j] in data;
    }
    PlainDataLine(line);
    if at.None? {
      assert line == data;
      NothingNoBlank();
      OneLineNoBlank(DATA_PREFIX + line, "");
      assert DATA_PREFIX + line + LF + "" == DataLine(line);
    } else {
      DataLinesNoBlank(data[i + 1..]);
      OneLineNoBlank(DATA_PREFIX + line, DataLines(data[i + 1..]));
    }
  }

  lemma NothingNoBlank()
    ensures NoBlankLine("")
  {
  }

  lemma PlainDataLine(line: string)
    requires forall i :: 0 <= i < |line| ==> !IsLineBreak(line[i])
    ensures forall i :: 0 <= i < |DATA_PREFIX + line| ==> !IsLineBreak((DATA_PREFIX + line)[i])
  {
  }

  lemma FrameNoBlank(event: string, data: string)
    requires CleanSend(event, data)
    ensures NoBlankLine(EventLine(event) + DataLines(data))
  {
    hide NoBlankLine, DataLines;
    DataLinesNoBlank(data);
    if event == "" {
      assert "" + DataLines(data) == DataLines(data);
    } else {
      OneLineNoBlank(EVENT_PREFIX + event, DataLines(data));
    }
  }

  lemma PrefixNoBlank(t: string, s: string)
    requires t <= s && NoBlankLine(s)
    ensures NoBlankLine(t)
  {
    assert forall c :: c in t ==> c in s;
  }

  /** A frame that lacks its last byte dispatches nothing. */
  lemma TornFrameIsDiscarded(event: string, data: string, torn: string)
    requires CleanSend(event, data) && torn < Frame(event, data)
    ensures EventsFrom(torn, EMPTY_BUFFERS) == []
  {
    hide NoBlankLine, DataLines, EventsFrom;
    FrameNoBlank(event, data);
    PrefixNoBlank(torn, EventLine(event) + DataLines(data));
    NoBlankLineNoEvent(torn, EMPTY_BUFFERS);
  }

  /** How many of the frames are complete within the first `n` bytes. */
  function WholeFrames(sends: seq<Pair>, n: nat): (k: nat)
    ensures k <= |sends|
  {
    if sends == [] || n < |Frame(sends[0].0, sends[0].1)| then 0
    else 1 + WholeFrames(sends[1..], n - |Frame(sends[0].0, sends[0].1)|)
  }

  lemma {:induction false} WholeFramesGrow(sends: seq<Pair>, m: nat, n: nat)
    requires m <= n
    ensures WholeFrames(sends, m) <= WholeFrames(sends, n)
  {
    hide Frame;
    if sends != [] && m >= |Frame(sends[0].0, sends[0].1)| {
      var f := |Frame(sends[0].0, sends[0].1)|;
      WholeFramesGrow(sends[1..], m - f, n - f);
    }
  }

  lemma {:induction false} WholeFramesBefore(sends: seq<Pair>, last: Pair, torn: string)
    requires torn < Frame(last.0, last.1)
    ensures WholeFrames(sends + [last], |Frames(sends)| + |torn|) == |sends|
  {
    hide Frame;
    if sends == [] {
      assert [] + [last] == [last];
    } else {
      assert (sends + [last])[1..] == sends[1..] + [last];
      WholeFramesBefore(sends[1..], last, torn);
    }
  }

  ghost predicate CleanSends(sends: seq<Pair>) {
    forall i :: 0 <= i < |sends| ==> CleanSend(sends[i].0, sends[i].1)
  }

  /** At every byte of the stream, exactly the events whose frames have arrived in full have been dispatched. */
  lemma {:induction false} EventsSoFar(sends: seq<Pair>, t: string)
    requires t <= Frames(sends) && CleanSends(sends)
    ensures EventsFrom(t, EMPTY_BUFFERS) == Expected(sends[..WholeFrames(sends, |t|)])
  {
    hide Frame, EventsFrom, NoBlankLine;
    if sends == [] {
      NothingNoBlank();
      NoBlankLineNoEvent(t, EMPTY_BUFFERS);
    } else {
      var (event, data) := sends[0];
      var f := Frame(event, data);
      assert Frames(sends) == f + Frames(sends[1..]);
      if |t| < |f| {
        assert t < f;
        TornFrameIsDiscarded(event, data, t);
      } else {
        var later := t[|f|..];
        assert t == f + later && later <= Frames(sends[1..]);
        EventsSoFar(sends[1..], later);
        FrameReadsBack(event, data, later);
        var k := WholeFrames(sends[1..], |later|);
        assert sends[..k + 1] == [sends[0]] + sends[1..][..k];
        assert Expected(sends[..k + 1]) == [StreamEvent(KindOf(event), data)] + Expected(sends[1..][..k]);
      }
    }
  }

  lemma {:induction false} AllFramesAreWhole(sends: seq<Pair>)
    ensures WholeFrames(sends, |Frames(sends)|) == |sends|
  {
    if sends != [] {
      hide Frame;
      AllFramesAreWhole(sends[1..]);
    }
  }

  // ---------- Nothing else reads back ----------

  ghost predicate CleanBuffers(b: Buffers) { CleanSend(b.kind, b.data) }

  /** Whatever is received, no dispatched type holds a line break and no dispatched data a CR. */
  lemma {:induction false} EventsAreClean(s: string, b: Buffers)
    requires CleanBuffers(b)
    ensures forall i :: 0 <= i < |EventsFrom(s, b)| ==> CleanSend(EventsFrom(s, b)[i].kind, EventsFrom(s, b)[i].data)
    decreases |s|
  {
    match LineEnd(s)
    case None =>
    case Some(i) =>
      if i == 0 {
        EventsAreClean(AfterBreak(s, 0), EMPTY_BUFFERS);
        DispatchedIsClean(b);
      } else {
        LineKeepsClean(s[..i], b);
        EventsAreClean(AfterBreak(s, i), WithLine(s[..i], b));
      }
  }

  lemma LineKeepsClean(line: string, b: Buffers)
    requires CleanBuffers(b) && forall i :: 0 <= i < |line| ==> !IsLineBreak(line[i])
    ensures CleanBuffers(WithLine(line, b))
  {
  }

  lemma DispatchedIsClean(b: Buffers)
    requires CleanBuffers(b)
    ensures forall i :: 0 <= i < |Dispatched(b)| ==> CleanSend(Dispatched(b)[i].kind, Dispatched(b)[i].data)
  {
    var m := "message";
    assert '\r' !in m && '\n' !in m;
  }

  lemma FramesHaveNoBom(sends: seq<Pair>, t: string)
    requires t <= Frames(sends)
    ensures !StartsWithBom(t)
  {
    if t != "" {
      var f := Frame(sends[0].0, sends[0].1);
      assert f[0] == 'e' || f[0] == 'd';
      assert t[0] == Frames(sends)[0] == f[0];
    }
  }

  /**
   The frames of any sequence of sends are received as exactly that sequence if and only if no
   event name holds a line break and no payload a CR.  Empty payloads, embedded and trailing
   newlines and leading spaces are all fine.
   */
  lemma RoundTripExactly(sends: seq<Pair>)
    ensures Events(Frames(sends)) == Expected(sends) <==>
            CleanSends(sends)
  {
    hide EventsFrom, Frames, WholeFrames;
    FramesHaveNoBom(sends, Frames(sends));
    if CleanSends(sends) {
      EventsSoFar(sends, Frames(sends));
      AllFramesAreWhole(sends);
      assert sends[..|sends|] == sends;
    } else {
      EventsAreClean(Frames(sends), EMPTY_BUFFERS);
      var i :| 0 <= i < |sends| && !CleanSend(sends[i].0, sends[i].1);
      var es := Events(Frames(sends));
      assert !CleanSend(KindOf(sends[i].0), sends[i].1);
      if i < |es| {
        assert es[i] != Expected(sends)[i];
      }
    }
  }
}
