/**
 Header fields as text.  Three printers write the entries of a header map as "key: value"
 lines (responses, client requests, event-stream preambles) and leave out different keys;
 two readers take such lines apart and trim differently.
 */
module HeaderFields {
  import opened ByteStrings
  import opened Messages

  datatype Printer = ForResponse | ForRequest | ForStream

  /** The fields a client sets itself, whatever the caller asked for. */
  predicate ClientOwns(name: string) {
    name == "host" || name == "connection" || name == "content-length"
  }

  /** The keys a printer writes; the others it supplies itself or, for a stream, there are none. */
  predicate Prints(p: Printer, key: string) {
    match p
    case ForResponse => key != "content-length" && key != "connection"
    case ForRequest => !ClientOwns(Lower(key))
    case ForStream => true
  }

  /** The printed keys of an iteration, in iteration order. */
  function Printed(p: Printer, order: seq<string>): (keys: seq<string>)
    ensures forall k :: k in keys <==> k in order && Prints(p, k)
  {
    if order == [] then []
    else
      var last := order[|order| - 1];
      Printed(p, order[..|order| - 1]) + (if Prints(p, last) then [last] else [])
  }

  lemma {:induction false} PrintedDistinct(p: Printer, order: seq<string>)
    requires Distinct(order)
    ensures Distinct(Printed(p, order))
  {
    if order != [] {
      var front := order[..|order| - 1];
      PrintedDistinct(p, front);
      assert order[|order| - 1] !in front;
      assert order[|order| - 1] !in Printed(p, front);
    }
  }

  function FieldLine(key: string, value: string): string {
    key + ": " + value
  }

  function FieldLines(keys: seq<string>, m: Fields): (ls: seq<string>)
    requires forall k :: k in keys ==> k in m
    ensures |ls| == |keys| && forall i :: 0 <= i < |ls| ==> ls[i] == FieldLine(keys[i], m[keys[i]])
  {
    seq(|keys|, i requires 0 <= i < |keys| => FieldLine(keys[i], m[keys[i]]))
  }

  /** The printed entries of `m` among `order`, each on its own line. */
  function PrintedText(p: Printer, order: seq<string>, m: Fields): string
    requires forall k :: k in order ==> k in m
  {
    Terminated(FieldLines(Printed(p, order), m))
  }

  lemma PrintNothing(p: Printer, order: seq<string>, m: Fields)
    requires order == []
    ensures PrintedText(p, order, m) == ""
  {
  }

  /** How a printing loop grows by one entry. */
  lemma PrintOneMore(p: Printer, order: seq<string>, m: Fields, i: nat)
    requires i < |order| && forall k :: k in order ==> k in m
    ensures PrintedText(p, order[..i + 1], m) ==
            PrintedText(p, order[..i], m) + (if Prints(p, order[i]) then order[i] + ": " + m[order[i]] + CRLF else "")
  {
    hide Prints;
    var before, after := Printed(p, order[..i]), Printed(p, order[..i + 1]);
    assert order[..i + 1][..i] == order[..i] && order[..i + 1][i] == order[i];
    if !Prints(p, order[i]) {
      assert after == before;
    } else {
      assert after == before + [order[i]];
      var line := FieldLine(order[i], m[order[i]]);
      assert FieldLines(after, m) == FieldLines(before, m) + [line];
      TerminatedConcat(FieldLines(before, m), [line]);
      assert [line][1..] == [] && Terminated([line]) == line + CRLF;
    }
  }

  // ---------- Clean fields ----------

  /** What keeps a field on one line and its key in front of its first colon. */
  ghost predicate CleanField(key: string, value: string) {
    Without(key, Char(':')) && Without(key, Crlf) && Without(value, Crlf)
  }

  ghost predicate CleanFields(m: Fields) {
    forall k :: k in m ==> CleanField(k, m[k])
  }

  lemma FieldLineIsClean(key: string, value: string)
    requires CleanField(key, value)
    ensures Without(FieldLine(key, value), Crlf)
    ensures Find(FieldLine(key, value), Char(':')) == Some(|key|)
    ensures FieldLine(key, value)[..|key|] == key && FieldLine(key, value)[|key| + 1..] == " " + value
  {
    var line := FieldLine(key, value);
    forall j | 0 <= j < |key|
      ensures !At(line, Char(':'), j)
    {
      assert !At(key, Char(':'), j);
    }
    FoundAt(line, Char(':'), 0, |key|);
    forall j: int | 0 <= j
      ensures !At(line, Crlf, j)
    {
      assert !At(key, Crlf, j) && (j >= |key| + 2 ==> !At(value, Crlf, j - |key| - 2));
    }
    NoOccurrence(line, Crlf, 0);
  }

  lemma PlainFieldIsClean(key: string, value: string)
    requires '\r' !in key && ':' !in key && Without(value, Crlf)
    ensures CleanField(key, value) && Without(FieldLine(key, value), Crlf)
  {
    NoReturnNoCrlf(key);
    NoSuchChar(key, ':');
    FieldLineIsClean(key, value);
  }

  /** The two fields that both printers supply themselves. */
  lemma LengthFieldIsClean(value: string)
    requires Without(value, Crlf)
    ensures CleanField("Content-Length", value) && Without(FieldLine("Content-Length", value), Crlf)
  {
    PlainFieldIsClean("Content-Length", value);
  }

  lemma CloseFieldIsClean()
    ensures CleanField("Connection", "close") && Without(FieldLine("Connection", "close"), Crlf)
  {
    NoReturnNoCrlf("close");
    PlainFieldIsClean("Connection", "close");
  }

  lemma FieldLinesAreClean(keys: seq<string>, m: Fields)
    requires forall k :: k in keys ==> k in m && CleanField(k, m[k])
    ensures CrlfFree(FieldLines(keys, m)) && forall i :: 0 <= i < |keys| ==> FieldLines(keys, m)[i] != ""
  {
    forall i | 0 <= i < |keys|
      ensures Without(FieldLines(keys, m)[i], Crlf)
    {
      assert keys[i] in keys;
      FieldLineIsClean(keys[i], m[keys[i]]);
    }
  }

  // ---------- Reading fields back ----------

  datatype Reader = AtServer | AtClient

  /** The stored key of a header name. */
  function StoredKey(r: Reader, name: string): string {
    match r
    case AtServer => Lower(name)
    case AtClient => Lower(Trim(name))
  }

  function StoredValue(r: Reader, value: string): string {
    match r
    case AtServer => DropSpaces(value)
    case AtClient => Trim(value)
  }

  /** A header line as it is stored. */
  function ReadField(r: Reader, line: string): Pair
    requires !Without(line, Char(':'))
  {
    var i := Find(line, Char(':')).value;
    (StoredKey(r, line[..i]), StoredValue(r, line[i + 1..]))
  }

  ghost predicate AllFields(ls: seq<string>) {
    forall i :: 0 <= i < |ls| ==> !Without(ls[i], Char(':'))
  }

  function ReadFields(r: Reader, ls: seq<string>): (ps: seq<Pair>)
    requires AllFields(ls)
    ensures |ps| == |ls| && forall i :: 0 <= i < |ls| ==> ps[i] == ReadField(r, ls[i])
  {
    seq(|ls|, i requires 0 <= i < |ls| => ReadField(r, ls[i]))
  }

  /** The separator's own space is trimmed by both readers. */
  lemma PrintedFieldReadsBack(r: Reader, key: string, value: string)
    requires CleanField(key, value)
    ensures !Without(FieldLine(key, value), Char(':'))
    ensures ReadField(r, FieldLine(key, value)) == (StoredKey(r, key), StoredValue(r, value))
  {
    FieldLineIsClean(key, value);
    assert (" " + value)[1..] == value;
  }

  /** A field as anyone may write it: whatever stands around the colon, this is what the two readers store. */
  lemma FieldReadsAsWritten(name: string, value: string)
    requires Without(name, Char(':'))
    ensures var line := name + ":" + value;
            && !Without(line, Char(':'))
            && ReadField(AtServer, line) == (Lower(name), DropSpaces(value))
            && ReadField(AtClient, line) == (Lower(Trim(name)), Trim(value))
  {
    CutAtChar(name, ":", ':', value);
  }

  lemma ReadConcat(r: Reader, a: seq<string>, b: seq<string>, m: Fields)
    requires AllFields(a) && AllFields(b)
    ensures AllFields(a + b)
    ensures Collapsed(ReadFields(r, a + b), m) == Collapsed(ReadFields(r, b), Collapsed(ReadFields(r, a), m))
  {
    hide ReadField;
    assert ReadFields(r, a + b) == ReadFields(r, a) + ReadFields(r, b);
    CollapsedConcat(ReadFields(r, a), ReadFields(r, b), m);
  }

  /** No two keys are stored under the same name. */
  ghost predicate DistinctWhenStored(r: Reader, m: Fields) {
    forall j, k :: j in m && k in m && j != k ==> StoredKey(r, j) != StoredKey(r, k)
  }

  /** The printed entries of `m`, as a reader takes them apart. */
  lemma PrintedFieldsReadAs(r: Reader, keys: seq<string>, m: Fields)
    requires CleanFields(m) && forall k :: k in keys ==> k in m
    ensures var ls := FieldLines(keys, m);
            && AllFields(ls)
            && forall i :: 0 <= i < |keys| ==> ReadFields(r, ls)[i] == (StoredKey(r, keys[i]), StoredValue(r, m[keys[i]]))
  {
    forall i | 0 <= i < |keys|
      ensures !Without(FieldLines(keys, m)[i], Char(':'))
      ensures ReadField(r, FieldLines(keys, m)[i]) == (StoredKey(r, keys[i]), StoredValue(r, m[keys[i]]))
    {
      assert keys[i] in keys;
      PrintedFieldReadsBack(r, keys[i], m[keys[i]]);
    }
  }

  lemma LastFieldHeld(r: Reader, keys: seq<string>, m: Fields, start: Fields, i: nat)
    requires CleanFields(m) && forall k :: k in keys ==> k in m
    requires i < |keys| && forall j :: i < j < |keys| ==> StoredKey(r, keys[j]) != StoredKey(r, keys[i])
    ensures var ls := FieldLines(keys, m);
            && AllFields(ls)
            && var held := Collapsed(ReadFields(r, ls), start);
            && StoredKey(r, keys[i]) in held && held[StoredKey(r, keys[i])] == StoredValue(r, m[keys[i]])
  {
    PrintedFieldsReadAs(r, keys, m);
    CollapsedHit(ReadFields(r, FieldLines(keys, m)), start, i);
  }

  /** Reading the printed fields stores every printed entry, whatever the iteration order. */
  lemma PrintedFieldHeld(r: Reader, p: Printer, m: Fields, order: seq<string>, start: Fields, k: string)
    requires CleanFields(m) && Listing(order, m) && DistinctWhenStored(r, m)
    requires k in m && Prints(p, k)
    ensures var ls := FieldLines(Printed(p, order), m);
            && AllFields(ls)
            && var held := Collapsed(ReadFields(r, ls), start);
            && StoredKey(r, k) in held && held[StoredKey(r, k)] == StoredValue(r, m[k])
  {
    var keys := Printed(p, order);
    PrintedDistinct(p, order);
    assert k in keys;
    var i :| 0 <= i < |keys| && keys[i] == k;
    forall j | i < j < |keys|
      ensures StoredKey(r, keys[j]) != StoredKey(r, keys[i])
    {
      assert keys[j] in keys && keys[i] != keys[j];
    }
    LastFieldHeld(r, keys, m, start, i);
  }

  /** Reading the printed fields touches no other name. */
  lemma OtherFieldsKept(r: Reader, p: Printer, m: Fields, order: seq<string>, start: Fields, n: string)
    requires CleanFields(m) && Listing(order, m)
    requires forall k :: k in m && Prints(p, k) ==> StoredKey(r, k) != n
    ensures var ls := FieldLines(Printed(p, order), m);
            && AllFields(ls)
            && var held := Collapsed(ReadFields(r, ls), start);
            && (n in held <==> n in start) && (n in start ==> held[n] == start[n])
  {
    var keys := Printed(p, order);
    PrintedFieldsReadAs(r, keys, m);
    var ps := ReadFields(r, FieldLines(keys, m));
    forall i | 0 <= i < |ps|
      ensures ps[i].0 != n
    {
      assert keys[i] in keys;
    }
    CollapsedMiss(ps, start, n);
  }
}
