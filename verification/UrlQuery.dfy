/**
 Query strings: the decoder and the key/value loop of the request parser, measured against
 section 5.1 (parsing) and inverted by section 5.2 (serializing) of the WHATWG URL Standard.
 */
module UrlQuery {
  import opened ByteStrings
  import opened Messages

  // ---------- The decoder ----------

  function HexDigitToValue(c: char): int {
    if '0' <= c <= '9' then c as int - '0' as int
    else if 'a' <= c <= 'f' then c as int - 'a' as int + 10
    else if 'A' <= c <= 'F' then c as int - 'A' as int + 10
    else -1
  }

  /** The digits in order, then either case of the six letters; nothing else is a digit. */
  lemma HexDigitsExactly(c: char)
    ensures '0' <= c <= '9' ==> HexDigitToValue(c) == c as int - 48
    ensures c in "aA" ==> HexDigitToValue(c) == 10
    ensures c in "bB" ==> HexDigitToValue(c) == 11
    ensures c in "cC" ==> HexDigitToValue(c) == 12
    ensures c in "dD" ==> HexDigitToValue(c) == 13
    ensures c in "eE" ==> HexDigitToValue(c) == 14
    ensures c in "fF" ==> HexDigitToValue(c) == 15
    ensures !('0' <= c <= '9') && c !in "abcdefABCDEF" ==> HexDigitToValue(c) == -1
  {
  }

  /** Does `s` start with `%` and two hexadecimal digits? */
  predicate IsEscape(s: string) {
    |s| > 2 && s[0] == '%' && HexDigitToValue(s[1]) >= 0 && HexDigitToValue(s[2]) >= 0
  }

  function EscapedByte(s: string): char
    requires IsEscape(s)
  {
    (16 * HexDigitToValue(s[1]) + HexDigitToValue(s[2])) as char
  }

  /** One pass: plus is a space, a complete escape is its byte, anything else is itself. */
  function Decoded(s: string): string {
    if s == "" then ""
    else if s[0] == '+' then " " + Decoded(s[1..])
    else if IsEscape(s) then [EscapedByte(s)] + Decoded(s[3..])
    else [s[0]] + Decoded(s[1..])
  }

  method Decode(encoded: string) returns (result: string)
    ensures result == Decoded(encoded)
  {
    result := "";
    var i := 0;
    while i < |encoded|
      invariant 0 <= i <= |encoded|
      invariant result + Decoded(encoded[i..]) == Decoded(encoded)
    {
      DecodeStep(result, encoded, i);
      var c := encoded[i];
      if c == '+' {
        result := result + " ";
        i := i + 1;
        continue;
      }
      if c == '%' && i + 2 < |encoded| {
        var high := HexDigitToValue(encoded[i + 1]);
        var low := HexDigitToValue(encoded[i + 2]);
        if high >= 0 && low >= 0 {
          result := result + [(16 * high + low) as char];
          i := i + 3;
          continue;
        }
      }
      result := result + [c];
      i := i + 1;
    }
  }

  lemma DecodeStep(done: string, s: string, i: nat)
    requires i < |s|
    ensures done + Decoded(s[i..]) ==
            if s[i] == '+' then done + " " + Decoded(s[i + 1..])
            else if i + 2 < |s| && s[i] == '%' && HexDigitToValue(s[i + 1]) >= 0 && HexDigitToValue(s[i + 2]) >= 0
            then done + [(16 * HexDigitToValue(s[i + 1]) + HexDigitToValue(s[i + 2])) as char] + Decoded(s[i + 3..])
            else done + [s[i]] + Decoded(s[i + 1..])
  {
    var rest := s[i..];
    assert rest[1..] == s[i + 1..];
    if IsEscape(rest) {
      assert rest[3..] == s[i + 3..];
    }
  }

  /** URL Standard, section 5.1, step 3.4: replace every plus by a space. */
  function PlusToSpace(s: string): string {
    seq(|s|, i requires 0 <= i < |s| => if s[i] == '+' then ' ' else s[i])
  }

  /** URL Standard, section 1.3: percent-decode. */
  function PercentDecoded(s: string): string {
    if s == "" then ""
    else if IsEscape(s) then [EscapedByte(s)] + PercentDecoded(s[3..])
    else [s[0]] + PercentDecoded(s[1..])
  }

  /** Replacing plus signs neither makes nor breaks an escape. */
  lemma EscapesStay(s: string)
    ensures IsEscape(PlusToSpace(s)) <==> IsEscape(s)
    ensures IsEscape(s) ==> EscapedByte(PlusToSpace(s)) == EscapedByte(s)
  {
    var t := PlusToSpace(s);
    assert forall i :: 0 <= i < |s| ==> HexDigitToValue(t[i]) == HexDigitToValue(s[i]);
  }

  lemma PlusInRest(s: string, k: nat)
    requires k <= |s|
    ensures PlusToSpace(s)[k..] == PlusToSpace(s[k..])
  {
  }

  /** The decoder's single pass equals the standard's two passes. */
  lemma {:induction false} DecodeMeetsStandard(s: string)
    ensures Decoded(s) == PercentDecoded(PlusToSpace(s))
  {
    if s != "" {
      hide HexDigitToValue, EscapedByte;
      EscapesStay(s);
      var k := if IsEscape(s) then 3 else 1;
      PlusInRest(s, k);
      DecodeMeetsStandard(s[k..]);
    }
  }

  // ---------- The pairs ----------

  /** One `&`-delimited piece: nothing, a bare key, or a key and a value. */
  function PieceToPairs(piece: string): seq<Pair> {
    match Find(piece, Char('='))
    case Some(i) => [(Decoded(piece[..i]), Decoded(piece[i + 1..]))]
    case None => if piece == "" then [] else [(Decoded(piece), "")]
  }

  /** The pairs in the order in which the loop of `parsePath` meets them. */
  function Pairs(query: string): seq<Pair> {
    if query == "" then []
    else match Find(query, Char('&'))
      case None => PieceToPairs(query)
      case Some(i) => PieceToPairs(query[..i]) + Pairs(query[i + 1..])
  }

  /** `strictly split` on a byte, as the standard's infrastructure defines it. */
  function StrictlySplit(s: string, c: char): seq<string> {
    match Find(s, Char(c))
    case None => [s]
    case Some(i) => [s[..i]] + StrictlySplit(s[i + 1..], c)
  }

  /** URL Standard, section 5.1: the tuples of a list of byte sequences, empty ones skipped. */
  function FormTuples(sequences: seq<string>): seq<Pair> {
    if sequences == [] then []
    else
      var bytes := sequences[0];
      if bytes == "" then FormTuples(sequences[1..])
      else
        var (name, value) := match Find(bytes, Char('='))
          case Some(i) => (bytes[..i], bytes[i + 1..])
          case None => (bytes, "");
        [(PercentDecoded(PlusToSpace(name)), PercentDecoded(PlusToSpace(value)))] + FormTuples(sequences[1..])
  }

  /** The code's loop computes exactly the standard's list of tuples. */
  lemma {:induction false} PairsMeetStandard(query: string)
    ensures Pairs(query) == FormTuples(StrictlySplit(query, '&'))
  {
    var at := Find(query, Char('&'));
    var piece := if at.Some? then query[..at.value] else query;
    PieceMeetsStandard(piece);
    if at.Some? {
      PairsMeetStandard(query[at.value + 1..]);
      var pieces := StrictlySplit(query, '&');
      assert pieces[1..] == StrictlySplit(query[at.value + 1..], '&');
      FormTuplesConcat([piece], pieces[1..]);
    }
  }

  lemma PieceMeetsStandard(piece: string)
    ensures PieceToPairs(piece) == FormTuples([piece])
  {
    match Find(piece, Char('='))
    case Some(i) =>
      DecodeMeetsStandard(piece[..i]);
      DecodeMeetsStandard(piece[i + 1..]);
    case None =>
      DecodeMeetsStandard(piece);
      DecodeMeetsStandard("");
  }

  lemma {:induction false} FormTuplesConcat(a: seq<string>, b: seq<string>)
    ensures FormTuples(a + b) == FormTuples(a) + FormTuples(b)
  {
    if a == [] {
      assert a + b == b;
    } else {
      assert (a + b)[1..] == a[1..] + b;
      FormTuplesConcat(a[1..], b);
    }
  }

  // ---------- The inverse ----------

  predicate IsByte(c: char) { c as int < 256 }

  ghost predicate IsBytes(s: string) { forall i :: 0 <= i < |s| ==> IsByte(s[i]) }

  predicate IsUnreserved(c: char) {
    IsDigit(c) || 'a' <= c <= 'z' || 'A' <= c <= 'Z' || c == '*' || c == '-' || c == '.' || c == '_'
  }

  function HexDigit(v: nat): char
    requires v < 16
  {
    if v < 10 then '0' + v as char else 'A' + (v - 10) as char
  }

  /** URL Standard, section 5.2: the urlencoded form of one byte, space as plus. */
  function EncodedByte(c: char): string
    requires IsByte(c)
  {
    if IsUnreserved(c) then [c]
    else if c == ' ' then "+"
    else ['%', HexDigit(c as nat / 16), HexDigit(c as nat % 16)]
  }

  function Encoded(s: string): string
    requires IsBytes(s)
  {
    if s == "" then "" else EncodedByte(s[0]) + Encoded(s[1..])
  }

  lemma DecodeOneByte(c: char, rest: string)
    requires IsByte(c)
    ensures Decoded(EncodedByte(c) + rest) == [c] + Decoded(rest)
  {
    var e := EncodedByte(c);
    var s := e + rest;
    if IsUnreserved(c) || c == ' ' {
      assert s[1..] == rest;
    } else {
      assert s[3..] == rest;
      assert HexDigitToValue(HexDigit(c as nat / 16)) == c as nat / 16;
      assert HexDigitToValue(HexDigit(c as nat % 16)) == c as nat % 16;
    }
  }

  lemma {:induction false} DecodeInvertsEncode(s: string)
    requires IsBytes(s)
    ensures Decoded(Encoded(s)) == s
  {
    if s != "" {
      DecodeInvertsEncode(s[1..]);
      DecodeOneByte(s[0], Encoded(s[1..]));
    }
  }

  /** Every character of an encoded string is harmless to the query, the target and the line. */
  predicate IsSafe(c: char) { IsUnreserved(c) || c == '+' || c == '%' }

  lemma {:induction false} EncodedIsSafe(s: string)
    requires IsBytes(s)
    ensures forall i :: 0 <= i < |Encoded(s)| ==> IsSafe(Encoded(s)[i])
  {
    if s != "" {
      EncodedIsSafe(s[1..]);
      var e := EncodedByte(s[0]);
      assert forall i :: 0 <= i < |e| ==> IsSafe(e[i]);
    }
  }

  ghost predicate PairsOfBytes(ps: seq<Pair>) {
    forall i :: 0 <= i < |ps| ==> IsBytes(ps[i].0) && IsBytes(ps[i].1)
  }

  /** URL Standard, section 5.2: the urlencoded form of a list of tuples. */
  function Rendered(ps: seq<Pair>): string
    requires PairsOfBytes(ps)
  {
    if ps == [] then ""
    else
      var one := Encoded(ps[0].0) + "=" + Encoded(ps[0].1);
      if |ps| == 1 then one else one + "&" + Rendered(ps[1..])
  }

  lemma {:induction false} RenderedIsSafe(ps: seq<Pair>)
    requires PairsOfBytes(ps)
    ensures forall c :: c in Rendered(ps) ==> IsSafe(c) || c == '=' || c == '&'
  {
    if ps != [] {
      EncodedIsSafe(ps[0].0);
      EncodedIsSafe(ps[0].1);
      RenderedIsSafe(ps[1..]);
    }
  }

  /** A rendered query contains nothing that would end its target or its line early. */
  lemma RenderedStaysInPlace(ps: seq<Pair>)
    requires PairsOfBytes(ps)
    ensures ' ' !in Rendered(ps) && '\r' !in Rendered(ps)
  {
    RenderedIsSafe(ps);
  }

  lemma PieceInvertsRender(key: string, value: string)
    requires IsBytes(key) && IsBytes(value)
    ensures PieceToPairs(Encoded(key) + "=" + Encoded(value)) == [(key, value)]
    ensures Without(Encoded(key) + "=" + Encoded(value), Char('&'))
    ensures Encoded(key) + "=" + Encoded(value) != ""
  {
    hide EncodedByte, Decoded;
    var k, v := Encoded(key), Encoded(value);
    var one := k + "=" + v;
    EncodedIsSafe(key);
    EncodedIsSafe(value);
    DecodeInvertsEncode(key);
    DecodeInvertsEncode(value);
    FoundAt(one, Char('='), 0, |k|);
    assert one[..|k|] == k && one[|k| + 1..] == v;
    NoOccurrence(one, Char('&'), 0);
  }

  lemma CutAtAmpersand(one: string, rest: string)
    requires Without(one, Char('&')) && one != ""
    ensures Pairs(one) == PieceToPairs(one)
    ensures Pairs(one + "&" + rest) == PieceToPairs(one) + Pairs(rest)
  {
    var s := one + "&" + rest;
    forall j | 0 <= j < |one|
      ensures !At(s, Char('&'), j)
    {
      assert !At(one, Char('&'), j);
    }
    FoundAt(s, Char('&'), 0, |one|);
    assert s[..|one|] == one && s[|one| + 1..] == rest;
  }

  /** Parsing what section 5.2 prints gives back the tuples, empty keys and values included. */
  lemma {:induction false} PairsInvertRender(ps: seq<Pair>)
    requires PairsOfBytes(ps)
    ensures Pairs(Rendered(ps)) == ps
  {
    if ps != [] {
      var one := Encoded(ps[0].0) + "=" + Encoded(ps[0].1);
      PieceInvertsRender(ps[0].0, ps[0].1);
      if |ps| == 1 {
        CutAtAmpersand(one, "");
      } else {
        CutAtAmpersand(one, Rendered(ps[1..]));
        PairsInvertRender(ps[1..]);
      }
    }
  }

  /** The entries of a map in a given order. */
  function Entries(order: seq<string>, m: Fields): (ps: seq<Pair>)
    requires forall k :: k in order ==> k in m
    ensures |ps| == |order| && forall i :: 0 <= i < |ps| ==> ps[i] == (order[i], m[order[i]])
  {
    seq(|order|, i requires 0 <= i < |order| => (order[i], m[order[i]]))
  }

  /** Rendering any map of byte strings, in any order, and parsing it gives the map back. */
  lemma QueryRoundTrip(m: Fields, order: seq<string>)
    requires Listing(order, m)
    requires forall k :: k in m ==> IsBytes(k) && IsBytes(m[k])
    ensures Collapsed(Pairs(Rendered(Entries(order, m))), map[]) == m
  {
    var es := Entries(order, m);
    assert PairsOfBytes(es);
    PairsInvertRender(es);
    CollapsedIsMap(es, m);
  }
}
