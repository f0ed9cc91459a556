/**
 Byte strings and the handful of library operations the wire code is built on:
 searching for a needle, cutting at CRLF, ASCII case folding, trimming, and printing
 and reading decimal numbers.  A byte is a `char`; nothing here depends on its upper
 bound except where `IsByte` is mentioned.
 */
module ByteStrings {
  datatype Option<+T> = None | Some(value: T)

  datatype Result<+T, +E> = Success(value: T) | Failure(error: E) {
    predicate IsFailure() { Failure? }
    function PropagateFailure<U>(): Result<U, E>
      requires Failure?
    {
      Failure(error)
    }
    function Extract(): T
      requires Success?
    {
      value
    }
  }

  // ---------- Searching ----------

  /** What the code searches for: one character, a CRLF, or the blank line that ends a head. */
  datatype Needle = Char(c: char) | Crlf | BlankLine

  const CRLF := "\r\n"
  const CRLF_CRLF := "\r\n\r\n"

  function Width(n: Needle): nat {
    match n
    case Char(_) => 1
    case Crlf => 2
    case BlankLine => 4
  }

  predicate CrlfAt(s: string, i: int) {
    0 <= i && i + 1 < |s| && s[i] == '\r' && s[i + 1] == '\n'
  }

  predicate At(s: string, n: Needle, i: int) {
    match n
    case Char(c) => 0 <= i < |s| && s[i] == c
    case Crlf => CrlfAt(s, i)
    case BlankLine => CrlfAt(s, i) && CrlfAt(s, i + 2)
  }

  /** `find(needle, from)`: the first occurrence at or after `from`, `None` for `npos`. */
  function Find(s: string, n: Needle, from: nat := 0): (r: Option<nat>)
    ensures r.Some? ==> from <= r.value && At(s, n, r.value) && r.value + Width(n) <= |s|
    ensures r.Some? ==> forall j :: from <= j < r.value ==> !At(s, n, j)
    ensures r.None? ==> forall j :: from <= j ==> !At(s, n, j)
    decreases |s| - from
  {
    if from >= |s| then None
    else if At(s, n, from) then Some(from)
    else Find(s, n, from + 1)
  }

  predicate Without(s: string, n: Needle) {
    Find(s, n).None?
  }

  lemma FoundAt(s: string, n: Needle, from: nat, i: nat)
    requires from <= i && At(s, n, i)
    requires forall j :: from <= j < i ==> !At(s, n, j)
    ensures Find(s, n, from) == Some(i)
  {
  }

  lemma NoOccurrence(s: string, n: Needle, from: nat)
    requires forall j :: from <= j ==> !At(s, n, j)
    ensures Find(s, n, from) == None
  {
  }

  lemma NoReturnNoCrlf(s: string)
    requires '\r' !in s
    ensures Without(s, Crlf)
  {
    NoOccurrence(s, Crlf, 0);
  }

  lemma NoSuchChar(s: string, c: char)
    requires c !in s
    ensures Without(s, Char(c))
  {
    NoOccurrence(s, Char(c), 0);
  }

  /** Appending bytes never moves an occurrence that has been found. */
  lemma FindInPrefix(s: string, t: string, n: Needle, from: nat)
    requires Find(s, n, from).Some?
    ensures Find(s + t, n, from) == Find(s, n, from)
  {
    var i := Find(s, n, from).value;
    AtInPrefix(s, t, n, i);
    forall j | from <= j < i
      ensures !At(s + t, n, j)
    {
      AtInPrefix(s, t, n, j);
    }
    FoundAt(s + t, n, from, i);
  }

  lemma AtInPrefix(s: string, t: string, n: Needle, i: nat)
    requires i + Width(n) <= |s|
    ensures At(s + t, n, i) == At(s, n, i)
  {
  }

  /** A needle found in `s + t` that ends inside `s` was already there. */
  lemma FindBackInPrefix(s: string, t: string, n: Needle)
    requires Find(s + t, n).Some? && Find(s + t, n).value + Width(n) <= |s|
    ensures Find(s, n) == Find(s + t, n)
  {
    if Find(s, n).Some? {
      FindInPrefix(s, t, n, 0);
    } else {
      AtInPrefix(s, t, n, Find(s + t, n).value);
    }
  }

  /** Searching from an offset is searching the rest of the string. */
  lemma FindInRest(s: string, rest: string, n: Needle, from: nat)
    requires from <= |s| && s[from..] == rest
    ensures Find(s, n, from) ==
            match Find(rest, n) case None => None case Some(i) => Some(from + i)
  {
    forall j: nat
      ensures At(rest, n, j) == At(s, n, from + j)
    {
    }
    match Find(rest, n)
    case Some(i) =>
      forall j | from <= j < from + i
        ensures !At(s, n, j)
      {
        assert !At(rest, n, j - from);
      }
      FoundAt(s, n, from, from + i);
    case None =>
      forall j | from <= j
        ensures !At(s, n, j)
      {
        assert !At(rest, n, j - from);
      }
  }

  /** Cutting at the first `c`: the text before it and the text behind it. */
  lemma CutAtChar(a: string, sep: string, c: char, rest: string)
    requires sep == [c] && Without(a, Char(c))
    ensures Find(a + sep + rest, Char(c)) == Some(|a|)
    ensures (a + sep + rest)[..|a|] == a && (a + sep + rest)[|a| + 1..] == rest
  {
    var s := a + sep + rest;
    forall j | 0 <= j < |a|
      ensures !At(s, Char(c), j)
    {
      assert !At(a, Char(c), j);
    }
    FoundAt(s, Char(c), 0, |a|);
  }

  /** Two CRLF-free strings around a character that is part of no CRLF. */
  lemma CleanAround(a: string, sep: string, b: string)
    requires Without(a, Crlf) && Without(b, Crlf) && |sep| == 1 && sep[0] != '\r' && sep[0] != '\n'
    ensures Without(a + sep + b, Crlf)
  {
    var s := a + sep + b;
    forall j: int | 0 <= j
      ensures !At(s, Crlf, j)
    {
      assert !At(a, Crlf, j) && !At(b, Crlf, j - |a| - 1);
    }
    NoOccurrence(s, Crlf, 0);
  }

  lemma ThreeFieldsAreClean(a: string, b: string, c: string)
    requires Without(a, Crlf) && Without(b, Crlf) && Without(c, Crlf)
    ensures Without(a + " " + b + " " + c, Crlf)
  {
    CleanAround(a, " ", b);
    CleanAround(a + " " + b, " ", c);
  }

  // ---------- Lines ----------

  /** The pieces of `s` between consecutive CRLFs; always at least one. */
  function Lines(s: string): (r: seq<string>)
    ensures |r| >= 1
  {
    match Find(s, Crlf)
    case None => [s]
    case Some(i) => [s[..i]] + Lines(s[i + 2..])
  }

  /** The inverse: the lines with CRLF between them. */
  function Unlines(ls: seq<string>): string
    requires |ls| >= 1
  {
    if |ls| == 1 then ls[0] else ls[0] + CRLF + Unlines(ls[1..])
  }

  /** Each line followed by its own CRLF. */
  function Terminated(ls: seq<string>): string {
    if ls == [] then "" else ls[0] + CRLF + Terminated(ls[1..])
  }

  ghost predicate CrlfFree(ls: seq<string>) {
    forall i :: 0 <= i < |ls| ==> Without(ls[i], Crlf)
  }

  /** A line without CRLF, then CRLF: the search stops exactly at the line's end. */
  lemma CrlfAfterLine(line: string, rest: string)
    requires Without(line, Crlf)
    ensures Find(line + CRLF + rest, Crlf) == Some(|line|)
    ensures (line + CRLF + rest)[..|line|] == line
    ensures (line + CRLF + rest)[|line| + 2..] == rest
  {
    var s := line + CRLF + rest;
    assert At(s, Crlf, |line|);
    forall j | 0 <= j < |line|
      ensures !At(s, Crlf, j)
    {
      assert !At(line, Crlf, j);
    }
    FoundAt(s, Crlf, 0, |line|);
  }

  lemma {:induction false} LinesOfUnlines(ls: seq<string>)
    requires |ls| >= 1 && CrlfFree(ls)
    ensures Lines(Unlines(ls)) == ls
  {
    if |ls| > 1 {
      CrlfAfterLine(ls[0], Unlines(ls[1..]));
      LinesOfUnlines(ls[1..]);
    }
  }

  lemma {:induction false} UnlinesOfLines(s: string)
    ensures Unlines(Lines(s)) == s
    ensures CrlfFree(Lines(s))
  {
    var at := Find(s, Crlf);
    if at.Some? {
      var i := at.value;
      UnlinesOfLines(s[i + 2..]);
      forall j: int | 0 <= j
        ensures !At(s[..i], Crlf, j)
      {
        assert At(s[..i], Crlf, j) ==> At(s, Crlf, j);
      }
      assert s == s[..i] + CRLF + s[i + 2..];
      var ls := Lines(s);
      assert ls[1..] == Lines(s[i + 2..]);
    }
  }

  /** Printing lines with terminators is printing them with separators, plus one CRLF. */
  lemma {:induction false} TerminatedIsUnlines(ls: seq<string>)
    requires |ls| >= 1
    ensures Terminated(ls) == Unlines(ls) + CRLF
  {
    if |ls| > 1 {
      TerminatedIsUnlines(ls[1..]);
    } else {
      assert ls[1..] == [];
    }
  }

  lemma {:induction false} TerminatedConcat(a: seq<string>, b: seq<string>)
    ensures Terminated(a + b) == Terminated(a) + Terminated(b)
  {
    if a == [] {
      assert a + b == b;
    } else {
      assert (a + b)[1..] == a[1..] + b;
      TerminatedConcat(a[1..], b);
    }
  }

  lemma FourLinesThen(a: string, b: string, c: string, d: string, more: seq<string>)
    ensures Unlines([a, b, c, d] + more) + CRLF_CRLF ==
            a + CRLF + b + CRLF + c + CRLF + d + CRLF + Terminated(more) + CRLF
  {
    var ls := [a, b, c, d] + more;
    TerminatedIsUnlines(ls);
    assert Unlines(ls) + CRLF_CRLF == Terminated(ls) + CRLF;
    assert ls[1..] == [b, c, d] + more;
    assert ls[1..][1..] == [c, d] + more;
    assert ls[1..][1..][1..] == [d] + more;
    assert ls[1..][1..][1..][1..] == more;
    assert Terminated([d] + more) == d + CRLF + Terminated(more);
    assert Terminated([c, d] + more) == c + CRLF + Terminated([d] + more);
    assert Terminated([b, c, d] + more) == b + CRLF + Terminated([c, d] + more);
  }

  // ---------- Heads ----------

  /** Lines that can stand in a head: no CRLF inside, and only the first may be empty. */
  ghost predicate HeadLines(ls: seq<string>) {
    |ls| >= 1 && CrlfFree(ls) && forall i :: 1 <= i < |ls| ==> ls[i] != ""
  }

  /** The first blank line after a printed head is the one that was printed, whatever follows. */
  lemma {:induction false} BlankLineAfterHead(ls: seq<string>, rest: string)
    requires HeadLines(ls)
    ensures Find(Unlines(ls) + CRLF_CRLF + rest, BlankLine) == Some(|Unlines(ls)|)
  {
    hide Find;
    var head := Unlines(ls);
    var s := head + CRLF_CRLF + rest;
    if |ls| == 1 {
      CrlfAfterLine(head, CRLF + rest);
      assert s == head + CRLF + (CRLF + rest);
      forall j | 0 <= j < |head|
        ensures !At(s, BlankLine, j)
      {
        assert !At(s, Crlf, j);
      }
    } else {
      var tail := Unlines(ls[1..]);
      var s' := tail + CRLF_CRLF + rest;
      BlankLineAfterHead(ls[1..], rest);
      CrlfAfterLine(ls[0], s');
      assert s == ls[0] + CRLF + s';
      var k := |ls[0]| + 2;
      assert s[k..] == s';
      assert !CrlfAt(s', 0) by {
        NonEmptyLineFirst(ls[1..], rest);
      }
      forall j | 0 <= j < |head|
        ensures !At(s, BlankLine, j)
      {
        if j < |ls[0]| {
          assert !At(s, Crlf, j);
        } else if j == |ls[0]| {
          assert CrlfAt(s, j + 2) ==> CrlfAt(s', 0);
        } else if j > k - 1 {
          assert !At(s', BlankLine, j - k);
        }
      }
    }
    assert At(s, BlankLine, |head|);
    FoundAt(s, BlankLine, 0, |head|);
  }

  lemma NonEmptyLineFirst(ls: seq<string>, rest: string)
    requires |ls| >= 1 && CrlfFree(ls) && ls[0] != ""
    ensures !CrlfAt(Unlines(ls) + CRLF_CRLF + rest, 0)
  {
    assert !At(ls[0], Crlf, 0);
    var s := Unlines(ls) + CRLF_CRLF + rest;
    assert s[0] == ls[0][0];
    if |ls[0]| > 1 {
      assert s[1] == ls[0][1];
    } else {
      assert s[1] == '\r';
    }
  }

  /** Cutting at the first blank line leaves a head that is made of head lines. */
  lemma {:induction false} HeadBeforeBlankLine(s: string)
    requires Find(s, BlankLine).Some?
    ensures HeadLines(Lines(s[..Find(s, BlankLine).value]))
  {
    var h := Find(s, BlankLine).value;
    var head := s[..h];
    UnlinesOfLines(head);
    forall i | 0 <= i < h
      ensures !(CrlfAt(head, i) && (CrlfAt(head, i + 2) || i + 2 == h))
    {
      assert !At(s, BlankLine, i);
    }
    NoEmptyLines(head);
  }

  lemma {:induction false} NoEmptyLines(head: string)
    requires forall i :: 0 <= i < |head| ==> !(CrlfAt(head, i) && (CrlfAt(head, i + 2) || i + 2 == |head|))
    ensures forall i :: 1 <= i < |Lines(head)| ==> Lines(head)[i] != ""
  {
    var at := Find(head, Crlf);
    if at.Some? {
      var k := at.value + 2;
      var rest := head[k..];
      forall i | 0 <= i < |rest|
        ensures !(CrlfAt(rest, i) && (CrlfAt(rest, i + 2) || i + 2 == |rest|))
      {
        assert !(CrlfAt(head, k + i) && (CrlfAt(head, k + i + 2) || k + i + 2 == |head|));
      }
      NoEmptyLines(rest);
      assert Lines(head)[1..] == Lines(rest);
      assert Lines(rest)[0] != "" by {
        assert !(CrlfAt(head, k - 2) && (CrlfAt(head, k) || k == |head|));
        assert rest != "";
        if Find(rest, Crlf) == Some(0) {
          assert CrlfAt(head, k);
        }
      }
    }
  }

  // ---------- Case folding and trimming ----------

  /** `std::tolower` in the "C" locale. */
  function LowerChar(c: char): char {
    if 'A' <= c <= 'Z' then c - 'A' + 'a' else c
  }

  function Lower(s: string): (r: string)
    ensures |r| == |s|
    ensures forall i :: 0 <= i < |s| ==> r[i] == LowerChar(s[i])
  {
    seq(|s|, i requires 0 <= i < |s| => LowerChar(s[i]))
  }

  lemma LowerIdempotent(s: string)
    ensures Lower(Lower(s)) == Lower(s)
  {
  }

  /** The 26 capitals move up by 32, and nothing else changes. */
  lemma LowerExactly(c: char)
    ensures 'A' <= c <= 'Z' ==> LowerChar(c) as int == c as int + 32
    ensures !('A' <= c <= 'Z') ==> LowerChar(c) == c
  {
  }

  predicate IsSpace(c: char) { c == ' ' || c == '\t' }

  /** Without its leading spaces; tabs stay. */
  function DropSpaces(s: string): string {
    if s != "" && s[0] == ' ' then DropSpaces(s[1..]) else s
  }

  function TrimLeft(s: string): string {
    if s != "" && IsSpace(s[0]) then TrimLeft(s[1..]) else s
  }

  function TrimRight(s: string): string {
    if s != "" && (IsSpace(s[|s| - 1]) || s[|s| - 1] == '\r') then TrimRight(s[..|s| - 1]) else s
  }

  /** The client's `trim`. */
  function Trim(s: string): string {
    TrimRight(TrimLeft(s))
  }

  /** `k` leading spaces are dropped, and all of them. */
  lemma {:induction false} DropSpacesExactly(s: string) returns (k: nat)
    ensures k <= |s| && DropSpaces(s) == s[k..]
    ensures (forall i :: 0 <= i < k ==> s[i] == ' ') && (k < |s| ==> s[k] != ' ')
  {
    k := 0;
    if s != "" && s[0] == ' ' {
      var later := DropSpacesExactly(s[1..]);
      k := later + 1;
      assert forall i :: 1 <= i < |s| ==> s[i] == s[1..][i - 1];
    }
  }

  lemma {:induction false} TrimLeftExactly(s: string) returns (k: nat)
    ensures k <= |s| && TrimLeft(s) == s[k..]
    ensures (forall i :: 0 <= i < k ==> s[i] in " \t") && (k < |s| ==> s[k] !in " \t")
  {
    k := 0;
    if s != "" && IsSpace(s[0]) {
      var later := TrimLeftExactly(s[1..]);
      k := later + 1;
      assert forall i :: 1 <= i < |s| ==> s[i] == s[1..][i - 1];
    }
  }

  lemma {:induction false} TrimRightExactly(s: string) returns (k: nat)
    ensures k <= |s| && TrimRight(s) == s[..k]
    ensures (forall i :: k <= i < |s| ==> s[i] in " \t\r") && (k > 0 ==> s[k - 1] !in " \t\r")
  {
    k := |s|;
    if s != "" && (IsSpace(s[|s| - 1]) || s[|s| - 1] == '\r') {
      k := TrimRightExactly(s[..|s| - 1]);
    }
  }

  /** Spaces and tabs go at both ends, carriage returns only at the right one; what is inside stays. */
  lemma TrimExactly(s: string) returns (i: nat, j: nat)
    ensures i <= j <= |s| && Trim(s) == s[i..j]
    ensures forall k :: 0 <= k < i ==> s[k] in " \t"
    ensures forall k :: j <= k < |s| ==> s[k] in " \t\r"
    ensures i < j ==> s[i] !in " \t" && s[j - 1] !in " \t\r"
  {
    i := TrimLeftExactly(s);
    var n := TrimRightExactly(s[i..]);
    j := i + n;
    assert forall k :: j <= k < |s| ==> s[k] == s[i..][k - i];
    assert s[i..][..n] == s[i..j];
  }

  // ---------- Decimal numbers ----------

  const SIZE_LIMIT: nat := 0x1_0000_0000_0000_0000

  predicate IsDigit(c: char) { '0' <= c <= '9' }

  predicate AllDigits(s: string) { forall i :: 0 <= i < |s| ==> IsDigit(s[i]) }

  /** `std::to_string` of an unsigned number. */
  function Decimal(n: nat): (r: string)
    ensures r != "" && AllDigits(r)
  {
    if n < 10 then ['0' + n as char] else Decimal(n / 10) + ['0' + (n % 10) as char]
  }

  function DecimalValue(s: string): nat
    requires AllDigits(s)
  {
    if s == "" then 0
    else 10 * DecimalValue(s[..|s| - 1]) + (s[|s| - 1] as nat - '0' as nat)
  }

  /** `std::from_chars` into a `size_t`, required to consume everything. */
  function FromChars(s: string): Option<nat> {
    if s != "" && AllDigits(s) && DecimalValue(s) < SIZE_LIMIT then Some(DecimalValue(s)) else None
  }

  lemma {:induction false} DecimalValueOfDecimal(n: nat)
    ensures DecimalValue(Decimal(n)) == n
  {
    var s := Decimal(n);
    if n < 10 {
      assert s[..0] == "";
    } else {
      DecimalValueOfDecimal(n / 10);
      assert s[..|s| - 1] == Decimal(n / 10);
    }
  }

  lemma FromCharsOfDecimal(n: nat)
    requires n < SIZE_LIMIT
    ensures FromChars(Decimal(n)) == Some(n)
  {
    DecimalValueOfDecimal(n);
  }

  function Zeros(z: nat): string {
    seq(z, _ => '0')
  }

  /** A numeral: the printed form of `n`, behind any number of zeros. */
  ghost predicate IsNumeral(s: string, n: nat) {
    exists z: nat {:trigger Zeros(z)} :: s == Zeros(z) + Decimal(n)
  }

  lemma {:induction false} ZerosInFront(z: nat, t: string)
    requires AllDigits(t)
    ensures AllDigits(Zeros(z) + t) && DecimalValue(Zeros(z) + t) == DecimalValue(t)
    decreases z + |t|
  {
    var s := Zeros(z) + t;
    if t != "" {
      assert s[..|s| - 1] == Zeros(z) + t[..|t| - 1];
      ZerosInFront(z, t[..|t| - 1]);
    } else if z > 0 {
      assert s[..|s| - 1] == Zeros(z - 1) + t;
      ZerosInFront(z - 1, t);
    }
  }

  lemma ZeroIsPrinted()
    ensures Decimal(0) == ['0']
  {
  }

  lemma OneMoreDigit(v: nat, c: char)
    requires IsDigit(c)
    ensures Decimal(10 * v + (c as int - '0' as int)) == if v == 0 then [c] else Decimal(v) + [c]
  {
  }

  lemma {:induction false} DigitsAreNumeral(s: string) returns (z: nat)
    requires s != "" && AllDigits(s)
    ensures s == Zeros(z) + Decimal(DecimalValue(s))
  {
    hide IsDigit;
    var front, last := s[..|s| - 1], s[|s| - 1];
    assert s == front + [last] && IsDigit(last);
    var v := DecimalValue(front);
    OneMoreDigit(v, last);
    z := 0;
    if front != "" {
      hide Decimal, DecimalValue;
      z := DigitsAreNumeral(front);
      if v == 0 {
        ZeroIsPrinted();
        assert s == Zeros(z + 1) + [last];
        z := z + 1;
      }
    }
  }

  /** Exactly the numerals of numbers below 2^64 are read, as what they stand for. */
  lemma FromCharsExactly(s: string, n: nat)
    ensures FromChars(s) == Some(n) <==> n < 0x1_0000_0000_0000_0000 && IsNumeral(s, n)
  {
    hide Decimal, DecimalValue;
    if FromChars(s) == Some(n) {
      var z := DigitsAreNumeral(s);
    }
    if IsNumeral(s, n) {
      var z: nat :| s == Zeros(z) + Decimal(n);
      ZerosInFront(z, Decimal(n));
      DecimalValueOfDecimal(n);
    }
  }

  lemma PrintedNumberIsClean(n: nat)
    ensures Without(Decimal(n), Crlf)
    ensures Trim(Decimal(n)) == Decimal(n) && DropSpaces(Decimal(n)) == Decimal(n)
  {
    DigitsAreClean(Decimal(n));
  }

  lemma DigitsAreClean(s: string)
    requires s != "" && AllDigits(s)
    ensures Without(s, Crlf) && Trim(s) == s && DropSpaces(s) == s
  {
    assert IsDigit(s[0]) && IsDigit(s[|s| - 1]);
    NoOccurrence(s, Crlf, 0);
  }
}
