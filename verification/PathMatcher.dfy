/**
 Route patterns.  The matcher walks two strings in step, cutting a segment off each; here it
 is shown to compare the two slash-separated lists, and its bindings to be exactly what turns
 the pattern back into the path.
 */
module PathMatcher {
  import opened ByteStrings
  import opened Messages
  import opened UrlQuery

  // ---------- Segments ----------

  /** Where the first segment ends: at the next slash that is not its own first character. */
  function SegmentEnd(s: string): (e: nat)
    requires s != ""
    ensures 1 <= e <= |s|
  {
    match Find(s, Char('/'), 1) case None => |s| case Some(i) => i
  }

  /** The segments of a path, each with the character in front of it. */
  function Segments(s: string): seq<string> {
    if s == "" then [] else [s[..SegmentEnd(s)]] + Segments(s[SegmentEnd(s)..])
  }

  function Joined(segments: seq<string>): string {
    if segments == [] then "" else segments[0] + Joined(segments[1..])
  }

  /** Lists that are the segments of some string. */
  ghost predicate AreSegments(segments: seq<string>) {
    && (forall i :: 0 <= i < |segments| ==> segments[i] != "" && forall k :: 1 <= k < |segments[i]| ==> segments[i][k] != '/')
    && (forall i :: 1 <= i < |segments| ==> segments[i][0] == '/')
  }

  lemma FirstSegment(s: string)
    requires s != ""
    ensures forall k :: 1 <= k < SegmentEnd(s) ==> s[k] != '/'
    ensures SegmentEnd(s) < |s| ==> s[SegmentEnd(s)] == '/'
  {
    forall k | 1 <= k < SegmentEnd(s)
      ensures s[k] != '/'
    {
      assert !At(s, Char('/'), k);
    }
  }

  lemma {:induction false} SegmentsAreSegments(s: string)
    ensures AreSegments(Segments(s)) && Joined(Segments(s)) == s
    ensures s != "" ==> Segments(s) != [] && Segments(s)[0][0] == s[0]
  {
    hide SegmentEnd, Find;
    if s != "" {
      var e := SegmentEnd(s);
      var rest := s[e..];
      FirstSegment(s);
      SegmentsAreSegments(rest);
      var segs := Segments(s);
      assert segs[1..] == Segments(rest);
      forall i | 1 <= i < |segs|
        ensures segs[i] != "" && segs[i][0] == '/' && forall k :: 1 <= k < |segs[i]| ==> segs[i][k] != '/'
      {
        assert segs[i] == Segments(rest)[i - 1];
      }
      assert s == s[..e] + rest;
    }
  }

  lemma {:induction false} SegmentsOfJoined(segments: seq<string>)
    requires AreSegments(segments)
    ensures Segments(Joined(segments)) == segments
  {
    if segments != [] {
      var first, rest := segments[0], Joined(segments[1..]);
      var s := first + rest;
      assert AreSegments(segments[1..]) by {
        assert forall i :: 0 <= i < |segments| - 1 ==> segments[1..][i] == segments[i + 1];
      }
      SegmentsOfJoined(segments[1..]);
      forall k | 1 <= k < |first|
        ensures !At(s, Char('/'), k)
      {
        assert s[k] == first[k];
      }
      if |segments| == 1 {
        NoOccurrence(s, Char('/'), 1);
      } else {
        assert rest[0] == segments[1..][0][0];
        FoundAt(s, Char('/'), 1, |first|);
      }
      assert s[..|first|] == first && s[|first|..] == rest;
    }
  }

  /** For a path that starts with a slash, the segments are the pieces of splitting it at slashes. */
  lemma {:induction false} SegmentsAreSplit(s: string)
    requires s != "" && s[0] == '/'
    ensures var pieces := StrictlySplit(s[1..], '/');
            |pieces| == |Segments(s)| && forall i :: 0 <= i < |pieces| ==> Segments(s)[i] == "/" + pieces[i]
    decreases |s|
  {
    hide SegmentEnd;
    var t := s[1..];
    var pieces := StrictlySplit(t, '/');
    EndIsNextSlash(s, t);
    match Find(t, Char('/'))
    case None =>
      assert s[..|s|] == s && s[|s|..] == "" && s == "/" + t;
      assert Segments(s) == [s] + Segments("");
    case Some(i) =>
      var rest := s[i + 1..];
      SegmentsAreSplit(rest);
      assert rest[1..] == t[i + 1..];
      assert pieces[1..] == StrictlySplit(rest[1..], '/');
      assert Segments(s) == [s[..i + 1]] + Segments(rest);
      assert s[..i + 1] == "/" + t[..i];
      forall k | 0 <= k < |pieces|
        ensures Segments(s)[k] == "/" + pieces[k]
      {
        if k > 0 {
          assert pieces[k] == pieces[1..][k - 1] && Segments(s)[k] == Segments(rest)[k - 1];
        }
      }
  }

  lemma EndIsNextSlash(s: string, t: string)
    requires s != "" && s[1..] == t
    ensures SegmentEnd(s) == match Find(t, Char('/')) case None => |s| case Some(i) => i + 1
    ensures Find(t, Char('/')).Some? ==> s[SegmentEnd(s)] == '/'
  {
    FindInRest(s, t, Char('/'), 1);
  }

  // ---------- Matching ----------

  predicate IsParam(segment: string) {
    |segment| > 1 && segment[1] == ':'
  }

  predicate Agrees(patternSegment: string, pathSegment: string) {
    IsParam(patternSegment) || patternSegment == pathSegment
  }

  /** Equally many segments, agreeing one by one. */
  predicate AllAgree(pattern: seq<string>, path: seq<string>) {
    |pattern| == |path| && forall i :: 0 <= i < |pattern| ==> Agrees(pattern[i], path[i])
  }

  predicate Matches(pattern: string, path: string) {
    AllAgree(Segments(pattern), Segments(path))
  }

  /** The bindings in the order in which they are made, up to the first disagreement. */
  function BoundPairs(pattern: seq<string>, path: seq<string>): seq<Pair>
    requires forall i :: 0 <= i < |path| ==> path[i] != ""
  {
    if pattern == [] || path == [] || !Agrees(pattern[0], path[0]) then []
    else
      (if IsParam(pattern[0]) then [(pattern[0][2..], path[0][1..])] else [])
      + BoundPairs(pattern[1..], path[1..])
  }

  /** What a match stores; nothing is rolled back when it fails half-way. */
  function Bindings(pattern: string, path: string, params: Fields): Fields {
    SegmentsAreSegments(path);
    Collapsed(BoundPairs(Segments(pattern), Segments(path)), params)
  }

  method Match(pattern0: string, path0: string, params0: Fields) returns (matched: bool, params: Fields)
    ensures matched <==> Matches(pattern0, path0)
    ensures params == Bindings(pattern0, path0, params0)
  {
    var pattern, path := pattern0, path0;
    params := params0;
    while pattern != "" && path != ""
      invariant Matches(pattern0, path0) <==> Matches(pattern, path)
      invariant Bindings(pattern0, path0, params0) == Bindings(pattern, path, params)
      decreases |path|
    {
      MatchStep(pattern, path, params);
      var patternSlash := Find(pattern, Char('/'), 1);
      var pathSlash := Find(path, Char('/'), 1);
      var patternSegment := pattern[..if patternSlash.None? then |pattern| else patternSlash.value];
      var pathSegment := path[..if pathSlash.None? then |path| else pathSlash.value];

      if |patternSegment| > 1 && patternSegment[1] == ':' {
        var paramName := patternSegment[2..];
        var paramValue := pathSegment[1..];
        params := params[paramName := paramValue];
      } else if patternSegment != pathSegment {
        return false, params;
      }
      pattern := if patternSlash.None? then pattern[|pattern|..] else pattern[patternSlash.value..];
      path := if pathSlash.None? then path[|path|..] else path[pathSlash.value..];
    }
    return pattern == "" && path == "", params;
  }

  /** One turn of the loop: compare the first segments, keep what they bind, go on with the rest. */
  lemma MatchStep(pattern: string, path: string, params: Fields)
    requires pattern != "" && path != ""
    ensures var p, s := pattern[..SegmentEnd(pattern)], path[..SegmentEnd(path)];
            var laterPattern, laterPath := pattern[SegmentEnd(pattern)..], path[SegmentEnd(path)..];
            if !Agrees(p, s) then !Matches(pattern, path) && Bindings(pattern, path, params) == params
            else
              && (Matches(pattern, path) <==> Matches(laterPattern, laterPath))
              && Bindings(pattern, path, params) ==
                 Bindings(laterPattern, laterPath, if IsParam(p) then params[p[2..] := s[1..]] else params)
  {
    hide SegmentEnd;
    var ps, ss := Segments(pattern), Segments(path);
    var laterPattern, laterPath := pattern[SegmentEnd(pattern)..], path[SegmentEnd(path)..];
    assert ps[1..] == Segments(laterPattern) && ss[1..] == Segments(laterPath);
    AllAgreeStep(ps, ss);
    SegmentsAreSegments(path);
    SegmentsAreSegments(laterPath);
    if Agrees(ps[0], ss[0]) && IsParam(ps[0]) {
      var pair := (ps[0][2..], ss[0][1..]);
      assert ([pair] + BoundPairs(ps[1..], ss[1..]))[1..] == BoundPairs(ps[1..], ss[1..]);
    } else if Agrees(ps[0], ss[0]) {
      assert [] + BoundPairs(ps[1..], ss[1..]) == BoundPairs(ps[1..], ss[1..]);
    }
  }

  lemma AllAgreeStep(ps: seq<string>, ss: seq<string>)
    requires ps != [] && ss != []
    ensures AllAgree(ps, ss) <==> Agrees(ps[0], ss[0]) && AllAgree(ps[1..], ss[1..])
  {
    if AllAgree(ps[1..], ss[1..]) && Agrees(ps[0], ss[0]) {
      forall i | 0 <= i < |ps|
        ensures Agrees(ps[i], ss[i])
      {
        if i > 0 {
          assert Agrees(ps[1..][i - 1], ss[1..][i - 1]);
        }
      }
    }
  }

  // ---------- In terms of the pieces between slashes ----------

  /** A piece of a pattern that starts with a colon names a parameter and agrees with anything. */
  predicate PieceAgrees(patternPiece: string, pathPiece: string) {
    (patternPiece != "" && patternPiece[0] == ':') || patternPiece == pathPiece
  }

  /** Of a pattern and a path that start with a slash: as many pieces, agreeing one by one. */
  lemma MatchesByPieces(pattern: string, path: string)
    requires pattern != "" && pattern[0] == '/' && path != "" && path[0] == '/'
    ensures var ps, ss := StrictlySplit(pattern[1..], '/'), StrictlySplit(path[1..], '/');
            Matches(pattern, path) <==>
            |ps| == |ss| && forall i :: 0 <= i < |ps| ==> PieceAgrees(ps[i], ss[i])
  {
    hide Segments, StrictlySplit;
    SegmentsAreSplit(pattern);
    SegmentsAreSplit(path);
    var ps, ss := StrictlySplit(pattern[1..], '/'), StrictlySplit(path[1..], '/');
    assert |ps| == |Segments(pattern)| && |ss| == |Segments(path)|;
    if |ps| == |ss| {
      forall i | 0 <= i < |ps|
        ensures Agrees(Segments(pattern)[i], Segments(path)[i]) <==> PieceAgrees(ps[i], ss[i])
      {
        SlashInFront(ps[i], ss[i]);
      }
    }
  }

  lemma SlashInFront(p: string, s: string)
    ensures Agrees("/" + p, "/" + s) <==> PieceAgrees(p, s)
    ensures IsParam("/" + p) <==> p != "" && p[0] == ':'
    ensures ("/" + s)[1..] == s && (p != "" ==> ("/" + p)[2..] == p[1..])
  {
    assert ("/" + p)[1..] == p && ("/" + s)[1..] == s;
  }

  /** What a match stores: under the name behind each colon the piece of the path in its place, and nothing else. */
  lemma BindingsByPieces(pattern: string, path: string)
    requires pattern != "" && pattern[0] == '/' && path != "" && path[0] == '/'
    requires Matches(pattern, path) && DistinctParams(Segments(pattern))
    ensures var ps, ss := StrictlySplit(pattern[1..], '/'), StrictlySplit(path[1..], '/');
            var bound := Bindings(pattern, path, map[]);
            && |ps| == |ss|
            && (forall i :: 0 <= i < |ps| && ps[i] != "" && ps[i][0] == ':' ==>
                  ps[i][1..] in bound && bound[ps[i][1..]] == ss[i])
            && (forall k :: k in bound ==> exists i :: 0 <= i < |ps| && ps[i] == ":" + k)
  {
    hide Segments, StrictlySplit, BoundPairs;
    var segs, parts := Segments(pattern), Segments(path);
    var ps, ss := StrictlySplit(pattern[1..], '/'), StrictlySplit(path[1..], '/');
    SegmentsAreSplit(pattern);
    SegmentsAreSplit(path);
    SegmentsAreSegments(path);
    forall i | 0 <= i < |ps| && ps[i] != "" && ps[i][0] == ':'
      ensures var bound := Bindings(pattern, path, map[]); ps[i][1..] in bound && bound[ps[i][1..]] == ss[i]
    {
      SlashInFront(ps[i], ss[i]);
      assert IsParam(segs[i]);
      BoundValue(segs, parts, map[], i);
    }
    forall k | k in Bindings(pattern, path, map[])
      ensures exists i :: 0 <= i < |ps| && ps[i] == ":" + k
    {
      var i := BoundName(segs, parts, k);
      SlashInFront(ps[i], ss[i]);
      assert ps[i] == [ps[i][0]] + ps[i][1..];
    }
  }

  lemma BoundName(pattern: seq<string>, path: seq<string>, name: string) returns (i: nat)
    requires AllAgree(pattern, path) && forall j :: 0 <= j < |path| ==> path[j] != ""
    requires name in Collapsed(BoundPairs(pattern, path), map[])
    ensures i < |pattern| && IsParam(pattern[i]) && pattern[i][2..] == name
  {
    hide BoundPairs, Agrees;
    var pairs := BoundPairs(pattern, path);
    if forall k :: 0 <= k < |pairs| ==> pairs[k].0 != name {
      CollapsedMiss(pairs, map[], name);
    }
    var k: nat :| k < |pairs| && pairs[k].0 == name;
    BoundKeys(pattern, path, k);
    i :| 0 <= i < |pattern| && IsParam(pattern[i]) && pairs[k] == (pattern[i][2..], path[i][1..]);
  }

  // ---------- Substituting back ----------

  ghost predicate DistinctParams(pattern: seq<string>) {
    forall i, j :: 0 <= i < j < |pattern| && IsParam(pattern[i]) && IsParam(pattern[j]) ==> pattern[i][2..] != pattern[j][2..]
  }

  /** A pattern segment with its parameter replaced by its value. */
  function Filled(segment: string, values: Fields): string {
    if IsParam(segment) && segment[2..] in values then [segment[0]] + values[segment[2..]] else segment
  }

  function FilledAll(pattern: seq<string>, values: Fields): (r: seq<string>)
    ensures |r| == |pattern| && forall i :: 0 <= i < |r| ==> r[i] == Filled(pattern[i], values)
  {
    seq(|pattern|, i requires 0 <= i < |pattern| => Filled(pattern[i], values))
  }

  function Render(pattern: string, values: Fields): string {
    Joined(FilledAll(Segments(pattern), values))
  }

  lemma {:induction false} BoundKeys(pattern: seq<string>, path: seq<string>, k: nat)
    requires AllAgree(pattern, path) && forall i :: 0 <= i < |path| ==> path[i] != ""
    requires k < |BoundPairs(pattern, path)|
    ensures exists i :: 0 <= i < |pattern| && IsParam(pattern[i]) && BoundPairs(pattern, path)[k] == (pattern[i][2..], path[i][1..])
  {
    AllAgreeStep(pattern, path);
    var here := if IsParam(pattern[0]) then 1 else 0;
    if k < here {
      assert IsParam(pattern[0]);
    } else {
      BoundKeys(pattern[1..], path[1..], k - here);
      var i :| 0 <= i < |pattern[1..]| && IsParam(pattern[1..][i])
               && BoundPairs(pattern[1..], path[1..])[k - here] == (pattern[1..][i][2..], path[1..][i][1..]);
      assert pattern[1..][i] == pattern[i + 1] && path[1..][i] == path[i + 1];
    }
  }

  /** If every parameter of a name meets the same value, that value is what the name is bound to. */
  lemma {:induction false} BoundValue(pattern: seq<string>, path: seq<string>, params: Fields, i: nat)
    requires AllAgree(pattern, path) && forall j :: 0 <= j < |path| ==> path[j] != ""
    requires i < |pattern| && IsParam(pattern[i])
    requires forall j :: 0 <= j < |pattern| && IsParam(pattern[j]) && pattern[j][2..] == pattern[i][2..] ==>
                           path[j][1..] == path[i][1..]
    ensures var bound := Collapsed(BoundPairs(pattern, path), params);
            pattern[i][2..] in bound && bound[pattern[i][2..]] == path[i][1..]
  {
    AllAgreeStep(pattern, path);
    var name, ps, ss := pattern[i][2..], pattern[1..], path[1..];
    var next := if IsParam(pattern[0]) then params[pattern[0][2..] := path[0][1..]] else params;
    BoundPairsStep(pattern, path, params);
    if exists j :: 1 <= j < |pattern| && IsParam(pattern[j]) && pattern[j][2..] == name {
      var j :| 1 <= j < |pattern| && IsParam(pattern[j]) && pattern[j][2..] == name;
      forall k | 0 <= k < |ps| && IsParam(ps[k]) && ps[k][2..] == ps[j - 1][2..]
        ensures ss[k][1..] == ss[j - 1][1..]
      {
        assert ps[k] == pattern[k + 1] && ss[k] == path[k + 1];
      }
      BoundValue(ps, ss, next, j - 1);
    } else {
      forall k | 0 <= k < |BoundPairs(ps, ss)|
        ensures BoundPairs(ps, ss)[k].0 != name
      {
        BoundKeys(ps, ss, k);
      }
      CollapsedMiss(BoundPairs(ps, ss), next, name);
    }
  }

  lemma BoundPairsStep(pattern: seq<string>, path: seq<string>, params: Fields)
    requires pattern != [] && path != [] && Agrees(pattern[0], path[0])
    requires forall j :: 0 <= j < |path| ==> path[j] != ""
    ensures Collapsed(BoundPairs(pattern, path), params) ==
            Collapsed(BoundPairs(pattern[1..], path[1..]),
                      if IsParam(pattern[0]) then params[pattern[0][2..] := path[0][1..]] else params)
  {
    var later := BoundPairs(pattern[1..], path[1..]);
    if IsParam(pattern[0]) {
      assert ([(pattern[0][2..], path[0][1..])] + later)[1..] == later;
    } else {
      assert [] + later == later;
    }
  }

  /**
   Putting the bindings back into the pattern gives the path, exactly when the two start with
   the same character: the character in front of a parameter is the one the matcher never compares.
   */
  lemma BindingsInvertMatch(pattern: string, path: string)
    requires Matches(pattern, path) && DistinctParams(Segments(pattern))
    ensures Render(pattern, Bindings(pattern, path, map[])) == path <==> (pattern == "" || pattern[0] == path[0])
  {
    hide Segments;
    var ps, ss := Segments(pattern), Segments(path);
    SegmentsAreSegments(pattern);
    SegmentsAreSegments(path);
    if pattern != "" {
      FilledInvertMatch(ps, ss);
    }
  }

  lemma FilledInvertMatch(ps: seq<string>, ss: seq<string>)
    requires AreSegments(ps) && AreSegments(ss) && AllAgree(ps, ss) && DistinctParams(ps) && ps != []
    ensures var filled := FilledAll(ps, Collapsed(BoundPairs(ps, ss), map[]));
            && Joined(filled) != "" && Joined(filled)[0] == ps[0][0]
            && (ps[0][0] == ss[0][0] ==> filled == ss)
            && (Joined(ss) != "" && Joined(ss)[0] == ss[0][0])
  {
    var filled := FilledAll(ps, Collapsed(BoundPairs(ps, ss), map[]));
    forall i | 0 <= i < |ps|
      ensures filled[i] == [ps[i][0]] + ss[i][1..]
    {
      FilledFromPath(ps, ss, i);
    }
    if ps[0][0] == ss[0][0] {
      forall i | 0 <= i < |ps|
        ensures filled[i] == ss[i]
      {
        assert ss[i] == [ss[i][0]] + ss[i][1..];
      }
    }
  }

  lemma FilledFromPath(ps: seq<string>, ss: seq<string>, i: nat)
    requires AreSegments(ps) && AreSegments(ss) && AllAgree(ps, ss) && DistinctParams(ps) && i < |ps|
    ensures Filled(ps[i], Collapsed(BoundPairs(ps, ss), map[])) == [ps[i][0]] + ss[i][1..]
  {
    assert Agrees(ps[i], ss[i]);
    if IsParam(ps[i]) {
      forall j | 0 <= j < |ps| && IsParam(ps[j]) && ps[j][2..] == ps[i][2..]
        ensures ss[j][1..] == ss[i][1..]
      {
        assert j == i;
      }
      BoundValue(ps, ss, map[], i);
    } else {
      assert ss[i] == [ss[i][0]] + ss[i][1..];
    }
  }

  /** Values that fit into one segment, one for every parameter. */
  ghost predicate SegmentValues(pattern: seq<string>, values: Fields) {
    forall i :: 0 <= i < |pattern| && IsParam(pattern[i]) ==>
      pattern[i][2..] in values && '/' !in values[pattern[i][2..]]
  }

  /** Rendering a pattern with slash-free values gives a path that it matches, binding those values. */
  lemma RenderedPathMatches(pattern: string, values: Fields)
    requires SegmentValues(Segments(pattern), values)
    ensures Matches(pattern, Render(pattern, values))
    ensures var bound := Bindings(pattern, Render(pattern, values), map[]);
            forall i :: 0 <= i < |Segments(pattern)| && IsParam(Segments(pattern)[i]) ==>
              var name := Segments(pattern)[i][2..]; name in bound && bound[name] == values[name]
  {
    var ps := Segments(pattern);
    var filled := FilledAll(ps, values);
    SegmentsAreSegments(pattern);
    FilledAreSegments(ps, values);
    SegmentsOfJoined(filled);
    forall i | 0 <= i < |ps|
      ensures Agrees(ps[i], filled[i])
    {
    }
    forall i | 0 <= i < |ps| && IsParam(ps[i])
      ensures var bound := Bindings(pattern, Render(pattern, values), map[]);
              ps[i][2..] in bound && bound[ps[i][2..]] == values[ps[i][2..]]
    {
      BoundValue(ps, filled, map[], i);
    }
  }

  /** What is bound to a rendered path: the values of the pattern's parameters, and nothing else. */
  lemma RenderedPathBinds(pattern: string, values: Fields, name: string)
    requires SegmentValues(Segments(pattern), values)
    ensures var bound := Bindings(pattern, Render(pattern, values), map[]);
            && (name in bound <==> exists i :: 0 <= i < |Segments(pattern)| && IsParam(Segments(pattern)[i]) && Segments(pattern)[i][2..] == name)
            && (name in bound ==> name in values && bound[name] == values[name])
  {
    hide Segments, BoundPairs, Render;
    RenderedPathMatches(pattern, values);
    SegmentsAreSegments(Render(pattern, values));
    if name in Bindings(pattern, Render(pattern, values), map[]) {
      var i := BoundName(Segments(pattern), Segments(Render(pattern, values)), name);
    }
  }

  lemma FilledAreSegments(ps: seq<string>, values: Fields)
    requires AreSegments(ps) && SegmentValues(ps, values)
    ensures AreSegments(FilledAll(ps, values))
    ensures forall i :: 0 <= i < |ps| && IsParam(ps[i]) ==> FilledAll(ps, values)[i][1..] == values[ps[i][2..]]
  {
    var filled := FilledAll(ps, values);
    forall i | 0 <= i < |filled|
      ensures filled[i] != "" && (i > 0 ==> filled[i][0] == '/')
      ensures forall k :: 1 <= k < |filled[i]| ==> filled[i][k] != '/'
    {
      if IsParam(ps[i]) {
        var value := values[ps[i][2..]];
        assert forall k :: 1 <= k < |filled[i]| ==> filled[i][k] == value[k - 1];
      }
    }
  }
}
