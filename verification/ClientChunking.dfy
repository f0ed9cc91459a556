/**
 Does the way the network cuts a response into reads change what the client returns?  Only if
 more bytes arrive than the client accepts although the response itself is small enough, and
 one read can step over the limit.
 */
module ClientChunking {
  import opened ByteStrings
  import opened Transport
  import opened HttpClient

  /** The result as a function of the bytes and of how the stream stops. */
  function ResultOfBytes(s: string, ending: Recv, maxResponse: nat): Option<ClientResponse> {
    var f := FramingOf(s, maxResponse);
    if f.Framed? && f.length.Some? then
      // Sections 3.3.3 and 3.4 of RFC 7230: complete when exactly the declared bytes are there.
      var end := f.bodyStart + f.length.value;
      if end <= |s| && end <= maxResponse then Some(Answer(f.head, s[f.bodyStart..end])) else None
    else if |s| > maxResponse || !ending.Eof? then None
    else Finished(s, f)
  }

  predicate ChunkingMatters(s: string, maxResponse: nat) {
    var f := FramingOf(s, maxResponse);
    && |s| > maxResponse
    && f.Framed? && f.length.Some?
    && f.bodyStart + f.length.value <= maxResponse
    && maxResponse + 2 <= f.bodyStart + f.length.value + READ_CHUNK
  }

  /** A proper prefix has no head yet, or the framing of the whole. */
  lemma FramingOfPrefix(raw: string, more: string, maxResponse: nat)
    ensures var f, whole := FramingOf(raw, maxResponse), FramingOf(raw + more, maxResponse);
            f == whole || (f.NoHead? && (whole.Framed? ==> |raw| < whole.bodyStart))
  {
    if !Without(raw, BlankLine) {
      FramingIsStable(raw, more, maxResponse);
    } else if !Without(raw + more, BlankLine) && |raw| >= Find(raw + more, BlankLine).value + 4 {
      FindBackInPrefix(raw, more, BlankLine);
    }
  }

  /** A read that steps over the limit before the response is complete is what `ChunkingMatters` names. */
  lemma StepOverLimit(raw: string, bytes: Chunk, later: string, maxResponse: nat)
    requires |raw| <= maxResponse && VerdictOn(raw, maxResponse) == More && |raw + bytes| > maxResponse
    requires !ChunkingMatters(raw + bytes + later, maxResponse)
    ensures forall ending :: ResultOfBytes(raw + bytes + later, ending, maxResponse) == None
  {
    hide Framed';
    var s := raw + bytes + later;
    assert s == raw + (bytes + later);
    FramingOfPrefix(raw, bytes + later, maxResponse);
  }

  lemma {:induction false} ReceivedByBytes(raw: string, incoming: seq<Recv>, maxResponse: nat)
    requires |raw| <= maxResponse && !ChunkingMatters(raw + Delivered(incoming), maxResponse)
    ensures Received(raw, incoming, maxResponse) ==
            ResultOfBytes(raw + Delivered(incoming), Ending(incoming), maxResponse)
    decreases |incoming|
  {
    hide Framed';
    var more := Delivered(incoming);
    var s := raw + more;
    FramingOfPrefix(raw, more, maxResponse);
    if VerdictOn(raw, maxResponse).Complete? {
      CompletePrefix(raw, more, maxResponse);
    } else if VerdictOn(raw, maxResponse).More? {
      if incoming == [] || !incoming[0].Data? {
        assert s == raw;
      } else {
        var bytes, later := incoming[0].bytes, Delivered(incoming[1..]);
        assert s == raw + bytes + later;
        if |raw + bytes| > maxResponse {
          StepOverLimit(raw, bytes, later, maxResponse);
        } else {
          ReceivedByBytes(raw + bytes, incoming[1..], maxResponse);
        }
      }
    }
  }

  lemma CompletePrefix(raw: string, more: string, maxResponse: nat)
    requires VerdictOn(raw, maxResponse).Complete?
    ensures forall ending :: ResultOfBytes(raw + more, ending, maxResponse) == Some(VerdictOn(raw, maxResponse).response)
  {
    hide Framed';
    FramingIsStable(raw, more, maxResponse);
    var f := FramingOf(raw, maxResponse);
    var end := f.bodyStart + f.length.value;
    assert (raw + more)[f.bodyStart..end] == raw[f.bodyStart..end];
  }

  /** Outside the named family the client's result depends on the bytes and the ending alone. */
  lemma BytesDecide(incoming: seq<Recv>, maxResponse: nat)
    requires !ChunkingMatters(Delivered(incoming), maxResponse)
    ensures Received("", incoming, maxResponse) ==
            ResultOfBytes(Delivered(incoming), Ending(incoming), maxResponse)
  {
    assert "" + Delivered(incoming) == Delivered(incoming);
    ReceivedByBytes("", incoming, maxResponse);
  }

  // ---------- Inside the family ----------

  /** As long as the response is incomplete, single bytes are simply collected. */
  lemma {:induction false} TrickledResponse(raw: string, t: string, more: seq<Recv>, maxResponse: nat)
    requires VerdictOn(raw + t, maxResponse) == More
    ensures Received(raw, OneByOne(t, more), maxResponse) == Received(raw + t, more, maxResponse)
    decreases |t|
  {
    if t == "" {
      assert raw + t == raw;
    } else {
      IncompletePrefix(raw, t, maxResponse);
      assert raw + [t[0]] + t[1..] == raw + t;
      assert OneByOne(t, more)[1..] == OneByOne(t[1..], more);
      TrickledResponse(raw + [t[0]], t[1..], more, maxResponse);
    }
  }

  lemma IncompletePrefix(raw: string, t: string, maxResponse: nat)
    requires VerdictOn(raw + t, maxResponse) == More
    ensures VerdictOn(raw, maxResponse) == More
  {
    FramingOfPrefix(raw, t, maxResponse);
  }

  /** Byte by byte the response is returned; with one read from its last byte over the limit it is lost. */
  lemma LimitDecides(s: string, end: seq<Recv>, maxResponse: nat)
    requires ChunkingMatters(s, maxResponse)
    ensures var f := FramingOf(s, maxResponse);
            var last := f.bodyStart + f.length.value - 1;
            && 0 <= last < |s| && maxResponse + 1 - last <= READ_CHUNK
            && Received("", OneBigRead(s, last, last + 1, end), maxResponse) ==
               Some(Answer(f.head, s[f.bodyStart..last + 1]))
            && Received("", OneBigRead(s, last, maxResponse + 1, end), maxResponse) == None
  {
    hide Framed', OneBigRead;
    var f := FramingOf(s, maxResponse);
    var last := f.bodyStart + f.length.value - 1;
    ShortOfTheEnd(s, last, maxResponse);
    UpToTheEnd(s, last + 1, maxResponse);
    NextReadDecides(s, last, last + 1, end, maxResponse);
    NextReadDecides(s, last, maxResponse + 1, end, maxResponse);
  }

  lemma ShortOfTheEnd(s: string, k: nat, maxResponse: nat)
    requires k <= |s| && k <= maxResponse
    requires var f := FramingOf(s, maxResponse); f.Framed? && f.length.Some? && k < f.bodyStart + f.length.value
    ensures VerdictOn(s[..k], maxResponse) == More
  {
    hide Framed';
    assert s == s[..k] + s[k..];
    FramingOfPrefix(s[..k], s[k..], maxResponse);
  }

  lemma UpToTheEnd(s: string, k: nat, maxResponse: nat)
    requires k <= |s| && k <= maxResponse
    requires var f := FramingOf(s, maxResponse); f.Framed? && f.length.Some? && k == f.bodyStart + f.length.value
    ensures var f := FramingOf(s, maxResponse);
            VerdictOn(s[..k], maxResponse) == Complete(Answer(f.head, s[f.bodyStart..k]))
  {
    hide Framed';
    assert s == s[..k] + s[k..];
    FramingOfPrefix(s[..k], s[k..], maxResponse);
    var f := FramingOf(s, maxResponse);
    assert s[..k][f.bodyStart..k] == s[f.bodyStart..k];
  }

  /** If `s[..i]` is incomplete and `s[..k]` is not, the read from `i` to `k` settles the matter. */
  lemma NextReadDecides(s: string, i: nat, k: nat, end: seq<Recv>, maxResponse: nat)
    requires i < k <= |s| && k - i <= READ_CHUNK
    requires VerdictOn(s[..i], maxResponse) == More && !VerdictOn(s[..k], maxResponse).More?
    ensures Received("", OneBigRead(s, i, k, end), maxResponse) ==
            match VerdictOn(s[..k], maxResponse) case Complete(r) => Some(r) case _ => None
  {
    hide FramingOf, Judged;
    var script := [Data(s[i..k])] + OneByOne(s[k..], end);
    assert "" + s[..i] == s[..i];
    TrickledResponse("", s[..i], script, maxResponse);
    assert script[1..] == OneByOne(s[k..], end) && s[..i] + s[i..k] == s[..k];
  }

  /** The client's result is independent of the reads exactly when `ChunkingMatters` fails. */
  lemma IndependentExactly(s: string, ending: Recv, maxResponse: nat)
    requires !ending.Data?
    ensures (forall one, other ::
               Delivered(one) == s && Ending(one) == ending && Delivered(other) == s && Ending(other) == ending ==>
               Received("", one, maxResponse) == Received("", other, maxResponse))
            <==> !ChunkingMatters(s, maxResponse)
  {
    hide Framed', Received, OneBigRead;
    if ChunkingMatters(s, maxResponse) {
      var f := FramingOf(s, maxResponse);
      var last := f.bodyStart + f.length.value - 1;
      LimitDecides(s, [ending], maxResponse);
      DeliveredOneBigRead(s, last, last + 1, [ending]);
      DeliveredOneBigRead(s, last, maxResponse + 1, [ending]);
    } else {
      forall one, other |
        Delivered(one) == s && Ending(one) == ending && Delivered(other) == s && Ending(other) == ending
        ensures Received("", one, maxResponse) == Received("", other, maxResponse)
      {
        BytesDecide(one, maxResponse);
        BytesDecide(other, maxResponse);
      }
    }
  }
}
