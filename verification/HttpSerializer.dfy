/**
 The response printer.  Its output is described as the lines of a head, a blank line and the
 body, which is the form both parsers are shown to take apart.
 */
module HttpSerializer {
  import opened ByteStrings
  import opened Messages
  import opened HeaderFields

  const VERSION := "HTTP/1.1"

  function StatusLineOf(code: nat, phrase: string): string {
    VERSION + " " + Decimal(code) + " " + phrase
  }

  function StatusLine(s: HttpStatus): string {
    StatusLineOf(StatusCode(s), ReasonPhrase(s))
  }

  /** Status line, the handler's fields in iteration order, then the two computed fields. */
  function ResponseLines(r: Response, order: seq<string>): seq<string>
    requires forall k :: k in order ==> k in r.headers
  {
    [StatusLine(r.status)]
    + FieldLines(Printed(ForResponse, order), r.headers)
    + [FieldLine("Content-Length", Decimal(|r.body|)), FieldLine("Connection", "close")]
  }

  function Serialized(r: Response, order: seq<string>): string
    requires forall k :: k in order ==> k in r.headers
  {
    Unlines(ResponseLines(r, order)) + CRLF_CRLF + r.body
  }

  method AppendStatusLine(output: string, response: HttpResponse) returns (result: string)
    ensures result == output + StatusLine(response.status) + CRLF
  {
    result := output + (VERSION + " ");
    result := result + Decimal(StatusCode(response.status));
    result := result + " ";
    result := result + ReasonPhrase(response.status);
    result := result + CRLF;
  }

  /** The part of the head after the status line, and the blank line. */
  function HeaderText(r: Response, order: seq<string>): string
    requires forall k :: k in order ==> k in r.headers
  {
    PrintedText(ForResponse, order, r.headers)
    + FieldLine("Content-Length", Decimal(|r.body|)) + CRLF
    + FieldLine("Connection", "close") + CRLF
    + CRLF
  }

  method AppendHeaders(output: string, response: HttpResponse, order: seq<string>) returns (result: string)
    requires Listing(order, response.headers)
    ensures result == output + HeaderText(response.View(), order)
  {
    hide PrintedText;
    result := "";
    ghost var m := response.headers;
    PrintNothing(ForResponse, order[..0], m);
    for i := 0 to |order|
      invariant result == PrintedText(ForResponse, order[..i], m)
    {
      PrintOneMore(ForResponse, order, m, i);
      var key := order[i];
      if key == "content-length" || key == "connection" {
        continue;
      }
      result := result + (key + ": " + response.headers[key] + CRLF);
    }
    assert order[..|order|] == order;
    result := result + ("Content-Length" + ": " + Decimal(|response.body|)) + CRLF;
    result := result + ("Connection" + ": " + "close") + CRLF;
    result := output + (result + CRLF);
  }

  method Serialize(response: HttpResponse, order: seq<string>) returns (output: string)
    requires Listing(order, response.headers)
    ensures output == Serialized(response.View(), order)
  {
    output := AppendStatusLine("", response);
    output := AppendHeaders(output, response, order);
    output := output + response.body;
    SerializedInParts(response.View(), order);
  }

  lemma SerializedInParts(r: Response, order: seq<string>)
    requires forall k :: k in order ==> k in r.headers
    ensures Serialized(r, order) == StatusLine(r.status) + CRLF + HeaderText(r, order) + r.body
  {
    var fields := FieldLines(Printed(ForResponse, order), r.headers);
    var length, close := FieldLine("Content-Length", Decimal(|r.body|)), FieldLine("Connection", "close");
    HeadInParts(StatusLine(r.status), fields, length, close);
  }

  lemma HeadInParts(first: string, fields: seq<string>, a: string, b: string)
    ensures Unlines([first] + fields + [a, b]) + CRLF_CRLF ==
            first + CRLF + (Terminated(fields) + a + CRLF + b + CRLF + CRLF)
  {
    hide Unlines;
    var ls := [first] + fields + [a, b];
    TerminatedIsUnlines(ls);
    assert ls[1..] == fields + [a, b];
    TerminatedConcat(fields, [a, b]);
    assert [a, b][1..] == [b] && [b][1..] == [];
    assert Terminated([b]) == b + CRLF;
    assert Terminated([a, b]) == a + CRLF + Terminated([b]);
    assert Unlines(ls) + CRLF_CRLF == Terminated(ls) + CRLF;
    var end := a + CRLF + b + CRLF;
    assert Terminated([a, b]) == end;
    assert Terminated(ls) == first + CRLF + (Terminated(fields) + end);
  }

  // ---------- The status lines on the wire ----------

  /** What goes out in front of each response, to the letter. */
  lemma StatusLines()
    ensures StatusLine(Ok) == "HTTP/1.1" + " " + "200" + " " + "OK"
    ensures StatusLine(Created) == "HTTP/1.1" + " " + "201" + " " + "Created"
    ensures StatusLine(NoContent) == "HTTP/1.1" + " " + "204" + " " + "No Content"
    ensures StatusLine(Found) == "HTTP/1.1" + " " + "302" + " " + "Found"
    ensures StatusLine(TemporaryRedirect) == "HTTP/1.1" + " " + "307" + " " + "Temporary Redirect"
    ensures StatusLine(PermanentRedirect) == "HTTP/1.1" + " " + "308" + " " + "Permanent Redirect"
    ensures StatusLine(BadRequest) == "HTTP/1.1" + " " + "400" + " " + "Bad Request"
    ensures StatusLine(Unauthorized) == "HTTP/1.1" + " " + "401" + " " + "Unauthorized"
    ensures StatusLine(Forbidden) == "HTTP/1.1" + " " + "403" + " " + "Forbidden"
    ensures StatusLine(NotFound) == "HTTP/1.1" + " " + "404" + " " + "Not Found"
    ensures StatusLine(MethodNotAllowed) == "HTTP/1.1" + " " + "405" + " " + "Method Not Allowed"
    ensures StatusLine(PayloadTooLarge) == "HTTP/1.1" + " " + "413" + " " + "Payload Too Large"
    ensures StatusLine(RequestHeaderFieldsTooLarge) == "HTTP/1.1" + " " + "431" + " " + "Request Header Fields Too Large"
    ensures StatusLine(TooManyRequests) == "HTTP/1.1" + " " + "429" + " " + "Too Many Requests"
    ensures StatusLine(InternalServerError) == "HTTP/1.1" + " " + "500" + " " + "Internal Server Error"
    ensures StatusLine(NotImplemented) == "HTTP/1.1" + " " + "501" + " " + "Not Implemented"
    ensures StatusLine(ServiceUnavailable) == "HTTP/1.1" + " " + "503" + " " + "Service Unavailable"
  {
    hide Decimal, StatusLineOf;
    StatusNumbers();
    SuccessDigits();
    ClientErrorDigits();
    ServerErrorDigits();
    forall code, phrase
      ensures StatusLineOf(code, phrase) == "HTTP/1.1" + " " + Decimal(code) + " " + phrase
    {
      PrintedStatusLine(code, phrase);
    }
  }

  lemma PrintedStatusLine(code: nat, phrase: string)
    ensures StatusLineOf(code, phrase) == "HTTP/1.1" + " " + Decimal(code) + " " + phrase
  {
  }

  lemma SuccessDigits()
    ensures Decimal(200) == "200"
    ensures Decimal(201) == "201"
    ensures Decimal(204) == "204"
    ensures Decimal(302) == "302"
    ensures Decimal(307) == "307"
    ensures Decimal(308) == "308"
  {
  }

  lemma ClientErrorDigits()
    ensures Decimal(400) == "400"
    ensures Decimal(401) == "401"
    ensures Decimal(403) == "403"
    ensures Decimal(404) == "404"
    ensures Decimal(405) == "405"
    ensures Decimal(413) == "413"
    ensures Decimal(431) == "431"
    ensures Decimal(429) == "429"
  {
  }

  lemma ServerErrorDigits()
    ensures Decimal(500) == "500"
    ensures Decimal(501) == "501"
    ensures Decimal(503) == "503"
  {
  }

  // ---------- The printed head is a head ----------

  lemma VersionIsClean()
    ensures Without(VERSION, Crlf)
  {
    NoReturnNoCrlf(VERSION);
  }

  lemma StatusLineIsClean(code: nat, phrase: string)
    requires Without(phrase, Crlf)
    ensures Without(StatusLineOf(code, phrase), Crlf)
  {
    VersionIsClean();
    PrintedNumberIsClean(code);
    ThreeFieldsAreClean(VERSION, Decimal(code), phrase);
  }

  lemma ResponseHeadIsClean(r: Response, order: seq<string>)
    requires Listing(order, r.headers) && CleanFields(r.headers)
    ensures HeadLines(ResponseLines(r, order))
  {
    ReasonPhraseIsClean(r.status);
    StatusLineIsClean(StatusCode(r.status), ReasonPhrase(r.status));
    FieldLinesAreClean(Printed(ForResponse, order), r.headers);
    PrintedNumberIsClean(|r.body|);
    LengthFieldIsClean(Decimal(|r.body|));
    CloseFieldIsClean();
  }
}
