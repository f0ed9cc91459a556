/**
 Requests and responses: the values that travel through the chain, and the classes that
 hold them.  A `HashMap` is a `map`; its unspecified iteration order is an explicit list
 of keys wherever the code iterates (see `Listing`).
 */
module Messages {
  import opened ByteStrings

  type Fields = map<string, string>

  datatype HttpMethod = Get | Post | Put | Delete | Patch | Head | Options | Unknown

  function MethodFromString(text: string): HttpMethod {
    if text == "GET" then Get
    else if text == "POST" then Post
    else if text == "PUT" then Put
    else if text == "DELETE" then Delete
    else if text == "PATCH" then Patch
    else if text == "HEAD" then Head
    else if text == "OPTIONS" then Options
    else Unknown
  }

  function MethodToString(m: HttpMethod): (r: string)
    ensures '\r' !in r && ' ' !in r && ':' !in r && r != ""
  {
    match m
    case Get => "GET"
    case Post => "POST"
    case Put => "PUT"
    case Delete => "DELETE"
    case Patch => "PATCH"
    case Head => "HEAD"
    case Options => "OPTIONS"
    case Unknown => "UNKNOWN"
  }

  /** Every method survives its wire form. */
  lemma MethodRoundTrip(m: HttpMethod)
    ensures MethodFromString(MethodToString(m)) == m
  {
    var s := MethodToString(m);
    assert |s| <= 7;
  }

  /** The seven names on the wire; any other text is no known method. */
  lemma MethodNames(text: string)
    ensures MethodFromString(text) == Get <==> text == "GET"
    ensures MethodFromString(text) == Post <==> text == "POST"
    ensures MethodFromString(text) == Put <==> text == "PUT"
    ensures MethodFromString(text) == Delete <==> text == "DELETE"
    ensures MethodFromString(text) == Patch <==> text == "PATCH"
    ensures MethodFromString(text) == Head <==> text == "HEAD"
    ensures MethodFromString(text) == Options <==> text == "OPTIONS"
    ensures MethodFromString(text) == Unknown <==>
            text !in ["GET", "POST", "PUT", "DELETE", "PATCH", "HEAD", "OPTIONS"]
    ensures MethodToString(Unknown) == "UNKNOWN"
  {
    assert |"GET"| == 3 && |"POST"| == 4;
  }

  datatype HttpStatus =
    | Ok | Created | NoContent | Found | TemporaryRedirect | PermanentRedirect
    | BadRequest | Unauthorized | Forbidden | NotFound | MethodNotAllowed
    | PayloadTooLarge | RequestHeaderFieldsTooLarge | TooManyRequests
    | InternalServerError | NotImplemented | ServiceUnavailable

  function StatusCode(s: HttpStatus): nat {
    match s
    case Ok => 200
    case Created => 201
    case NoContent => 204
    case Found => 302
    case TemporaryRedirect => 307
    case PermanentRedirect => 308
    case BadRequest => 400
    case Unauthorized => 401
    case Forbidden => 403
    case NotFound => 404
    case MethodNotAllowed => 405
    case PayloadTooLarge => 413
    case RequestHeaderFieldsTooLarge => 431
    case TooManyRequests => 429
    case InternalServerError => 500
    case NotImplemented => 501
    case ServiceUnavailable => 503
  }

  /** The numbers that `static_cast<int>` makes of the enumeration. */
  lemma StatusNumbers()
    ensures StatusCode(Ok) == 200 && StatusCode(Created) == 201 && StatusCode(NoContent) == 204
    ensures StatusCode(Found) == 302 && StatusCode(TemporaryRedirect) == 307 && StatusCode(PermanentRedirect) == 308
    ensures StatusCode(BadRequest) == 400 && StatusCode(Unauthorized) == 401 && StatusCode(Forbidden) == 403
    ensures StatusCode(NotFound) == 404 && StatusCode(MethodNotAllowed) == 405 && StatusCode(PayloadTooLarge) == 413
    ensures StatusCode(RequestHeaderFieldsTooLarge) == 431 && StatusCode(TooManyRequests) == 429
    ensures StatusCode(InternalServerError) == 500 && StatusCode(NotImplemented) == 501
    ensures StatusCode(ServiceUnavailable) == 503
  {
  }

  function ReasonPhrase(s: HttpStatus): (r: string)
    ensures '\r' !in r
  {
    match s
    case Ok => "OK"
    case Created => "Created"
    case NoContent => "No Content"
    case Found => "Found"
    case TemporaryRedirect => "Temporary Redirect"
    case PermanentRedirect => "Permanent Redirect"
    case BadRequest => "Bad Request"
    case Unauthorized => "Unauthorized"
    case Forbidden => "Forbidden"
    case NotFound => "Not Found"
    case MethodNotAllowed => "Method Not Allowed"
    case PayloadTooLarge => "Payload Too Large"
    case RequestHeaderFieldsTooLarge => "Request Header Fields Too Large"
    case TooManyRequests => "Too Many Requests"
    case InternalServerError => "Internal Server Error"
    case NotImplemented => "Not Implemented"
    case ServiceUnavailable => "Service Unavailable"
  }

  lemma ReasonPhraseIsClean(s: HttpStatus)
    ensures Without(ReasonPhrase(s), Crlf)
  {
    NoReturnNoCrlf(ReasonPhrase(s));
  }

  // ---------- Values ----------

  datatype Request = Request(
    verb: HttpMethod, path: string, version: string,
    headers: Fields, queryParams: Fields, pathParams: Fields, body: string)

  const EmptyRequest := Request(Unknown, "", "", map[], map[], map[], "")

  datatype Response = Response(status: HttpStatus, headers: Fields, body: string)

  const EmptyResponse := Response(Ok, map[], "")

  ghost predicate Distinct(keys: seq<string>) {
    forall i, j :: 0 <= i < j < |keys| ==> keys[i] != keys[j]
  }

  /** How a call ends: normally, with a `std::exception`, or with something else thrown. */
  datatype Thrown = Nothing | StdException | OtherException

  type Exception = t: Thrown | t != Nothing witness StdException

  /** A `HashMap` iteration: every key once, in some order. */
  ghost predicate Listing(order: seq<string>, m: Fields) {
    && Distinct(order)
    && (forall k :: k in order <==> k in m)
  }

  /** How every `HashMap` of one exchange happens to iterate. */
  type Order = Fields -> seq<string>

  ghost predicate IsOrder(order: Order) {
    forall m: Fields :: Listing(order(m), m)
  }

  /** Keys as a response or request stores them: already lower case. */
  ghost predicate LowerKeys(m: Fields) {
    forall k :: k in m ==> Lower(k) == k
  }

  // ---------- Storing fields one after the other ----------

  type Pair = (string, string)

  /** Each pair overwrites what was stored under its key: the last one wins. */
  function Collapsed(ps: seq<Pair>, m: Fields): Fields {
    if ps == [] then m else Collapsed(ps[1..], m[ps[0].0 := ps[0].1])
  }

  lemma {:induction false} CollapsedConcat(a: seq<Pair>, b: seq<Pair>, m: Fields)
    ensures Collapsed(a + b, m) == Collapsed(b, Collapsed(a, m))
  {
    if a == [] {
      assert a + b == b;
    } else {
      assert (a + b)[1..] == a[1..] + b;
      CollapsedConcat(a[1..], b, m[a[0].0 := a[0].1]);
    }
  }

  ghost predicate DistinctKeys(ps: seq<Pair>) {
    forall i, j :: 0 <= i < j < |ps| ==> ps[i].0 != ps[j].0
  }

  lemma {:induction false} CollapsedMiss(ps: seq<Pair>, m: Fields, k: string)
    requires forall i :: 0 <= i < |ps| ==> ps[i].0 != k
    ensures k in Collapsed(ps, m) <==> k in m
    ensures k in m ==> Collapsed(ps, m)[k] == m[k]
  {
    if ps != [] {
      CollapsedMiss(ps[1..], m[ps[0].0 := ps[0].1], k);
    }
  }

  /** The last pair stored under a key is the one that stays. */
  lemma {:induction false} CollapsedHit(ps: seq<Pair>, m: Fields, i: nat)
    requires i < |ps| && forall j :: i < j < |ps| ==> ps[j].0 != ps[i].0
    ensures ps[i].0 in Collapsed(ps, m) && Collapsed(ps, m)[ps[i].0] == ps[i].1
  {
    var next := m[ps[0].0 := ps[0].1];
    if i == 0 {
      forall j | 0 <= j < |ps[1..]|
        ensures ps[1..][j].0 != ps[0].0
      {
        assert ps[1..][j] == ps[j + 1];
      }
      CollapsedMiss(ps[1..], next, ps[0].0);
    } else {
      assert ps[1..][i - 1] == ps[i];
      forall j | i - 1 < j < |ps[1..]|
        ensures ps[1..][j].0 != ps[i].0
      {
        assert ps[1..][j] == ps[j + 1];
      }
      CollapsedHit(ps[1..], next, i - 1);
    }
  }

  /** Pairs that list a map's entries under distinct keys collapse to that map. */
  lemma CollapsedIsMap(ps: seq<Pair>, m: Fields)
    requires DistinctKeys(ps)
    requires forall i :: 0 <= i < |ps| ==> ps[i].0 in m && m[ps[i].0] == ps[i].1
    requires forall k :: k in m ==> exists i :: 0 <= i < |ps| && ps[i].0 == k
    ensures Collapsed(ps, map[]) == m
  {
    var c := Collapsed(ps, map[]);
    forall k: string
      ensures k in c <==> k in m
      ensures k in m ==> c[k] == m[k]
    {
      if k in m {
        var i :| 0 <= i < |ps| && ps[i].0 == k;
        CollapsedHit(ps, map[], i);
      } else {
        CollapsedMiss(ps, map[], k);
      }
    }
  }

  // ---------- Objects ----------

  class HttpRequest {
    var verb: HttpMethod
    var path: string
    var version: string
    var headers: Fields
    var queryParams: Fields
    var pathParams: Fields
    var body: string

    function View(): Request
      reads this
    {
      Request(verb, path, version, headers, queryParams, pathParams, body)
    }

    constructor ()
      ensures View() == EmptyRequest
    {
      verb, path, version, body := Unknown, "", "", "";
      headers, queryParams, pathParams := map[], map[], map[];
    }

    method SetMethod(m: HttpMethod)
      modifies this
      ensures View() == old(View()).(verb := m)
    {
      verb := m;
    }

    method SetPath(p: string)
      modifies this
      ensures View() == old(View()).(path := p)
    {
      path := p;
    }

    method SetVersion(v: string)
      modifies this
      ensures View() == old(View()).(version := v)
    {
      version := v;
    }

    method SetHeader(name: string, value: string)
      modifies this
      ensures View() == old(View()).(headers := old(headers)[Lower(name) := value])
    {
      headers := headers[Lower(name) := value];
    }

    method SetQueryParam(name: string, value: string)
      modifies this
      ensures View() == old(View()).(queryParams := old(queryParams)[name := value])
    {
      queryParams := queryParams[name := value];
    }

    method SetPathParam(name: string, value: string)
      modifies this
      ensures View() == old(View()).(pathParams := old(pathParams)[name := value])
    {
      pathParams := pathParams[name := value];
    }

    method SetBody(b: string)
      modifies this
      ensures View() == old(View()).(body := b)
    {
      body := b;
    }

    /** What a middleware or handler that holds the request by reference may do to it. */
    method Assign(v: Request)
      modifies this
      ensures View() == v
    {
      verb, path, version, body := v.verb, v.path, v.version, v.body;
      headers, queryParams, pathParams := v.headers, v.queryParams, v.pathParams;
    }

    /** `header(name)`: case-insensitive lookup, empty when absent. */
    function Header(name: string): (value: string)
      reads this
      ensures forall k :: k in headers && k == Lower(name) ==> value == headers[k]
      ensures Lower(name) !in headers ==> value == ""
    {
      if Lower(name) in headers then headers[Lower(name)] else ""
    }
  }

  class HttpResponse {
    var status: HttpStatus
    var headers: Fields
    var body: string

    function View(): Response
      reads this
    {
      Response(status, headers, body)
    }

    constructor (s: HttpStatus := Ok)
      ensures View() == EmptyResponse.(status := s)
    {
      status, headers, body := s, map[], "";
    }

    method SetStatus(s: HttpStatus)
      modifies this
      ensures View() == old(View()).(status := s)
    {
      status := s;
    }

    method SetHeader(name: string, value: string)
      modifies this
      ensures View() == old(View()).(headers := old(headers)[Lower(name) := value])
      ensures LowerKeys(old(headers)) ==> LowerKeys(headers)
    {
      LowerIdempotent(name);
      headers := headers[Lower(name) := value];
    }

    method SetBody(b: string)
      modifies this
      ensures View() == old(View()).(body := b)
    {
      body := b;
    }

    method Assign(v: Response)
      modifies this
      ensures View() == v
    {
      status, headers, body := v.status, v.headers, v.body;
    }
  }
}
