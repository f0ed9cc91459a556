/**
 The route table.  Two scans share it, one for streaming routes and one for normal ones; each
 is shown to pick the first route of its kind that fits, with that route's bindings alone.
 */
module Router {
  import opened ByteStrings
  import opened Messages
  import opened PathMatcher
  import opened SseConnection

  /** What a route handler did to the response, and whether it threw. */
  datatype Handled = Handled(response: Response, thrown: Thrown)

  type RouteHandler = (Request, Response) -> Handled
  type StreamHandler = Request -> StreamProgram

  datatype Route =
    | Normal(verb: HttpMethod, pattern: string, handler: RouteHandler)
    | Streaming(verb: HttpMethod, pattern: string, streamHandler: StreamHandler)

  /** Event streams are fetched, never posted. */
  predicate StreamsUnderGet(routes: seq<Route>) {
    forall i :: 0 <= i < |routes| && routes[i].Streaming? ==> routes[i].verb == Get
  }

  datatype DispatchResult = Matched | NoRoute | WrongMethod

  // ---------- The declarative choice ----------

  /** Is `r` a route of the wanted kind for this method and path? */
  predicate Fits(r: Route, streaming: bool, verb: HttpMethod, path: string) {
    r.Streaming? == streaming && r.verb == verb && Matches(r.pattern, path)
  }

  /** The first fitting route at or after `from`. */
  function FirstFit(routes: seq<Route>, streaming: bool, verb: HttpMethod, path: string, from: nat := 0): (r: Option<nat>)
    ensures r.Some? ==> from <= r.value < |routes| && Fits(routes[r.value], streaming, verb, path)
    ensures r.Some? ==> forall j :: from <= j < r.value ==> !Fits(routes[j], streaming, verb, path)
    ensures r.None? ==> forall j :: from <= j < |routes| ==> !Fits(routes[j], streaming, verb, path)
    decreases |routes| - from
  {
    if from >= |routes| then None
    else if Fits(routes[from], streaming, verb, path) then Some(from)
    else FirstFit(routes, streaming, verb, path, from + 1)
  }

  /** Does some normal route fit the path under another method? */
  predicate FitsOtherMethod(routes: seq<Route>, verb: HttpMethod, path: string) {
    exists i :: 0 <= i < |routes| && routes[i].Normal? && routes[i].verb != verb && Matches(routes[i].pattern, path)
  }

  /** The request with a route's bindings added to its path parameters. */
  function WithBindings(r: Request, pattern: string): Request {
    r.(pathParams := r.pathParams + Bindings(pattern, r.path, map[]))
  }

  datatype Outcome = Outcome(result: DispatchResult, request: Request, response: Response, thrown: Thrown)

  /** What dispatching amounts to. */
  function Dispatched(routes: seq<Route>, req: Request, resp: Response): Outcome {
    match FirstFit(routes, false, req.verb, req.path)
    case Some(i) =>
      var bound := WithBindings(req, routes[i].pattern);
      var done := routes[i].handler(bound, resp);
      Outcome(Matched, bound, done.response, done.thrown)
    case None =>
      Outcome(if FitsOtherMethod(routes, req.verb, req.path) then WrongMethod else NoRoute, req, resp, Nothing)
  }

  // ---------- The scans ----------

  /** Adds every binding to the request's path parameters, in whatever order the map yields them. */
  method BindParams(request: HttpRequest, params: Fields)
    modifies request
    ensures request.View() == old(request.View()).(pathParams := old(request.pathParams) + params)
  {
    var left := params.Keys;
    while left != {}
      invariant left <= params.Keys
      invariant request.View() == old(request.View()).(pathParams := request.pathParams)
      invariant request.pathParams == old(request.pathParams) + (map k | k in params && k !in left :: params[k])
      decreases left
    {
      var key :| key in left;
      request.SetPathParam(key, params[key]);
      left := left - {key};
    }
    assert (map k | k in params && k !in left :: params[k]) == params;
  }

  class Router {
    var routes: seq<Route>

    constructor ()
      ensures routes == []
    {
      routes := [];
    }

    method AddRoute(verb: HttpMethod, pattern: string, handler: RouteHandler)
      modifies this
      ensures routes == old(routes) + [Normal(verb, pattern, handler)]
      ensures StreamsUnderGet(old(routes)) ==> StreamsUnderGet(routes)
    {
      routes := routes + [Normal(verb, pattern, handler)];
    }

    /** Streaming routes are always registered under GET. */
    method AddStream(pattern: string, handler: StreamHandler)
      modifies this
      ensures routes == old(routes) + [Streaming(Get, pattern, handler)]
      ensures StreamsUnderGet(old(routes)) ==> StreamsUnderGet(routes)
    {
      routes := routes + [Streaming(Get, pattern, handler)];
    }

    method Dispatch(request: HttpRequest, response: HttpResponse) returns (result: DispatchResult, thrown: Thrown)
      modifies request, response
      ensures Outcome(result, request.View(), response.View(), thrown) ==
              Dispatched(routes, old(request.View()), old(response.View()))
    {
      var pathMatchedOtherMethod := false;
      ghost var start := request.View();
      for i := 0 to |routes|
        invariant request.View() == start && response.View() == old(response.View())
        invariant FirstFit(routes, false, start.verb, start.path) == FirstFit(routes, false, start.verb, start.path, i)
        invariant pathMatchedOtherMethod <==> FitsOtherMethod(routes[..i], start.verb, start.path)
      {
        OneMoreRoute(routes, i, start.verb, start.path);
        var route := routes[i];
        if !route.Normal? {
          continue;
        }
        if route.verb != request.verb {
          var matches, discarded := Match(route.pattern, request.path, map[]);
          if matches {
            pathMatchedOtherMethod := true;
          }
          continue;
        }
        var params: Fields;
        var matched;
        matched, params := Match(route.pattern, request.path, map[]);
        if matched {
          BindParams(request, params);
          var done := route.handler(request.View(), response.View());
          response.Assign(done.response);
          return Matched, done.thrown;
        }
      }
      assert routes[..|routes|] == routes;
      return if pathMatchedOtherMethod then WrongMethod else NoRoute, Nothing;
    }

    lemma OneMoreRoute(routes: seq<Route>, i: nat, verb: HttpMethod, path: string)
      requires i < |routes|
      ensures FitsOtherMethod(routes[..i + 1], verb, path) <==>
              FitsOtherMethod(routes[..i], verb, path)
              || (routes[i].Normal? && routes[i].verb != verb && Matches(routes[i].pattern, path))
      ensures FirstFit(routes, false, verb, path, i) ==
              if Fits(routes[i], false, verb, path) then Some(i) else FirstFit(routes, false, verb, path, i + 1)
    {
      hide Matches, Fits, FitsOtherMethod;
      FitsOneMore(routes[..i], routes[i], verb, path);
      assert routes[..i + 1] == routes[..i] + [routes[i]];
    }

    lemma FitsOneMore(before: seq<Route>, route: Route, verb: HttpMethod, path: string)
      ensures FitsOtherMethod(before + [route], verb, path) <==>
              FitsOtherMethod(before, verb, path)
              || (route.Normal? && route.verb != verb && Matches(route.pattern, path))
    {
      hide Matches;
      var after := before + [route];
      assert forall j :: 0 <= j < |before| ==> before[j] == after[j];
      assert after[|before|] == route;
    }

    /** The index stands for the route's stream handler. */
    method MatchStream(request: HttpRequest) returns (found: Option<nat>)
      modifies request
      ensures found == FirstFit(routes, true, old(request.verb), old(request.path))
      ensures request.View() ==
              if found.None? then old(request.View()) else WithBindings(old(request.View()), routes[found.value].pattern)
    {
      ghost var start := request.View();
      for i := 0 to |routes|
        invariant request.View() == start
        invariant FirstFit(routes, true, start.verb, start.path) == FirstFit(routes, true, start.verb, start.path, i)
      {
        var route := routes[i];
        if !route.Streaming? || route.verb != request.verb {
          continue;
        }
        var matched, params := Match(route.pattern, request.path, map[]);
        if matched {
          BindParams(request, params);
          return Some(i);
        }
      }
      return None;
    }
  }
}
