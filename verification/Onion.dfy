/**
 The shape of a run through the chain: each middleware wraps the rest, the recovery
 middleware turns whatever is thrown behind it into a 500, and the value `runChain` returns
 says whether the connection is gone -- or, with the wrong middleware, fails to.
 */
module Onion {
  import opened ByteStrings
  import opened Messages
  import opened PathMatcher
  import opened Transport
  import opened SseConnection
  import opened Router
  import opened Chain

  // ---------- The onion ----------

  predicate NeverCallsNext(p: MiddlewareProgram) {
    match p
    case Finish => true
    case Raise(_) => true
    case Edit(_, next) => NeverCallsNext(next)
    case Test(_, yes, no) => NeverCallsNext(yes) && NeverCallsNext(no)
    case CallNext(_, _, _) => false
  }

  predicate CallsNextAtMostOnce(p: MiddlewareProgram) {
    match p
    case Finish => true
    case Raise(_) => true
    case Edit(_, next) => CallsNextAtMostOnce(next)
    case Test(_, yes, no) => CallsNextAtMostOnce(yes) && CallsNextAtMostOnce(no)
    case CallNext(returned, caughtStd, caughtOther) =>
      NeverCallsNext(returned) && NeverCallsNext(caughtStd) && NeverCallsNext(caughtOther)
  }

  /** The messages a middleware hands to its first call of `next`, if it calls it at all. */
  function Passes(p: MiddlewareProgram, q: Request, r: Response): Option<(Request, Response)> {
    match p
    case Finish => None
    case Raise(_) => None
    case Edit(change, next) => var (q', r') := change(q, r); Passes(next, q', r')
    case Test(condition, yes, no) => Passes(if condition(q, r) then yes else no, q, r)
    case CallNext(_, _, _) => Some((q, r))
  }

  /** From middleware `i` on: in, then whatever is behind it if it calls `next`, then out. */
  function Layers(site: Site, i: nat, q: Request, r: Response, found: nat): seq<Step>
    decreases |site.chain| - i
  {
    if i >= |site.chain| then [Reached(EndOf(site, q, found), q, r.headers)]
    else match Passes(site.chain[i], q, r)
      case None => [Enter(i), Leave(i)]
      case Some((q', r')) => [Enter(i)] + Layers(site, i + 1, q', r', found) + [Leave(i)]
  }

  /** A middleware that does not call `next` (again) leaves no trace. */
  lemma {:induction false} NoNextNoTrace(site: Site, i: nat, p: MiddlewareProgram, streamed: bool, c: Context)
    requires IsOrder(site.order) && i < |site.chain| && NeverCallsNext(p)
    ensures RunProgram(site, i, p, streamed, c).context.trace == c.trace
    decreases p
  {
    match p
    case Finish =>
    case Raise(_) =>
    case Edit(change, next) =>
      var (q, r) := change(c.request, c.response);
      NoNextNoTrace(site, i, next, streamed, c.(request := q, response := r));
    case Test(condition, yes, no) =>
      NoNextNoTrace(site, i, if condition(c.request, c.response) then yes else no, streamed, c);
  }

  /**
   Onion order: if every middleware calls `next` at most once, then whatever is edited, thrown or
   caught, the steps of a run are exactly its layers.
   */
  lemma {:induction false} OnionOrder(site: Site, i: nat, c: Context)
    requires IsOrder(site.order)
    requires forall j :: 0 <= j < |site.chain| ==> CallsNextAtMostOnce(site.chain[j])
    ensures RunChain(site, i, c).context.trace == c.trace + Layers(site, i, c.request, c.response, FoundNext(c.gate))
    decreases |site.chain| - i, 1
  {
    if i >= |site.chain| {
      hide EndOf, StreamOf, Dispatched;
    } else {
      hide AtTheEnd;
      ProgramTrace(site, i, site.chain[i], false, c.(trace := c.trace + [Enter(i)]));
    }
  }

  lemma {:induction false} ProgramTrace(site: Site, i: nat, p: MiddlewareProgram, streamed: bool, c: Context)
    requires IsOrder(site.order) && i < |site.chain| && CallsNextAtMostOnce(p)
    requires forall j :: 0 <= j < |site.chain| ==> CallsNextAtMostOnce(site.chain[j])
    ensures RunProgram(site, i, p, streamed, c).context.trace ==
            c.trace + match Passes(p, c.request, c.response)
                      case None => []
                      case Some((q, r)) => Layers(site, i + 1, q, r, FoundNext(c.gate))
    decreases |site.chain| - i, 0, p
  {
    hide AtTheEnd, Layers;
    match p
    case Finish =>
    case Raise(_) =>
    case Edit(change, next) =>
      var (q, r) := change(c.request, c.response);
      ProgramTrace(site, i, next, streamed, c.(request := q, response := r));
    case Test(condition, yes, no) =>
      ProgramTrace(site, i, if condition(c.request, c.response) then yes else no, streamed, c);
    case CallNext(returned, caughtStd, caughtOther) =>
      OnionOrder(site, i + 1, c);
      var inner := RunChain(site, i + 1, c);
      match inner.thrown {
        case Nothing => NoNextNoTrace(site, i, returned, inner.streamed, inner.context);
        case StdException => NoNextNoTrace(site, i, caughtStd, streamed, inner.context);
        case OtherException => NoNextNoTrace(site, i, caughtOther, streamed, inner.context);
      }
  }

  // ---------- The shape of the layers ----------

  /** The messages that arrive at layer `j`, if every middleware in front of it continues. */
  function Arriving(site: Site, i: nat, q: Request, r: Response, j: nat): Option<(Request, Response)>
    requires i <= j <= |site.chain|
    decreases j - i
  {
    if i == j then Some((q, r))
    else match Passes(site.chain[i], q, r)
      case None => None
      case Some((q', r')) => Arriving(site, i + 1, q', r', j)
  }

  function Down(i: nat, k: nat): seq<Step>
    requires i <= k
    decreases k - i
  {
    if i == k then [] else [Enter(i)] + Down(i + 1, k)
  }

  function Up(i: nat, k: nat): seq<Step>
    requires i <= k
    decreases k - i
  {
    if i == k then [] else Up(i + 1, k) + [Leave(i)]
  }

  /**
   If everyone continues, the layers are all the way in, the end, and all the way out; if `k` is
   the first that does not, they are in through `k` and out again from `k`.
   */
  lemma {:induction false} ShapeOfLayers(site: Site, i: nat, q: Request, r: Response, found: nat) returns (k: nat)
    requires i <= |site.chain|
    ensures i <= k <= |site.chain| && Arriving(site, i, q, r, k).Some?
    ensures k == |site.chain| ==>
              var (q', r') := Arriving(site, i, q, r, k).value;
              Layers(site, i, q, r, found) == Down(i, k) + [Reached(EndOf(site, q', found), q', r'.headers)] + Up(i, k)
    ensures k < |site.chain| ==>
              && Arriving(site, i, q, r, k + 1).None?
              && Layers(site, i, q, r, found) == Down(i, k + 1) + Up(i, k + 1)
    decreases |site.chain| - i
  {
    if i == |site.chain| {
      k := i;
    } else {
      match Passes(site.chain[i], q, r)
      case None =>
        k := i;
        assert Down(i + 1, i + 1) == [] && Up(i + 1, i + 1) == [];
      case Some((q', r')) =>
        k := ShapeOfLayers(site, i + 1, q', r', found);
    }
  }

  // ---------- What a middleware learns and does ----------

  /** A test sees the messages as they are, an edit is seen by whoever comes next, and what is thrown is thrown. */
  lemma MiddlewareLearns(site: Site, i: nat, change: Change, condition: Condition, c: Context)
    requires IsOrder(site.order) && i < |site.chain|
    ensures var (q, r) := change(c.request, c.response);
            var p := Edit(change, Test(condition, Raise(StdException), Raise(OtherException)));
            var f := RunProgram(site, i, p, false, c);
            && f.thrown == (if condition(q, r) then StdException else OtherException)
            && f.context == c.(request := q, response := r)
    ensures RunProgram(site, i, Finish, true, c) == Flow(c, true, Nothing)
  {
    var (q, r) := change(c.request, c.response);
    var test := Test(condition, Raise(StdException), Raise(OtherException));
    var edited := c.(request := q, response := r);
    assert RunProgram(site, i, Edit(change, test), false, c) == RunProgram(site, i, test, false, edited);
    var branch := if condition(q, r) then Raise(StdException) else Raise(OtherException);
    assert RunProgram(site, i, test, false, edited) == RunProgram(site, i, branch, false, edited);
  }

  // ---------- The recovery middleware ----------

  function To500(q: Request, r: Response): (Request, Response) {
    (q, Answered(r, InternalServerError, INTERNAL_ERROR))
  }

  /** `Recovery::operator()`: call `next`; both catch branches set the status and the body. */
  const RECOVERY := CallNext(Finish, Edit(To500, Finish), Edit(To500, Finish))

  /** With recovery at `i`, nothing thrown behind it gets past it; it becomes a 500 with the fixed body. */
  lemma RecoveryContains(site: Site, i: nat, c: Context)
    requires IsOrder(site.order) && i < |site.chain| && site.chain[i] == RECOVERY
    ensures var inner := RunChain(site, i + 1, c.(trace := c.trace + [Enter(i)]));
            var f := RunChain(site, i, c);
            && f.thrown == Nothing
            && f.context.request == inner.context.request && f.context.owned == inner.context.owned
            && f.context.kernel == inner.context.kernel
            && (inner.thrown == Nothing ==> f.streamed == inner.streamed && f.context.response == inner.context.response)
            && (inner.thrown != Nothing ==>
                  && !f.streamed
                  && f.context.response == inner.context.response.(status := InternalServerError, body := "Internal Server Error"))
  {
    hide AtTheEnd;
    var c' := c.(trace := c.trace + [Enter(i)]);
    var inner := RunChain(site, i + 1, c');
    var f := RunProgram(site, i, RECOVERY, false, c');
    if inner.thrown == Nothing {
      assert f == RunProgram(site, i, Finish, inner.streamed, inner.context);
    } else {
      assert f == RunProgram(site, i, Edit(To500, Finish), false, inner.context);
      var (q, r) := To500(inner.context.request, inner.context.response);
      assert f == RunProgram(site, i, Finish, false, inner.context.(request := q, response := r));
    }
  }

  // ---------- What the returned value tells ----------

  /** Calls `next` at most once and lets exceptions pass. */
  predicate Transparent(p: MiddlewareProgram) {
    match p
    case Finish => true
    case Raise(_) => true
    case Edit(_, next) => Transparent(next)
    case Test(_, yes, no) => Transparent(yes) && Transparent(no)
    case CallNext(returned, caughtStd, caughtOther) =>
      NeverCallsNext(returned) && caughtStd == Raise(StdException) && caughtOther == Raise(OtherException)
  }

  /**
   In a chain of transparent middlewares the returned value is right in both directions: the
   connection is gone if and only if `runChain` returned true.
   */
  lemma {:induction false} ReturnedValueIsRight(site: Site, i: nat, c: Context)
    requires IsOrder(site.order) && c.owned
    requires forall j :: 0 <= j < |site.chain| ==> Transparent(site.chain[j])
    ensures var f := RunChain(site, i, c); f.thrown == Nothing ==> (f.streamed <==> !f.context.owned)
    decreases |site.chain| - i, 1
  {
    if i >= |site.chain| {
      hide StreamOf, Dispatched, EndOf;
    } else {
      ProgramValueIsRight(site, i, site.chain[i], c.(trace := c.trace + [Enter(i)]));
    }
  }

  lemma {:induction false} ProgramValueIsRight(site: Site, i: nat, p: MiddlewareProgram, c: Context)
    requires IsOrder(site.order) && c.owned && i < |site.chain| && Transparent(p)
    requires forall j :: 0 <= j < |site.chain| ==> Transparent(site.chain[j])
    ensures var f := RunProgram(site, i, p, false, c); f.thrown == Nothing ==> (f.streamed <==> !f.context.owned)
    decreases |site.chain| - i, 0, p
  {
    hide AtTheEnd;
    match p
    case Finish =>
    case Raise(_) =>
    case Edit(change, next) =>
      var (q, r) := change(c.request, c.response);
      ProgramValueIsRight(site, i, next, c.(request := q, response := r));
    case Test(condition, yes, no) =>
      ProgramValueIsRight(site, i, if condition(c.request, c.response) then yes else no, c);
    case CallNext(returned, caughtStd, caughtOther) =>
      ReturnedValueIsRight(site, i + 1, c);
      var inner := RunChain(site, i + 1, c);
      if inner.thrown == Nothing {
        NoNextKeepsOwnership(site, i, returned, inner.streamed, inner.context);
      }
  }

  lemma {:induction false} NoNextKeepsOwnership(site: Site, i: nat, p: MiddlewareProgram, streamed: bool, c: Context)
    requires IsOrder(site.order) && i < |site.chain| && NeverCallsNext(p)
    ensures var f := RunProgram(site, i, p, streamed, c);
            f.context.owned == c.owned && f.context.kernel == c.kernel && (f.thrown == Nothing ==> f.streamed == streamed)
    decreases p
  {
    match p
    case Finish =>
    case Raise(_) =>
    case Edit(change, next) =>
      var (q, r) := change(c.request, c.response);
      NoNextKeepsOwnership(site, i, next, streamed, c.(request := q, response := r));
    case Test(condition, yes, no) =>
      NoNextKeepsOwnership(site, i, if condition(c.request, c.response) then yes else no, streamed, c);
  }

  // ---------- Exactly when it is right ----------

  /** Where the last call of `next` that returned, rather than threw, began; none if there was no such call. */
  function LastReturn(site: Site, i: nat, p: MiddlewareProgram, c: Context): Option<Context>
    requires IsOrder(site.order) && i < |site.chain|
    decreases p
  {
    match p
    case Finish => None
    case Raise(_) => None
    case Edit(change, next) =>
      var (q, r) := change(c.request, c.response);
      LastReturn(site, i, next, c.(request := q, response := r))
    case Test(condition, yes, no) =>
      LastReturn(site, i, if condition(c.request, c.response) then yes else no, c)
    case CallNext(returned, caughtStd, caughtOther) =>
      var inner := RunChain(site, i + 1, c);
      match inner.thrown
      case Nothing =>
        var later := LastReturn(site, i, returned, inner.context);
        if later.Some? then later else Some(c)
      case StdException => LastReturn(site, i, caughtStd, inner.context)
      case OtherException => LastReturn(site, i, caughtOther, inner.context)
  }

  /** Following at every layer the last call of `next` that returned, one comes to a stream. */
  predicate LeadsToStream(site: Site, i: nat, c: Context)
    requires IsOrder(site.order)
    decreases |site.chain| - i
  {
    if i >= |site.chain| then EndOf(site, c.request, FoundNext(c.gate)).StreamHandler?
    else match LastReturn(site, i, site.chain[i], c.(trace := c.trace + [Enter(i)]))
      case None => false
      case Some(inner) => LeadsToStream(site, i + 1, inner)
  }

  /** What `runChain` returns, for every chain. */
  lemma {:induction false} ValueOfChain(site: Site, i: nat, c: Context)
    requires IsOrder(site.order)
    ensures var f := RunChain(site, i, c); f.thrown == Nothing ==> (f.streamed <==> LeadsToStream(site, i, c))
    decreases |site.chain| - i, 1
  {
    if i >= |site.chain| {
      hide StreamOf, Dispatched, FitsOtherMethod;
    } else {
      hide AtTheEnd;
      ValueOfProgram(site, i, site.chain[i], false, c.(trace := c.trace + [Enter(i)]));
    }
  }

  lemma {:induction false} ValueOfProgram(site: Site, i: nat, p: MiddlewareProgram, streamed: bool, c: Context)
    requires IsOrder(site.order) && i < |site.chain|
    ensures var f, last := RunProgram(site, i, p, streamed, c), LastReturn(site, i, p, c);
            f.thrown == Nothing ==>
              f.streamed == match last case None => streamed case Some(inner) => LeadsToStream(site, i + 1, inner)
    decreases |site.chain| - i, 0, p
  {
    hide AtTheEnd, LeadsToStream;
    match p
    case Finish =>
    case Raise(_) =>
    case Edit(change, next) =>
      var (q, r) := change(c.request, c.response);
      ValueOfProgram(site, i, next, streamed, c.(request := q, response := r));
    case Test(condition, yes, no) =>
      ValueOfProgram(site, i, if condition(c.request, c.response) then yes else no, streamed, c);
    case CallNext(returned, caughtStd, caughtOther) =>
      ValueOfChain(site, i + 1, c);
      var inner := RunChain(site, i + 1, c);
      match inner.thrown {
        case Nothing => ValueOfProgram(site, i, returned, inner.streamed, inner.context);
        case StdException => ValueOfProgram(site, i, caughtStd, streamed, inner.context);
        case OtherException => ValueOfProgram(site, i, caughtOther, streamed, inner.context);
      }
  }

  /**
   For every chain: the returned value says whether the connection is gone, exactly unless a
   stream has started somewhere and the last calls of `next` that returned do not lead to one.
   */
  lemma DocumentedMeaningExactly(site: Site, q: Request, k: Kernel, gate: Gate)
    requires IsOrder(site.order)
    ensures var c := Context(q, EmptyResponse, true, k, gate, []);
            var f := RunChain(site, 0, c);
            f.thrown == Nothing ==>
              ((f.streamed <==> !f.context.owned) <==>
               !(FirstStream(f.context.trace).Some? && !LeadsToStream(site, 0, c)))
  {
    hide RunChain, LeadsToStream, IsStream;
    var c := Context(q, EmptyResponse, true, k, gate, []);
    assert FirstStream([]) == None;
    ChainIsSound(site, 0, c, k, gate.turns);
    ValueOfChain(site, 0, c);
  }

  /** Some call of `next`, made by middleware `i` or behind it, ends in an exception. */
  predicate SomeNextThrows(site: Site, i: nat, c: Context)
    requires IsOrder(site.order)
    decreases |site.chain| - i
  {
    && i < |site.chain|
    && match Passes(site.chain[i], c.request, c.response)
       case None => false
       case Some((q, r)) =>
         var inner := c.(request := q, response := r, trace := c.trace + [Enter(i)]);
         RunChain(site, i + 1, inner).thrown != Nothing || SomeNextThrows(site, i + 1, inner)
  }

  /** A middleware that calls `next` at most once leaves the connection and the value as that call left them. */
  lemma {:induction false} OneCallDecides(site: Site, i: nat, p: MiddlewareProgram, streamed: bool, c: Context)
    requires IsOrder(site.order) && i < |site.chain| && CallsNextAtMostOnce(p)
    ensures var f := RunProgram(site, i, p, streamed, c);
            match Passes(p, c.request, c.response)
            case None => f.context.owned == c.owned && (f.thrown == Nothing ==> f.streamed == streamed)
            case Some((q, r)) =>
              var inner := RunChain(site, i + 1, c.(request := q, response := r));
              && f.context.owned == inner.context.owned
              && (f.thrown == Nothing ==> f.streamed == if inner.thrown == Nothing then inner.streamed else streamed)
    decreases p
  {
    hide RunChain;
    match p
    case Finish =>
    case Raise(_) =>
    case Edit(change, next) =>
      var (q, r) := change(c.request, c.response);
      OneCallDecides(site, i, next, streamed, c.(request := q, response := r));
    case Test(condition, yes, no) =>
      OneCallDecides(site, i, if condition(c.request, c.response) then yes else no, streamed, c);
    case CallNext(returned, caughtStd, caughtOther) =>
      var inner := RunChain(site, i + 1, c);
      assert c.(request := c.request, response := c.response) == c;
      match inner.thrown {
        case Nothing => NoNextKeepsOwnership(site, i, returned, inner.streamed, inner.context);
        case StdException => NoNextKeepsOwnership(site, i, caughtStd, streamed, inner.context);
        case OtherException => NoNextKeepsOwnership(site, i, caughtOther, streamed, inner.context);
      }
  }

  /** If every middleware calls `next` at most once, the value is true when the connection is gone and nothing was caught. */
  lemma {:induction false} TrueUnlessCaught(site: Site, i: nat, c: Context)
    requires IsOrder(site.order) && c.owned
    requires forall j :: 0 <= j < |site.chain| ==> CallsNextAtMostOnce(site.chain[j])
    ensures var f := RunChain(site, i, c);
            f.thrown == Nothing ==> (f.streamed <==> !f.context.owned && !SomeNextThrows(site, i, c))
    decreases |site.chain| - i
  {
    if i >= |site.chain| {
      hide StreamOf, Dispatched, EndOf;
    } else {
      hide AtTheEnd, RunProgram;
      var entered := c.(trace := c.trace + [Enter(i)]);
      OneCallDecides(site, i, site.chain[i], false, entered);
      match Passes(site.chain[i], c.request, c.response)
      case None =>
      case Some((q, r)) =>
        var inner := c.(request := q, response := r, trace := c.trace + [Enter(i)]);
        assert entered.(request := q, response := r) == inner;
        TrueUnlessCaught(site, i + 1, inner);
    }
  }

  /**
   If every middleware calls `next` at most once, the value is wrong exactly when the layers, which
   are known before the run, end at a stream and some call of `next` ends in an exception.
   */
  lemma ValueIsWrongExactly(site: Site, q: Request, k: Kernel, gate: Gate)
    requires IsOrder(site.order)
    requires forall j :: 0 <= j < |site.chain| ==> CallsNextAtMostOnce(site.chain[j])
    ensures var c := Context(q, EmptyResponse, true, k, gate, []);
            var f := RunChain(site, 0, c);
            f.thrown == Nothing ==>
              ((f.streamed <==> !f.context.owned) <==>
               !(FirstStream(Layers(site, 0, q, EmptyResponse, FoundNext(gate))).Some? && SomeNextThrows(site, 0, c)))
  {
    hide RunChain, SomeNextThrows, IsStream, Layers;
    var c := Context(q, EmptyResponse, true, k, gate, []);
    assert FirstStream([]) == None;
    ChainIsSound(site, 0, c, k, gate.turns);
    OnionOrder(site, 0, c);
    var layers := Layers(site, 0, q, EmptyResponse, FoundNext(gate));
    assert [] + layers == layers;
    TrueUnlessCaught(site, 0, c);
  }

  /** A stream handler that throws at once. */
  function ThrowingHandler(r: Request): StreamProgram { Throw(StdException) }

  /**
   With recovery in front, the returned value can be wrong: the stream handler throws, the
   connection is gone, and `runChain` returns false.
   */
  lemma RecoveryHidesTheStream(order: Order, c: Context)
    requires IsOrder(order) && c.owned && c.request.verb == Get && c.request.path == "/"
    ensures var site := Site([RECOVERY], [Streaming(Get, "/", ThrowingHandler)], 1, order);
            var f := RunChain(site, 0, c.(gate := Gate([], [])));
            f.thrown == Nothing && !f.streamed && !f.context.owned
  {
    var site := Site([RECOVERY], [Streaming(Get, "/", ThrowingHandler)], 1, order);
    var c' := c.(gate := Gate([], []), trace := c.trace + [Enter(0)]);
    RecoveryContains(site, 0, c.(gate := Gate([], [])));
    assert Fits(site.routes[0], true, Get, "/");
    assert RunChain(site, 1, c') == AtTheEnd(site, c');
    assert AtTheEnd(site, c').thrown == StdException;
  }

  function AsPost(q: Request, r: Response): (Request, Response) {
    (q.(verb := Post), r)
  }

  /** Calls `next`, turns the request into a POST, and calls `next` again. */
  const CALLS_TWICE :=
    CallNext(Edit(AsPost, CallNext(Finish, Raise(StdException), Raise(OtherException))), Raise(StdException), Raise(OtherException))

  function QuietHandler(r: Request): StreamProgram { Return }

  /** Calling `next` twice can make it wrong without any exception: the second call overwrites the first answer. */
  lemma SecondCallHidesTheStream(order: Order, c: Context)
    requires IsOrder(order) && c.owned && c.request.verb == Get && c.request.path == "/"
    ensures var site := Site([CALLS_TWICE], [Streaming(Get, "/", QuietHandler)], 1, order);
            var f := RunChain(site, 0, c.(gate := Gate([], [])));
            f.thrown == Nothing && !f.streamed && !f.context.owned
  {
    hide Dispatched, StreamOf, EndOf, FirstFit, Fits;
    var site := Site([CALLS_TWICE], [Streaming(Get, "/", QuietHandler)], 1, order);
    var c' := c.(gate := Gate([], []), trace := c.trace + [Enter(0)]);
    FirstCallStreams(site, c');
    var first := AtTheEnd(site, c');
    var c2 := first.context.(request := first.context.request.(verb := Post));
    SecondCallDoesNot(site, c2);
    var second := AtTheEnd(site, c2);
    var again := CallNext(Finish, Raise(StdException), Raise(OtherException));
    hide AtTheEnd;
    assert RunChain(site, 1, c') == first && RunChain(site, 1, c2) == second;
    var f := RunProgram(site, 0, CALLS_TWICE, false, c');
    assert f == RunProgram(site, 0, Edit(AsPost, again), true, first.context);
    assert AsPost(first.context.request, first.context.response) == (c2.request, c2.response);
    assert f == RunProgram(site, 0, again, true, c2);
    assert f == RunProgram(site, 0, Finish, false, second.context);
  }

  lemma FirstCallStreams(site: Site, c: Context)
    requires IsOrder(site.order) && c.owned && c.request.verb == Get && c.request.path == "/" && c.gate.found == []
    requires site.routes == [Streaming(Get, "/", QuietHandler)] && site.maxStreams == 1
    ensures var f := AtTheEnd(site, c);
            f.streamed && f.thrown == Nothing && !f.context.owned && f.context.request.verb == Get
  {
    hide EndOf, Preamble;
    assert Matches("/", "/");
    assert Fits(site.routes[0], true, Get, "/");
    assert FirstFit(site.routes, true, Get, "/") == Some(0);
    var bound := WithBindings(c.request, "/");
    assert site.routes[0].streamHandler(bound) == Return;
    assert StreamOf(site, 0, bound, c.response.headers, c.owned, c.kernel).thrown == Nothing;
  }

  lemma SecondCallDoesNot(site: Site, c: Context)
    requires IsOrder(site.order) && !c.owned && c.request.verb == Post
    requires site.routes == [Streaming(Get, "/", QuietHandler)]
    ensures var f := AtTheEnd(site, c); !f.streamed && f.thrown == Nothing && !f.context.owned
  {
    hide EndOf;
  }
}
