/**
 Admission of streaming connections: any number of worker threads share one atomic counter.
 Each addition and each subtraction is one step; the steps of different threads interleave
 in any order.
 */
module StreamGate {

  // ---------- The cap ----------

  /** `resolveMaxStreamingConnections`: 0 means half of the pool, but at least 1. */
  function ResolveMaxStreams(configured: nat, threadCount: nat): (cap: nat)
    ensures configured != 0 ==> cap == configured
    ensures configured == 0 && threadCount < 2 ==> cap == 1
    ensures configured == 0 && threadCount >= 2 ==> 2 * cap <= threadCount < 2 * cap + 2
    ensures cap >= 1
  {
    if configured != 0 then configured
    else if threadCount / 2 == 0 then 1
    else threadCount / 2
  }

  // ---------- The protocol ----------

  type Thread = nat

  /** Between connections; between a failed addition and its subtraction; inside a stream handler. */
  datatype Phase = Idle | Rejecting | Running

  /** The counter is a `size_t`: it wraps. */
  const WORD: nat := 0x1_0000_0000_0000_0000

  datatype State = State(active: nat, phases: map<Thread, Phase>)

  /** `fetch_add` with its comparison; `fetch_sub` after a rejection; `fetch_sub` of the guard, on return or throw. */
  datatype Action = Arrive(t: Thread) | Withdraw(t: Thread) | Depart(t: Thread)

  predicate CanAct(s: State, a: Action) {
    && a.t in s.phases
    && match a
       case Arrive(t) => s.phases[t].Idle?
       case Withdraw(t) => s.phases[t].Rejecting?
       case Depart(t) => s.phases[t].Running?
  }

  function Next(s: State, a: Action, cap: nat): State
    requires CanAct(s, a)
  {
    match a
    case Arrive(t) => State((s.active + 1) % WORD, s.phases[t := if s.active >= cap then Rejecting else Running])
    case Withdraw(t) => State((s.active + WORD - 1) % WORD, s.phases[t := Idle])
    case Depart(t) => State((s.active + WORD - 1) % WORD, s.phases[t := Idle])
  }

  function InPhase(s: State, p: Phase): set<Thread> {
    set t | t in s.phases && s.phases[t] == p
  }

  ghost predicate Initial(s: State) {
    s.active == 0 && forall t :: t in s.phases ==> s.phases[t].Idle?
  }

  /** A run of a pool with fewer than 2^64 workers: `states[i]` is the state before `actions[i]`. */
  ghost predicate IsRun(states: seq<State>, actions: seq<Action>, cap: nat) {
    && |states| == |actions| + 1
    && Initial(states[0]) && |states[0].phases| < WORD
    && forall i :: 0 <= i < |actions| ==> CanAct(states[i], actions[i]) && states[i + 1] == Next(states[i], actions[i], cap)
  }

  // ---------- What every run keeps ----------

  /** The counter counts the running streams and the threads that are about to take their addition back. */
  ghost predicate Inv(s: State, cap: nat) {
    && |s.phases| < WORD
    && s.active == |InPhase(s, Running)| + |InPhase(s, Rejecting)|
    && |InPhase(s, Running)| <= cap
  }

  lemma MovePhase(s: State, t: Thread, from: Phase, to: Phase, active: nat)
    requires t in s.phases && s.phases[t] == from && from != to
    ensures var s' := State(active, s.phases[t := to]);
            && InPhase(s', to) == InPhase(s, to) + {t} && t !in InPhase(s, to)
            && InPhase(s', from) == InPhase(s, from) - {t} && t in InPhase(s, from)
            && (forall p :: p != from && p != to ==> InPhase(s', p) == InPhase(s, p))
            && |InPhase(s', to)| == |InPhase(s, to)| + 1 && |InPhase(s', from)| == |InPhase(s, from)| - 1
            && s'.phases.Keys == s.phases.Keys && |s'.phases| == |s.phases|
  {
    var s' := State(active, s.phases[t := to]);
    assert InPhase(s', to) == InPhase(s, to) + {t} && InPhase(s', from) == InPhase(s, from) - {t};
    assert s'.phases.Keys == s.phases.Keys;
    assert |s'.phases| == |s'.phases.Keys| && |s.phases| == |s.phases.Keys|;
  }

  /** Fewer threads in a phase than workers, and none missing. */
  lemma PhasesPartition(s: State)
    ensures |InPhase(s, Idle)| + |InPhase(s, Running)| + |InPhase(s, Rejecting)| == |s.phases|
  {
    var i, r, j := InPhase(s, Idle), InPhase(s, Running), InPhase(s, Rejecting);
    assert i + r + j == s.phases.Keys;
    assert |i + r| == |i| + |r|;
    assert |i + r + j| == |i + r| + |j|;
    assert |s.phases| == |s.phases.Keys|;
  }

  /** One step by any thread keeps the invariant, and the counter neither overflows nor underflows. */
  lemma StepKeepsInv(s: State, a: Action, cap: nat)
    requires Inv(s, cap) && CanAct(s, a)
    ensures Inv(Next(s, a, cap), cap)
    ensures Next(s, a, cap).active == if a.Arrive? then s.active + 1 else s.active - 1
    ensures Next(s, a, cap).phases.Keys == s.phases.Keys
  {
    hide InPhase;
    var s' := Next(s, a, cap);
    PhasesPartition(s);
    MovePhase(s, a.t, s.phases[a.t], s'.phases[a.t], s'.active);
  }

  /** The invariant holds at every moment of every run. */
  lemma {:induction false} RunKeepsInv(states: seq<State>, actions: seq<Action>, cap: nat, i: nat)
    requires IsRun(states, actions, cap) && i < |states|
    ensures Inv(states[i], cap) && states[i].phases.Keys == states[0].phases.Keys
  {
    if i == 0 {
      assert InPhase(states[0], Running) == {} && InPhase(states[0], Rejecting) == {};
    } else {
      RunKeepsInv(states, actions, cap, i - 1);
      StepKeepsInv(states[i - 1], actions[i - 1], cap);
    }
  }

  /** When every stream has finished or thrown and every rejection is over, the counter is back at 0, and only then. */
  lemma ReturnsToZero(states: seq<State>, actions: seq<Action>, cap: nat, i: nat)
    requires IsRun(states, actions, cap) && i < |states|
    ensures states[i].active == 0 <==> forall t :: t in states[i].phases ==> states[i].phases[t].Idle?
  {
    RunKeepsInv(states, actions, cap, i);
    var s := states[i];
    if forall t :: t in s.phases ==> s.phases[t].Idle? {
      assert InPhase(s, Running) == {} && InPhase(s, Rejecting) == {};
    }
    if s.active == 0 {
      forall t | t in s.phases
        ensures s.phases[t].Idle?
      {
        assert t !in InPhase(s, Running) && t !in InPhase(s, Rejecting);
      }
    }
  }

  /** With the automatic cap and at least two workers, at least half of the pool never holds a stream. */
  lemma HalfThePoolIsFree(states: seq<State>, actions: seq<Action>, i: nat)
    requires i < |states|
    requires |states[0].phases| >= 2 && IsRun(states, actions, ResolveMaxStreams(0, |states[0].phases|))
    ensures 2 * |InPhase(states[i], Running)| <= |states[i].phases|
    ensures |states[i].phases| == |states[0].phases|
  {
    RunKeepsInv(states, actions, ResolveMaxStreams(0, |states[0].phases|), i);
    assert |states[i].phases| == |states[i].phases.Keys| && |states[0].phases| == |states[0].phases.Keys|;
  }

  // ---------- The cap is reached ----------

  /** One more step of a run. */
  lemma Extend(states: seq<State>, actions: seq<Action>, cap: nat, a: Action)
    requires IsRun(states, actions, cap) && CanAct(states[|actions|], a)
    ensures IsRun(states + [Next(states[|actions|], a, cap)], actions + [a], cap)
  {
    hide Next, CanAct, Initial;
  }

  /** A pool of `m` idle workers. */
  function Pool(m: nat): (phases: map<Thread, Phase>)
    ensures forall t: Thread :: t in phases <==> t < m
    ensures forall t: Thread :: t in phases ==> phases[t].Idle?
  {
    if m == 0 then map[] else Pool(m - 1)[m - 1 := Idle]
  }

  lemma {:induction false} PoolSize(m: nat)
    ensures |Pool(m)| == m
  {
    if m > 0 {
      PoolSize(m - 1);
      assert Pool(m).Keys == Pool(m - 1).Keys + {m - 1};
      assert |Pool(m)| == |Pool(m).Keys| && |Pool(m - 1)| == |Pool(m - 1).Keys|;
    }
  }

  lemma OneArrives(s: State, t: Thread, cap: nat)
    requires t in s.phases && s.phases[t].Idle? && s.active < cap && s.active + 1 < WORD
    ensures CanAct(s, Arrive(t))
    ensures var s' := Next(s, Arrive(t), cap);
            && s' == State(s.active + 1, s.phases[t := Running])
            && |InPhase(s', Running)| == |InPhase(s, Running)| + 1
  {
    hide InPhase;
    MovePhase(s, t, Idle, Running, s.active + 1);
  }

  ghost predicate IdleFrom(s: State, n: nat, m: nat) {
    forall t: Thread :: n <= t < m ==> t in s.phases && s.phases[t].Idle?
  }

  /** The first `n` workers arrive, one after the other. */
  lemma {:induction false} FillSlots(m: nat, n: nat, cap: nat) returns (states: seq<State>, actions: seq<Action>)
    requires n <= m < WORD && n <= cap
    ensures IsRun(states, actions, cap) && |actions| == n && states[0].phases == Pool(m)
    ensures states[n].active == n && |InPhase(states[n], Running)| == n
    ensures IdleFrom(states[n], n, m)
  {
    if n == 0 {
      PoolSize(m);
      states, actions := [State(0, Pool(m))], [];
      assert InPhase(states[0], Running) == {};
    } else {
      hide InPhase, Initial, Next, CanAct, Pool;
      states, actions := FillSlots(m, n - 1, cap);
      var s := states[n - 1];
      OneArrives(s, n - 1, cap);
      Extend(states, actions, cap, Arrive(n - 1));
      states, actions := states + [Next(s, Arrive(n - 1), cap)], actions + [Arrive(n - 1)];
    }
  }

  /**
   A configured cap means what it says, if there are as many workers: in some run that many streams
   run at once, and in no run ever more.
   */
  lemma ConfiguredCapIsExact(configured: nat, threadCount: nat) returns (states: seq<State>, actions: seq<Action>)
    requires 0 < configured <= threadCount < WORD
    ensures IsRun(states, actions, ResolveMaxStreams(configured, threadCount))
    ensures |states[0].phases| == threadCount && |InPhase(states[|actions|], Running)| == configured
    ensures forall ss, acts, i :: IsRun(ss, acts, ResolveMaxStreams(configured, threadCount)) && 0 <= i < |ss| ==>
              |InPhase(ss[i], Running)| <= configured
  {
    hide IsRun, InPhase;
    states, actions := FillSlots(threadCount, configured, configured);
    PoolSize(threadCount);
    forall ss, acts, i | IsRun(ss, acts, configured) && 0 <= i < |ss|
      ensures |InPhase(ss[i], Running)| <= configured
    {
      RunKeepsInv(ss, acts, configured, i);
    }
  }

  // ---------- When a thread is turned away ----------

  ghost predicate TurnsAway(s: State, a: Action, cap: nat) {
    a.Arrive? && s.active >= cap
  }

  /**
   A rejection has a cause.  Some time before it (or at that very moment) all the slots were
   really taken, and ever since then some thread has been about to take an addition back.
   */
  lemma {:induction false} RejectionHasCause(states: seq<State>, actions: seq<Action>, cap: nat, i: nat) returns (j: nat)
    requires IsRun(states, actions, cap) && i < |actions|
    requires TurnsAway(states[i], actions[i], cap)
    ensures j <= i && |InPhase(states[j], Running)| == cap
    ensures forall k :: j < k <= i ==> InPhase(states[k], Rejecting) != {}
  {
    RunKeepsInv(states, actions, cap, i);
    if InPhase(states[i], Rejecting) == {} {
      return i;
    }
    j := LastQuiet(states, actions, cap, i);
    RunKeepsInv(states, actions, cap, j);
    OnlyRejectionsReject(states[j], actions[j], cap);
    assert states[j + 1] == Next(states[j], actions[j], cap) && InPhase(states[j + 1], Rejecting) != {};
    assert TurnsAway(states[j], actions[j], cap);
  }

  lemma OnlyRejectionsReject(s: State, a: Action, cap: nat)
    requires CanAct(s, a)
    ensures !TurnsAway(s, a, cap) ==> InPhase(Next(s, a, cap), Rejecting) <= InPhase(s, Rejecting)
  {
  }

  /** The last moment before `i` at which no thread was between an addition and its withdrawal. */
  lemma {:induction false} LastQuiet(states: seq<State>, actions: seq<Action>, cap: nat, i: nat) returns (j: nat)
    requires IsRun(states, actions, cap) && i < |states| && InPhase(states[i], Rejecting) != {}
    ensures j < i && InPhase(states[j], Rejecting) == {}
    ensures forall k :: j < k <= i ==> InPhase(states[k], Rejecting) != {}
  {
    assert InPhase(states[0], Rejecting) == {};
    if InPhase(states[i - 1], Rejecting) == {} {
      j := i - 1;
    } else {
      j := LastQuiet(states, actions, cap, i - 1);
    }
  }

  /** In a run in which the slots are never all taken, no thread is ever turned away. */
  lemma NoRejectionWithoutSaturation(states: seq<State>, actions: seq<Action>, cap: nat)
    requires IsRun(states, actions, cap)
    requires forall i :: 0 <= i < |states| ==> |InPhase(states[i], Running)| < cap
    ensures forall i :: 0 <= i < |actions| ==> !TurnsAway(states[i], actions[i], cap)
  {
    forall i | 0 <= i < |actions|
      ensures !TurnsAway(states[i], actions[i], cap)
    {
      if TurnsAway(states[i], actions[i], cap) {
        var j := RejectionHasCause(states, actions, cap, i);
      }
    }
  }

  // ---------- One thread's part ----------

  /** What a thread does at the counter: an addition and what it found, and either kind of subtraction. */
  datatype Turn = Arrived(found: nat) | Withdrew | Departed

  /** Addition and subtraction in turn, the subtraction a withdrawal exactly if the addition found the slots taken. */
  predicate AreTurns(ts: seq<Turn>, cap: nat) {
    ts == []
    || (&& |ts| >= 2 && AreTurns(ts[..|ts| - 2], cap)
        && ts[|ts| - 2].Arrived?
        && ts[|ts| - 1] == if ts[|ts| - 2].found >= cap then Withdrew else Departed)
  }

  lemma OneMoreTurn(ts: seq<Turn>, found: nat, cap: nat)
    requires AreTurns(ts, cap)
    ensures AreTurns(ts + [Arrived(found), if found >= cap then Withdrew else Departed], cap)
  {
    var more := ts + [Arrived(found), if found >= cap then Withdrew else Departed];
    assert more[..|more| - 2] == ts;
  }

  /** As many subtractions as additions. */
  lemma {:induction false} TurnsBalance(ts: seq<Turn>, cap: nat)
    requires AreTurns(ts, cap)
    ensures |ts| % 2 == 0
    ensures forall k :: 0 <= k < |ts| ==> (ts[k].Arrived? <==> k % 2 == 0)
  {
    if ts != [] {
      var front := ts[..|ts| - 2];
      TurnsBalance(front, cap);
      assert forall k :: 0 <= k < |front| ==> front[k] == ts[k];
    }
  }

  /** The turns of thread `t` within the first `i` steps of a run. */
  function TurnsOf(t: Thread, states: seq<State>, actions: seq<Action>, i: nat): seq<Turn>
    requires i <= |actions| && |states| == |actions| + 1
  {
    if i == 0 then []
    else
      var before, a := TurnsOf(t, states, actions, i - 1), actions[i - 1];
      if a.t != t then before
      else before + [match a
                     case Arrive(_) => Arrived(states[i - 1].active)
                     case Withdraw(_) => Withdrew
                     case Depart(_) => Departed]
  }

  /** In between its turns a thread is idle; in the middle of one it streams or is about to withdraw, as the addition said. */
  ghost predicate InTurn(ts: seq<Turn>, phase: Phase, cap: nat) {
    match phase
    case Idle => AreTurns(ts, cap)
    case _ =>
      var last := |ts| - 1;
      last >= 0 && AreTurns(ts[..last], cap) && ts[last].Arrived? && (ts[last].found >= cap <==> phase.Rejecting?)
  }

  lemma TurnBegins(before: seq<Turn>, found: nat, cap: nat)
    requires InTurn(before, Idle, cap)
    ensures InTurn(before + [Arrived(found)], if found >= cap then Rejecting else Running, cap)
  {
    hide AreTurns;
    assert (before + [Arrived(found)])[..|before|] == before;
  }

  lemma TurnEnds(before: seq<Turn>, phase: Phase, cap: nat)
    requires InTurn(before, phase, cap) && phase != Idle
    ensures InTurn(before + [if phase.Rejecting? then Withdrew else Departed], Idle, cap)
  {
    hide AreTurns;
    var n := |before| - 1;
    OneMoreTurn(before[..n], before[n].found, cap);
    var last := if phase.Rejecting? then Withdrew else Departed;
    assert before + [last] == before[..n] + [before[n], last];
  }

  /** In every run every thread takes turns, and its phase is where its turns have got to. */
  lemma {:induction false} ThreadsTakeTurns(t: Thread, states: seq<State>, actions: seq<Action>, cap: nat, i: nat)
    requires IsRun(states, actions, cap) && i <= |actions| && t in states[0].phases
    ensures t in states[i].phases && InTurn(TurnsOf(t, states, actions, i), states[i].phases[t], cap)
  {
    if i > 0 {
      hide InTurn, Initial;
      ThreadsTakeTurns(t, states, actions, cap, i - 1);
      var before, a := TurnsOf(t, states, actions, i - 1), actions[i - 1];
      if a.t == t {
        match a
        case Arrive(_) => TurnBegins(before, states[i - 1].active, cap);
        case _ => TurnEnds(before, states[i - 1].phases[t], cap);
      }
    } else {
      assert AreTurns([], cap);
    }
  }

  // ---------- Exactly who is turned away ----------

  /** While no withdrawal is pending, exactly the arrivals that find all slots taken are turned away. */
  lemma RejectedExactly(states: seq<State>, actions: seq<Action>, cap: nat, i: nat)
    requires IsRun(states, actions, cap) && i < |actions| && actions[i].Arrive?
    ensures TurnsAway(states[i], actions[i], cap) <==>
            |InPhase(states[i], Running)| + |InPhase(states[i], Rejecting)| >= cap
    ensures InPhase(states[i], Rejecting) == {} ==>
              (TurnsAway(states[i], actions[i], cap) <==> |InPhase(states[i], Running)| == cap)
  {
    RunKeepsInv(states, actions, cap, i);
  }

  /**
   A pending withdrawal can turn a thread away although every slot is free: thread 0 streams,
   thread 1 is being rejected, thread 0 departs, thread 2 arrives.
   */
  lemma PendingWithdrawalTurnsAway() returns (states: seq<State>, actions: seq<Action>)
    ensures IsRun(states, actions, 1) && |actions| == 4
    ensures InPhase(states[3], Running) == {} && TurnsAway(states[3], actions[3], 1)
  {
    hide IsRun, InPhase;
    var s0 := State(0, map[0 := Idle, 1 := Idle, 2 := Idle]);
    ThreeWorkers(s0);
    var s1 := Next(s0, Arrive(0), 1);
    var s2 := Next(s1, Arrive(1), 1);
    var s3 := Next(s2, Depart(0), 1);
    NobodyRuns(s3);
    Extend([s0], [], 1, Arrive(0));
    Extend([s0] + [s1], [] + [Arrive(0)], 1, Arrive(1));
    Extend([s0] + [s1] + [s2], [] + [Arrive(0)] + [Arrive(1)], 1, Depart(0));
    Extend([s0] + [s1] + [s2] + [s3], [] + [Arrive(0)] + [Arrive(1)] + [Depart(0)], 1, Arrive(2));
    states := [s0] + [s1] + [s2] + [s3] + [Next(s3, Arrive(2), 1)];
    actions := [] + [Arrive(0)] + [Arrive(1)] + [Depart(0)] + [Arrive(2)];
  }

  lemma NobodyRuns(s: State)
    requires forall t :: t in s.phases ==> !s.phases[t].Running?
    ensures InPhase(s, Running) == {}
  {
  }

  lemma ThreeWorkers(s0: State)
    requires s0 == State(0, map[0 := Idle, 1 := Idle, 2 := Idle])
    ensures IsRun([s0], [], 1)
  {
    assert |s0.phases| == |s0.phases.Keys| && s0.phases.Keys == {0, 1, 2};
  }
}
