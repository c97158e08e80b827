/** Runtime package convergence: the backoff of failed passes, the loop that
    sets readiness, and the gate that readiness opens for commands. */
module Convergence {

  const SECOND := 1_000_000_000
  const FIRST := 15 * SECOND
  const MAX := 900 * SECOND
  const MINUTE := 60 * SECOND

  function Pow2(n: nat): (r: nat)
    ensures r >= 1
  {
    if n == 0 then 1 else 2 * Pow2(n - 1)
  }

  lemma {:induction false} Pow2Grows(m: nat, n: nat)
    requires m <= n
    ensures Pow2(m) <= Pow2(n)
    decreases n
  {
    if m < n { Pow2Grows(m, n - 1); }
  }

  /** min(15 s * 2^(n-1), 15 min). */
  function Delay(failures: nat): int
    requires failures >= 1
  {
    if FIRST * Pow2(failures - 1) < MAX then FIRST * Pow2(failures - 1) else MAX
  }

  /** runtimePackageConvergenceRetryDelay: the doubling loop stops early at the maximum. */
  method RetryDelay(consecutiveFailures: int) returns (delay: int)
    ensures consecutiveFailures >= 1 ==> delay == Delay(consecutiveFailures)
    ensures consecutiveFailures < 1 ==> delay == FIRST
  {
    delay := FIRST;
    var i := 1;
    while i < consecutiveFailures && delay < MAX
      invariant 1 <= i && (consecutiveFailures >= 1 ==> i <= consecutiveFailures)
      invariant consecutiveFailures < 1 ==> i == 1
      invariant delay == FIRST * Pow2(i - 1)
    {
      delay := delay * 2;
      i := i + 1;
    }
    if consecutiveFailures >= 1 { Pow2Grows(i - 1, consecutiveFailures - 1); }
    if delay > MAX { delay := MAX; }
  }

  // ---------------------------------------------------------------- one pass

  /** How EnsureTechstackRuntime ended; a refused candidate leaves the installed runtime as ready as before. */
  datatype Runtime = Ensured | Refused | Broken

  /** `took` is the pass itself and any lateness of the timer before the next one. */
  datatype Pass = Pass(migrated: bool, techstack: Runtime, agentUpdated: bool, stackKitReady: bool, took: nat)

  predicate Restarts(p: Pass) {
    p.migrated || (!p.techstack.Broken? && p.agentUpdated)
  }

  predicate Converged(p: Pass) {
    !Restarts(p) && !p.techstack.Broken? && p.stackKitReady
  }

  // ---------------------------------------------------------------- the loop

  /** `starts` are the times passes began, `readied` the passes after which markReady was called. */
  datatype Loop = Loop(ready: bool, failures: nat, next: int, starts: seq<int>, readied: seq<nat>, stopped: bool)

  function Begin(at: int): Loop {
    Loop(false, 0, at, [], [], false)
  }

  function Interval(configured: int): int {
    if configured < MINUTE then MINUTE else configured
  }

  function After(l: Loop, p: Pass, interval: int): Loop {
    if l.stopped then l
    else if Restarts(p) then l.(starts := l.starts + [l.next], stopped := true)
    else
      var first := Converged(p) && !l.ready;
      var ready := l.ready || first;
      var failures := if first then 0 else if ready then l.failures else l.failures + 1;
      var delay := if ready then Interval(interval) else Delay(failures);
      Loop(ready, failures, l.next + p.took + delay, l.starts + [l.next],
           if first then l.readied + [|l.starts|] else l.readied, false)
  }

  function Exec(at: int, passes: seq<Pass>, interval: int): Loop {
    if passes == [] then Begin(at) else After(Exec(at, passes[..|passes| - 1], interval), passes[|passes| - 1], interval)
  }

  /** convergeRuntimePackages on the outcomes its passes turn out to have. */
  method Converge(at: int, passes: seq<Pass>, interval: int) returns (l: Loop)
    ensures l == Exec(at, passes, interval)
  {
    var every := if interval < MINUTE then MINUTE else interval;
    var ready, failures, next, starts: seq<int>, readied: seq<nat> := false, 0, at, [], [];
    var i := 0;
    while i < |passes|
      invariant 0 <= i <= |passes|
      invariant Loop(ready, failures, next, starts, readied, false) == Exec(at, passes[..i], interval)
    {
      var p := passes[i];
      assert passes[..i + 1][..i] == passes[..i];
      if p.migrated || (!p.techstack.Broken? && p.agentUpdated) {
        l := Loop(ready, failures, next, starts + [next], readied, true);
        StoppedStays(at, passes, i + 1, interval);
        return;
      }
      if !p.techstack.Broken? && p.stackKitReady && !ready {
        ready, failures := true, 0;
        readied := readied + [|starts|];
      }
      starts := starts + [next];
      var delay := every;
      if !ready {
        failures := failures + 1;
        delay := RetryDelay(failures);
      }
      next := next + p.took + delay;
      i := i + 1;
    }
    assert passes[..|passes|] == passes;
    l := Loop(ready, failures, next, starts, readied, false);
  }

  lemma {:induction false} StoppedStays(at: int, passes: seq<Pass>, i: nat, interval: int)
    requires i <= |passes| && Exec(at, passes[..i], interval).stopped
    ensures Exec(at, passes, interval) == Exec(at, passes[..i], interval)
    decreases |passes|
  {
    if i < |passes| {
      assert passes[..|passes| - 1][..i] == passes[..i];
      StoppedStays(at, passes[..|passes| - 1], i, interval);
    } else {
      assert passes[..i] == passes;
    }
  }

  // ---------------------------------------------------------------- how often a failing Guard asks

  /** The earliest start of pass `k` (counted from zero) after k failures: 0, 15, 45, 105, 225, 465, 945 seconds, then
      every 15 minutes. */
  function Earliest(k: nat): int {
    if k == 0 then 0 else Earliest(k - 1) + Delay(k)
  }

  lemma FirstDelays()
    ensures Delay(1) == 15 * SECOND && Delay(2) == 30 * SECOND && Delay(3) == 60 * SECOND && Delay(4) == 120 * SECOND
    ensures Delay(5) == 240 * SECOND && Delay(6) == 480 * SECOND
  {
  }

  lemma LateDelays(n: nat)
    requires n >= 7
    ensures Delay(n) == MAX
  {
    FirstDelays();
    assert Pow2(6) == 2 * Pow2(5) && FIRST * Pow2(5) == 480 * SECOND;
    Pow2Grows(6, n - 1);
  }

  lemma {:induction false} EarliestClosed(k: nat)
    ensures k >= 6 ==> Earliest(k) == 945 * SECOND + MAX * (k - 6)
    ensures k <= 6 ==> Earliest(k) == [0, 15, 45, 105, 225, 465, 945][k] * SECOND
    decreases k
  {
    FirstDelays();
    if k > 0 { EarliestClosed(k - 1); }
    if k >= 7 { LateDelays(k); }
  }

  ghost predicate NeverConverges(passes: seq<Pass>) {
    forall i | 0 <= i < |passes| :: !Converged(passes[i]) && !Restarts(passes[i])
  }

  lemma {:induction false} FailingLoop(at: int, passes: seq<Pass>, interval: int)
    requires NeverConverges(passes)
    ensures var l := Exec(at, passes, interval);
      && !l.ready && !l.stopped && l.failures == |passes| == |l.starts| && l.next >= at + Earliest(|passes|)
      && (forall k | 0 <= k < |passes| :: l.starts[k] >= at + Earliest(k))
      && ((forall k | 0 <= k < |passes| :: passes[k].took == 0) ==>
            l.next == at + Earliest(|passes|) && forall k | 0 <= k < |passes| :: l.starts[k] == at + Earliest(k))
  {
    if passes != [] { FailingLoop(at, passes[..|passes| - 1], interval); }
  }

  lemma QuotientAtLeast(T: nat, q: nat)
    requires T >= MAX * q
    ensures T / MAX >= q
  {
  }

  lemma EarliestBounds(k: nat, T: nat)
    requires Earliest(k) <= T
    ensures k + 1 <= 7 + T / MAX
  {
    EarliestClosed(k);
    if k >= 6 { QuotientAtLeast(T, k - 6); }
  }

  /** Before the first convergence at most 7 + T / 900 s passes start in the first T. */
  lemma {:induction false} PassesAreBounded(at: int, passes: seq<Pass>, interval: int, T: nat, k: nat)
    requires NeverConverges(passes)
    requires k < |Exec(at, passes, interval).starts| && Exec(at, passes, interval).starts[k] <= at + T
    ensures k + 1 <= 7 + T / MAX
  {
    FailingLoop(at, passes, interval);
    EarliestBounds(k, T);
  }

  // ---------------------------------------------------------------- readiness

  /** Readiness is set at most once, after the first pass in which both components are ready. */
  lemma {:induction false} ReadyOnce(at: int, passes: seq<Pass>, interval: int)
    ensures var l := Exec(at, passes, interval);
      && |l.starts| <= |passes| && (!l.stopped ==> |l.starts| == |passes|)
      && |l.readied| <= 1 && (l.ready <==> |l.readied| == 1)
      && (l.ready ==> l.readied[0] < |passes| && Converged(passes[l.readied[0]]))
      && (l.ready ==> forall i | 0 <= i < l.readied[0] :: !Converged(passes[i]))
      && (!l.ready ==> forall i | 0 <= i < |l.starts| :: !Converged(passes[i]))
  {
    if passes != [] { ReadyOnce(at, passes[..|passes| - 1], interval); }
  }

  /** Passes of the loop and commands of the control plane, in the order in which they take effect. */
  datatype Event = PassDone(pass: Pass) | Command(ensured: bool)

  /** The loop so far, its passes with the events they came from, and the events whose command was executed. */
  datatype Guard = Guard(loop: Loop, passes: seq<Pass>, order: seq<nat>, executed: seq<nat>)

  function Served(g: Guard, e: Event, index: nat, interval: int): Guard {
    match e
    case PassDone(p) => g.(loop := After(g.loop, p, interval), passes := g.passes + [p], order := g.order + [index])
    // The ready gate of ExecuteStreaming, then EnsureRuntime.
    case Command(ensured) => if g.loop.ready && ensured then g.(executed := g.executed + [index]) else g
  }

  function Serve(at: int, events: seq<Event>, interval: int): Guard {
    if events == [] then Guard(Begin(at), [], [], [])
    else Served(Serve(at, events[..|events| - 1], interval), events[|events| - 1], |events| - 1, interval)
  }

  /** The passes of `g` are those of the events, in order. */
  ghost predicate Mirrors(g: Guard, events: seq<Event>) {
    |g.order| == |g.passes| &&
    forall j | 0 <= j < |g.passes| :: g.order[j] < |events| && events[g.order[j]] == PassDone(g.passes[j])
  }

  ghost predicate ConvergedBefore(events: seq<Event>, n: nat) {
    n <= |events| && exists i | 0 <= i < n :: events[i].PassDone? && Converged(events[i].pass)
  }

  ghost predicate Gated(g: Guard, events: seq<Event>) {
    forall x | 0 <= x < |g.executed| :: g.executed[x] < |events| && ConvergedBefore(events, g.executed[x])
  }

  lemma ServedLoop(at: int, g: Guard, e: Event, index: nat, interval: int)
    requires g.loop == Exec(at, g.passes, interval)
    ensures Served(g, e, index, interval).loop == Exec(at, Served(g, e, index, interval).passes, interval)
  {
  }

  lemma ConvergedBeforeSnoc(events: seq<Event>, e: Event, n: nat)
    requires ConvergedBefore(events, n)
    ensures ConvergedBefore(events + [e], n)
  {
    var i :| 0 <= i < n && events[i].PassDone? && Converged(events[i].pass);
    assert (events + [e])[i] == events[i];
  }

  lemma ServedGated(at: int, g: Guard, events: seq<Event>, e: Event, interval: int)
    requires g.loop == Exec(at, g.passes, interval) && Mirrors(g, events) && Gated(g, events)
    ensures var g' := Served(g, e, |events|, interval); Mirrors(g', events + [e]) && Gated(g', events + [e])
  {
    var g' := Served(g, e, |events|, interval);
    forall x | 0 <= x < |g'.executed| ensures g'.executed[x] < |events| + 1 && ConvergedBefore(events + [e], g'.executed[x]) {
      if x < |g.executed| {
        ConvergedBeforeSnoc(events, e, g.executed[x]);
      } else {
        ReadyOnce(at, g.passes, interval);
        var i := g.order[g.loop.readied[0]];
        assert events[i] == PassDone(g.passes[g.loop.readied[0]]);
        ConvergedBeforeSnoc(events, e, |events|);
      }
    }
  }

  /** No command executes before a pass in which both components were ready. */
  lemma {:induction false} CommandsWaitForReadiness(at: int, events: seq<Event>, interval: int)
    ensures Serve(at, events, interval).loop == Exec(at, Serve(at, events, interval).passes, interval)
    ensures Mirrors(Serve(at, events, interval), events) && Gated(Serve(at, events, interval), events)
  {
    if events != [] {
      var before, e := events[..|events| - 1], events[|events| - 1];
      CommandsWaitForReadiness(at, before, interval);
      ServedLoop(at, Serve(at, before, interval), e, |before|, interval);
      ServedGated(at, Serve(at, before, interval), before, e, interval);
      assert events == before + [e];
    }
  }
}
