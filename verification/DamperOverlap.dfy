/** The damper with overlapping requests: a request is admitted, its token or
    proof is evaluated, and its failure is counted, with other requests in
    between. At most `c` requests are between admission and failure at once. */
module DamperOverlap {
  import opened Common
  import opened Damper

  /** Requests in flight, each with whether it has been evaluated. */
  datatype Routes = Routes(count: Count, flying: map<nat, bool>)

  datatype Event = Admit(id: nat, at: int) | Evaluate(id: nat, at: int) | Fail(id: nat, at: int)

  function Step(r: Routes, e: Event): Routes {
    match e
    case Admit(id, at) => if id !in r.flying && Allows(r.count, at) then r.(flying := r.flying[id := false]) else r
    case Evaluate(id, _) => if id in r.flying then r.(flying := r.flying[id := true]) else r
    case Fail(id, at) => if id in r.flying && r.flying[id] then Routes(Failed(r.count, at), r.flying - {id}) else r
  }

  predicate Evaluates(r: Routes, e: Event) {
    e.Evaluate? && e.id in r.flying && !r.flying[e.id]
  }

  /** How many wrong tokens or proofs are evaluated between `lo` and `hi`. */
  function Evaluations(r: Routes, events: seq<Event>, lo: int, hi: int): nat
    decreases |events|
  {
    if events == [] then 0
    else (if Evaluates(r, events[0]) && lo <= events[0].at <= hi then 1 else 0) + Evaluations(Step(r, events[0]), events[1..], lo, hi)
  }

  /** A non-decreasing clock and never more than `c` requests in flight. */
  ghost predicate Run(r: Routes, events: seq<Event>, from: int, c: nat)
    decreases |events|
  {
    |r.flying| <= c && (events == [] || (from <= events[0].at && Run(Step(r, events[0]), events[1..], events[0].at, c)))
  }

  function Evaluated(r: Routes): set<nat> {
    set id | id in r.flying && r.flying[id]
  }

  /** A cooldown is at most a minute ahead, and the count is below the limit. */
  ghost predicate Settled(r: Routes, from: int) {
    r.count.failures < MAX_FAILURES && (r.count.blockedUntil.Some? ==> r.count.blockedUntil.value <= from + COOLDOWN)
  }

  // ---------------------------------------------------------------- the two budgets

  /** Whole minutes from `from` to `hi`. */
  function Minutes(from: int, hi: int): nat {
    if from > hi then 0 else (hi - from) / COOLDOWN
  }

  /** How many failures one minute takes: the fifth one starts the cooldown, and of the requests it finds in flight each
      full five more. The rest, at most four, are counted once for the whole time. */
  function PerMinute(c: nat): nat {
    if c == 0 then 0 else MAX_FAILURES * ((c - 1) / MAX_FAILURES + 1)
  }

  function Once(c: nat): nat {
    if c == 0 then 0 else (c - 1) % MAX_FAILURES
  }

  /** The most in `k` whole minutes and the moment after them. */
  function Most(c: nat, k: nat): nat {
    PerMinute(c) * (k + 1) + Once(c)
  }

  lemma MostAtOnce(c: nat)
    requires c >= 1
    ensures PerMinute(c) + Once(c) == c + MAX_FAILURES - 1 && PerMinute(c) >= MAX_FAILURES
  {
  }

  lemma MostGrows(c: nat, j: nat, k: nat)
    requires j <= k
    ensures Most(c, j) <= Most(c, k) && Most(c, k + 1) == Most(c, k) + PerMinute(c)
  {
    TimesMonotone(PerMinute(c), j + 1, k + 1);
  }

  lemma TimesMonotone(w: nat, a: nat, b: nat)
    requires a <= b
    ensures w * a <= w * b
  {
  }

  lemma MinutesShrink(from: int, later: int, hi: int)
    requires from <= later
    ensures Minutes(later, hi) <= Minutes(from, hi)
  {
  }

  lemma MostShrinks(c: nat, from: int, later: int, hi: int)
    requires from <= later
    ensures Most(c, Minutes(later, hi)) <= Most(c, Minutes(from, hi))
  {
    MinutesShrink(from, later, hi);
    MostGrows(c, Minutes(later, hi), Minutes(from, hi));
  }

  /** What can be counted once a cooldown runs until `open`, with `due` failures counted or in flight: these alone if it
      outlasts the window; otherwise each full five of them, and then as from `open` on. */
  function Cooling(c: nat, due: nat, open: int, hi: int): nat {
    if open > hi then due else due / MAX_FAILURES * MAX_FAILURES + Most(c, Minutes(open, hi))
  }

  lemma CoolingAtLeast(c: nat, due: nat, open: int, hi: int)
    requires c >= 1
    ensures due <= Cooling(c, due, open, hi) && (open <= hi ==> Most(c, Minutes(open, hi)) <= Cooling(c, due, open, hi))
  {
    MostAtOnce(c);
    MostGrows(c, 0, Minutes(open, hi));
  }

  /** The fifth failure: five are counted, and a cooldown that ends no earlier begins. */
  lemma CoolsAgain(c: nat, flying: nat, open: int, later: int, hi: int)
    requires c >= 1 && flying >= 1 && open <= later
    ensures MAX_FAILURES + Cooling(c, flying - 1, later, hi) <= Cooling(c, flying + MAX_FAILURES - 1, open, hi)
  {
    var due := flying + MAX_FAILURES - 1;
    assert due / MAX_FAILURES == (flying - 1) / MAX_FAILURES + 1;
    if later <= hi {
      MostShrinks(c, open, later, hi);
    } else if open <= hi {
      MostAtOnce(c);
      MostGrows(c, 0, Minutes(open, hi));
    }
  }

  /** The first cooldown of a minute. */
  lemma StartsCooling(c: nat, flying: nat, now: int, hi: int)
    requires 1 <= flying <= c
    ensures MAX_FAILURES + Cooling(c, flying - 1, now + COOLDOWN, hi) <= Most(c, Minutes(now, hi))
  {
    MostAtOnce(c);
    if now + COOLDOWN <= hi {
      assert Minutes(now, hi) == Minutes(now + COOLDOWN, hi) + 1;
      MostGrows(c, Minutes(now + COOLDOWN, hi), Minutes(now + COOLDOWN, hi));
      assert (flying - 1) / MAX_FAILURES <= (c - 1) / MAX_FAILURES;
    } else {
      MostGrows(c, 0, Minutes(now, hi));
    }
  }

  // ---------------------------------------------------------------- every run

  /** The failures counted so far, those in flight that are evaluated, and what is evaluated from here on are within
      both budgets. */
  ghost predicate Within(r: Routes, events: seq<Event>, from: int, lo: int, hi: int, c: nat) {
    var n := r.count.failures + |Evaluated(r)| + Evaluations(r, events, lo, hi);
    && n <= Most(c, Minutes(from, hi))
    && (r.count.blockedUntil.Some? ==> n <= Cooling(c, r.count.failures + |r.flying|, r.count.blockedUntil.value, hi))
  }

  lemma EvaluatedIsFlying(r: Routes)
    ensures |Evaluated(r)| <= |r.flying|
  {
    SubsetCard(Evaluated(r), r.flying.Keys);
  }

  lemma {:induction false} NothingAfter(r: Routes, events: seq<Event>, from: int, lo: int, hi: int, c: nat)
    requires Run(r, events, from, c) && from > hi
    ensures Evaluations(r, events, lo, hi) == 0
    decreases |events|
  {
    if events != [] { NothingAfter(Step(r, events[0]), events[1..], events[0].at, lo, hi, c); }
  }

  lemma EndIsWithin(r: Routes, from: int, lo: int, hi: int, c: nat)
    requires c >= 1 && |r.flying| <= c && Settled(r, from)
    ensures Within(r, [], from, lo, hi, c)
  {
    EvaluatedIsFlying(r);
    MostAtOnce(c);
    MostGrows(c, 0, Minutes(from, hi));
    if r.count.blockedUntil.Some? { CoolingAtLeast(c, r.count.failures + |r.flying|, r.count.blockedUntil.value, hi); }
  }

  lemma AdmitIsWithin(r: Routes, events: seq<Event>, from: int, lo: int, hi: int, c: nat)
    requires c >= 1 && events != [] && events[0].Admit? && Run(r, events, from, c)
    requires Within(Step(r, events[0]), events[1..], events[0].at, lo, hi, c)
    ensures Within(r, events, from, lo, hi, c)
  {
    var e, r' := events[0], Step(r, events[0]);
    MostShrinks(c, from, e.at, hi);
    assert Evaluated(r') == Evaluated(r);
    if r' != r && r.count.blockedUntil.Some? {
      var open := r.count.blockedUntil.value;
      CoolingAtLeast(c, r.count.failures + |r.flying|, open, hi);
      if e.at <= hi {
        MostShrinks(c, open, e.at, hi);
      } else {
        EvaluatedIsFlying(r);
        NothingAfter(r', events[1..], e.at, lo, hi, c);
      }
    }
  }

  lemma EvaluateIsWithin(r: Routes, events: seq<Event>, from: int, lo: int, hi: int, c: nat)
    requires events != [] && events[0].Evaluate? && Run(r, events, from, c)
    requires Within(Step(r, events[0]), events[1..], events[0].at, lo, hi, c)
    ensures Within(r, events, from, lo, hi, c)
  {
    var e, r' := events[0], Step(r, events[0]);
    MostShrinks(c, from, e.at, hi);
    if Evaluates(r, e) {
      assert r'.flying.Keys == r.flying.Keys;
      assert |r'.flying| == |r'.flying.Keys| == |r.flying|;
      assert Evaluated(r') == Evaluated(r) + {e.id} && e.id !in Evaluated(r);
    } else if e.id in r.flying {
      assert r'.flying == r.flying;
    }
  }

  lemma FailIsWithin(r: Routes, events: seq<Event>, from: int, lo: int, hi: int, c: nat)
    requires c >= 1 && events != [] && events[0].Fail? && Run(r, events, from, c) && Settled(r, from)
    requires Within(Step(r, events[0]), events[1..], events[0].at, lo, hi, c)
    ensures Within(r, events, from, lo, hi, c)
  {
    var e, r' := events[0], Step(r, events[0]);
    MostShrinks(c, from, e.at, hi);
    if r' != r {
      assert r'.flying.Keys == r.flying.Keys - {e.id};
      assert |r'.flying| == |r'.flying.Keys| == |r.flying| - 1;
      assert Evaluated(r') == Evaluated(r) - {e.id} && e.id in Evaluated(r);
      assert |Evaluated(r')| == |Evaluated(r)| - 1;
      if r.count.failures + 1 >= MAX_FAILURES {
        StartsCooling(c, |r.flying|, e.at, hi);
        if r.count.blockedUntil.Some? { CoolsAgain(c, |r.flying|, r.count.blockedUntil.value, e.at + COOLDOWN, hi); }
      }
    }
  }

  lemma {:induction false} EveryRunIsWithin(r: Routes, events: seq<Event>, from: int, lo: int, hi: int, c: nat)
    requires c >= 1 && Run(r, events, from, c) && Settled(r, from)
    ensures Within(r, events, from, lo, hi, c)
    decreases |events|
  {
    if events == [] {
      EndIsWithin(r, from, lo, hi, c);
    } else {
      EveryRunIsWithin(Step(r, events[0]), events[1..], events[0].at, lo, hi, c);
      match events[0]
      case Admit(_, _) => AdmitIsWithin(r, events, from, lo, hi, c);
      case Evaluate(_, _) => EvaluateIsWithin(r, events, from, lo, hi, c);
      case Fail(_, _) => FailIsWithin(r, events, from, lo, hi, c);
    }
  }

  lemma {:induction false} NobodyEvaluates(r: Routes, events: seq<Event>, from: int, lo: int, hi: int)
    requires Run(r, events, from, 0)
    ensures Evaluations(r, events, lo, hi) == 0
    decreases |events|
  {
    if events != [] { NobodyEvaluates(Step(r, events[0]), events[1..], events[0].at, lo, hi); }
  }

  /** Without a success and with at most `c` requests in flight, at most 5 * ((c - 1) / 5 + 1) * (T / 60 s + 1) and then
      (c - 1) % 5 wrong tokens or proofs are evaluated in any window of length T, whatever happened before. Up to five
      requests in flight cost no more per minute than one. */
  lemma {:induction false} OverlappingAttemptsAreBounded(r: Routes, events: seq<Event>, from: int, lo: int, T: nat, c: nat)
    requires Run(r, events, from, c) && Settled(r, from)
    ensures Evaluations(r, events, lo, lo + T) <= Most(c, T / COOLDOWN)
    decreases |events|
  {
    if c == 0 {
      NobodyEvaluates(r, events, from, lo, lo + T);
    } else if events != [] && events[0].at < lo {
      OverlappingAttemptsAreBounded(Step(r, events[0]), events[1..], events[0].at, lo, T, c);
    } else {
      var start := if from > lo then from else lo;
      EveryRunIsWithin(r, events, start, lo, lo + T, c);
      MostShrinks(c, lo, start, lo + T);
      assert Minutes(lo, lo + T) == T / COOLDOWN;
    }
  }

  // ---------------------------------------------------------------- the bound is attained

  /** The first `admitted` requests, the first `evaluated` of them evaluated. */
  function Flights(admitted: nat, evaluated: nat): map<nat, bool> {
    if admitted == 0 then map[] else Flights(admitted - 1, evaluated)[admitted - 1 := admitted - 1 < evaluated]
  }

  lemma {:induction false} FlightsAre(admitted: nat, evaluated: nat)
    ensures forall i: nat :: i in Flights(admitted, evaluated) <==> i < admitted
    ensures forall i: nat | i < admitted :: Flights(admitted, evaluated)[i] == (i < evaluated)
    ensures |Flights(admitted, evaluated)| == admitted
    decreases admitted
  {
    if admitted > 0 { FlightsAre(admitted - 1, evaluated); }
  }

  /** `n` failures at one time. */
  function FailedTimes(d: Count, n: nat, t: int): Count
    decreases n
  {
    if n == 0 then d else FailedTimes(Failed(d, t), n - 1, t)
  }

  lemma {:induction false} FailedTimesAre(d: Count, n: nat, t: int)
    requires d.failures < MAX_FAILURES
    ensures FailedTimes(d, n, t).failures == (d.failures + n) % MAX_FAILURES
    ensures FailedTimes(d, n, t).blockedUntil == if d.failures + n >= MAX_FAILURES then Some(t + COOLDOWN) else d.blockedUntil
    decreases n
  {
    if n > 0 { FailedTimesAre(Failed(d, t), n - 1, t); }
  }

  /** Some run from time `t` on has `n` evaluations up to `hi`. */
  ghost predicate Can(r: Routes, t: int, hi: int, c: nat, n: nat) {
    exists events :: Run(r, events, t, c) && Evaluations(r, events, 0, hi) == n
  }

  lemma Nothing(r: Routes, t: int, hi: int, c: nat)
    requires |r.flying| <= c
    ensures Can(r, t, hi, c, 0)
  {
    assert Run(r, [], t, c) && Evaluations(r, [], 0, hi) == 0;
  }

  lemma First(r: Routes, e: Event, hi: int, c: nat, n: nat)
    requires |r.flying| <= c && 0 <= e.at <= hi && Can(Step(r, e), e.at, hi, c, n)
    ensures Can(r, e.at, hi, c, n + if Evaluates(r, e) then 1 else 0)
  {
    var rest :| Run(Step(r, e), rest, e.at, c) && Evaluations(Step(r, e), rest, 0, hi) == n;
    var events := [e] + rest;
    assert events[1..] == rest;
    assert Run(r, events, e.at, c);
  }

  lemma Earlier(r: Routes, t: int, later: int, hi: int, c: nat, n: nat)
    requires Can(r, later, hi, c, n) && t <= later
    ensures Can(r, t, hi, c, n)
  {
    var events :| Run(r, events, later, c) && Evaluations(r, events, 0, hi) == n;
    assert Run(r, events, t, c);
  }

  lemma NextFail(d: Count, k: nat, t: int)
    requires k >= 1
    ensures Step(Routes(d, Flights(k, k)), Fail(k - 1, t)) == Routes(Failed(d, t), Flights(k - 1, k - 1)) && |Flights(k, k)| == k
  {
    FlightsAre(k, k);
    FlightsAre(k - 1, k - 1);
    assert Flights(k, k) - {k - 1} == Flights(k - 1, k - 1);
  }

  lemma NextCheck(d: Count, m: nat, k: nat, t: int)
    requires k < m
    ensures Evaluates(Routes(d, Flights(m, k)), Evaluate(k, t)) && |Flights(m, k)| == m
    ensures Step(Routes(d, Flights(m, k)), Evaluate(k, t)) == Routes(d, Flights(m, k + 1))
  {
    FlightsAre(m, k);
    FlightsAre(m, k + 1);
    assert Flights(m, k)[k := true] == Flights(m, k + 1);
  }

  lemma NextAdmission(d: Count, k: nat, t: int)
    requires Allows(d, t)
    ensures Step(Routes(d, Flights(k, 0)), Admit(k, t)) == Routes(d, Flights(k + 1, 0)) && |Flights(k, 0)| == k
  {
    FlightsAre(k, 0);
  }

  lemma {:induction false} CanFail(d: Count, k: nat, t: int, hi: int, c: nat, n: nat)
    requires k <= c && 0 <= t <= hi && Can(Routes(FailedTimes(d, k, t), map[]), t, hi, c, n)
    ensures Can(Routes(d, Flights(k, k)), t, hi, c, n)
    decreases k
  {
    if k > 0 {
      NextFail(d, k, t);
      CanFail(Failed(d, t), k - 1, t, hi, c, n);
      First(Routes(d, Flights(k, k)), Fail(k - 1, t), hi, c, n);
    }
  }

  lemma {:induction false} CanCheck(d: Count, k: nat, m: nat, t: int, hi: int, c: nat, n: nat)
    requires k <= m <= c && 0 <= t <= hi && Can(Routes(d, Flights(m, m)), t, hi, c, n)
    ensures Can(Routes(d, Flights(m, k)), t, hi, c, n + m - k)
    decreases m - k
  {
    if k < m {
      NextCheck(d, m, k, t);
      CanCheck(d, k + 1, m, t, hi, c, n);
      First(Routes(d, Flights(m, k)), Evaluate(k, t), hi, c, n + m - k - 1);
    }
  }

  lemma {:induction false} CanAdmit(d: Count, k: nat, m: nat, t: int, hi: int, c: nat, n: nat)
    requires k <= m <= c && 0 <= t <= hi && Allows(d, t) && Can(Routes(d, Flights(m, 0)), t, hi, c, n)
    ensures Can(Routes(d, Flights(k, 0)), t, hi, c, n)
    decreases m - k
  {
    if k < m {
      NextAdmission(d, k, t);
      CanAdmit(d, k + 1, m, t, hi, c, n);
      First(Routes(d, Flights(k, 0)), Admit(k, t), hi, c, n);
    }
  }

  /** `m` requests at once: all are admitted, then all evaluated, then all counted. */
  lemma Burst(d: Count, m: nat, t: int, hi: int, c: nat, n: nat)
    requires m <= c && 0 <= t <= hi && Allows(d, t) && Can(Routes(FailedTimes(d, m, t), map[]), t, hi, c, n)
    ensures Can(Routes(d, map[]), t, hi, c, n + m)
  {
    CanFail(d, m, t, hi, c, n);
    CanCheck(d, 0, m, t, hi, c, n);
    CanAdmit(d, 0, m, t, hi, c, n + m);
  }

  /** Requests one after another until the next failure blocks. */
  lemma {:induction false} Singly(d: Count, t: int, hi: int, c: nat, n: nat)
    requires d.failures < MAX_FAILURES && c >= 1 && 0 <= t <= hi && Allows(d, t)
    requires Can(Routes(d.(failures := MAX_FAILURES - 1), map[]), t, hi, c, n)
    ensures Can(Routes(d, map[]), t, hi, c, n + MAX_FAILURES - 1 - d.failures)
    decreases MAX_FAILURES - d.failures
  {
    if d.failures + 1 < MAX_FAILURES {
      var d' := d.(failures := d.failures + 1);
      Singly(d', t, hi, c, n);
      assert FailedTimes(d, 1, t) == FailedTimes(Failed(d, t), 0, t) == d';
      Burst(d, 1, t, hi, c, n + MAX_FAILURES - 1 - d'.failures);
    }
  }

  /** One minute: failures one after another until the next one blocks, then `c` at once. */
  lemma OneMinute(d: Count, t: int, hi: int, c: nat, n: nat)
    requires d.failures < MAX_FAILURES && c >= 1 && 0 <= t <= hi && Allows(d, t)
    requires Can(Routes(Count(Once(c), Some(t + COOLDOWN)), map[]), t, hi, c, n)
    ensures Can(Routes(d, map[]), t, hi, c, n + c + MAX_FAILURES - 1 - d.failures)
  {
    var last := d.(failures := MAX_FAILURES - 1);
    FailedTimesAre(last, c, t);
    assert FailedTimes(last, c, t) == Count(Once(c), Some(t + COOLDOWN));
    Burst(last, c, t, hi, c, n);
    Singly(d, t, hi, c, n + c);
  }

  lemma {:induction false} Minutely(d: Count, t: int, k: nat, hi: int, c: nat)
    requires d.failures < MAX_FAILURES && c >= 1 && 0 <= t && t + k * COOLDOWN <= hi && Allows(d, t)
    ensures Can(Routes(d, map[]), t, hi, c, Most(c, k) - d.failures)
    decreases k
  {
    var d' := Count(Once(c), Some(t + COOLDOWN));
    MostAtOnce(c);
    if k == 0 {
      Nothing(Routes(d', map[]), t, hi, c);
      OneMinute(d, t, hi, c, 0);
    } else {
      var n := Most(c, k - 1) - Once(c);
      Minutely(d', t + COOLDOWN, k - 1, hi, c);
      Earlier(Routes(d', map[]), t, t + COOLDOWN, hi, c, n);
      OneMinute(d, t, hi, c, n);
      MostGrows(c, k - 1, k - 1);
    }
  }

  /** For every number of requests in flight and every window some run from a fresh damper reaches the bound. */
  lemma OverlapBoundIsAttained(c: nat, T: nat)
    ensures Can(Routes(Count(0, None), map[]), 0, T, c, Most(c, T / COOLDOWN))
  {
    if c == 0 { Nothing(Routes(Count(0, None), map[]), 0, T, c); } else { Minutely(Count(0, None), 0, T / COOLDOWN, T, c); }
  }
}
