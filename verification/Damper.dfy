/** The failure damper that the device-token route and the device-proof route
    share: five failures block both for a minute, a success clears it. */
module Damper {
  import opened Common

  const MAX_FAILURES := 5
  const COOLDOWN := 60_000_000_000 // one minute in nanoseconds

  /** `blockedUntil` is None for the zero time. */
  datatype Count = Count(failures: nat, blockedUntil: Option<int>)

  predicate Allows(d: Count, now: int) {
    d.blockedUntil.Some? ==> now >= d.blockedUntil.value
  }

  function Failed(d: Count, now: int): Count {
    if d.failures + 1 >= MAX_FAILURES then Count(0, Some(now + COOLDOWN)) else d.(failures := d.failures + 1)
  }

  /** The shared object, with the three methods the handlers call. */
  class SessionDamper {
    var failures: nat
    var blockedUntil: Option<int>

    function State(): Count
      reads this
    {
      Count(failures, blockedUntil)
    }

    constructor ()
      ensures State() == Count(0, None)
    {
      failures, blockedUntil := 0, None;
    }

    method Allow(now: int) returns (ok: bool)
      ensures ok == Allows(State(), now)
    {
      ok := blockedUntil.None? || now >= blockedUntil.value;
    }

    method Fail(now: int)
      modifies this
      ensures State() == Failed(old(State()), now)
    {
      failures := failures + 1;
      if failures >= MAX_FAILURES {
        blockedUntil := Some(now + COOLDOWN);
        failures := 0;
      }
    }

    method Reset()
      modifies this
      ensures State() == Count(0, None)
    {
      failures, blockedUntil := 0, None;
    }

    /** A request with a wrong token or proof, on either route: refused while blocked, else evaluated and counted. */
    method HandleWrong(a: Attempt) returns (evaluated: bool)
      modifies this
      ensures evaluated == Allows(old(State()), a.allowAt)
      ensures State() == After(old(State()), a)
    {
      evaluated := Allow(a.allowAt);
      if evaluated { Fail(a.failAt); }
    }
  }

  function FailedAll(d: Count, times: seq<int>): Count {
    if times == [] then d else Failed(FailedAll(d, times[..|times| - 1]), times[|times| - 1])
  }

  /** From a reset on, four failures block nothing and every fifth starts a minute: the count is the number of
      failures modulo five, the cooldown that of the latest fifth. */
  lemma {:induction false} CountsByFive(times: seq<int>)
    ensures var d, n := FailedAll(Count(0, None), times), |times| / MAX_FAILURES * MAX_FAILURES;
      d.failures == |times| % MAX_FAILURES && d.blockedUntil == if n == 0 then None else Some(times[n - 1] + COOLDOWN)
  {
    if times != [] { CountsByFive(times[..|times| - 1]); }
  }

  /** A wrong token or proof.  The clock is read when the request is admitted and again when the failure is
      recorded; the comparison happens in between. */
  datatype Attempt = Attempt(allowAt: int, evaluateAt: int, failAt: int)

  function After(d: Count, a: Attempt): Count {
    if Allows(d, a.allowAt) then Failed(d, a.failAt) else d
  }

  /** Handled one after another on a non-decreasing clock. */
  ghost predicate Serial(attempts: seq<Attempt>, from: int)
    decreases |attempts|
  {
    attempts == [] ||
    (var a := attempts[0]; from <= a.allowAt <= a.evaluateAt <= a.failAt && Serial(attempts[1..], a.failAt))
  }

  /** How many of the attempts are evaluated between `lo` and `hi`. */
  function Evaluated(d: Count, attempts: seq<Attempt>, lo: int, hi: int): nat
    decreases |attempts|
  {
    if attempts == [] then 0
    else
      var a := attempts[0];
      (if Allows(d, a.allowAt) && lo <= a.evaluateAt <= hi then 1 else 0) + Evaluated(After(d, a), attempts[1..], lo, hi)
  }

  /** What can still be evaluated up to `hi` from `d`, if nothing is evaluated before `from`. */
  function Budget(d: Count, from: int, hi: int): int {
    var start := if d.blockedUntil.Some? && d.blockedUntil.value > from then d.blockedUntil.value else from;
    if start > hi then 0 else MAX_FAILURES - d.failures + MAX_FAILURES * ((hi - start) / COOLDOWN)
  }

  lemma BudgetShrinks(d: Count, from: int, later: int, hi: int)
    requires d.failures < MAX_FAILURES && from <= later
    ensures 0 <= Budget(d, later, hi) <= Budget(d, from, hi)
  {
  }

  /** An evaluated failure costs one unit of the budget, also when it starts the cooldown. */
  lemma FailureCosts(d: Count, from: int, a: Attempt, hi: int)
    requires d.failures < MAX_FAILURES && from <= a.allowAt <= a.evaluateAt <= a.failAt
    requires Allows(d, a.allowAt) && from <= a.evaluateAt <= hi
    ensures Budget(Failed(d, a.failAt), a.failAt, hi) + 1 <= Budget(d, from, hi)
  {
  }

  /** From the window's start on, the budget bounds what is evaluated. */
  lemma {:induction false} BudgetBounds(d: Count, attempts: seq<Attempt>, from: int, lo: int, hi: int)
    requires d.failures < MAX_FAILURES && lo <= from && Serial(attempts, from)
    ensures Evaluated(d, attempts, lo, hi) <= Budget(d, from, hi)
    decreases |attempts|
  {
    BudgetShrinks(d, from, from, hi);
    if attempts != [] {
      var a := attempts[0];
      BudgetBounds(After(d, a), attempts[1..], a.failAt, lo, hi);
      if !Allows(d, a.allowAt) {
        BudgetShrinks(d, from, a.failAt, hi);
      } else if a.evaluateAt <= hi {
        FailureCosts(d, from, a, hi);
      }
    }
  }

  /** An attempt admitted before the window may be evaluated in it or later; it and all that follow fit the budget. */
  lemma StraddlingAttempt(d: Count, attempts: seq<Attempt>, from: int, lo: int, hi: int)
    requires d.failures < MAX_FAILURES && Serial(attempts, from) && attempts != [] && attempts[0].evaluateAt >= lo && lo <= hi
    ensures Evaluated(d, attempts, lo, hi) <= Budget(d, lo, hi)
  {
    var a := attempts[0];
    BudgetBounds(After(d, a), attempts[1..], a.failAt, lo, hi);
    BudgetShrinks(d, lo, a.failAt, hi);
    if Allows(d, a.allowAt) && a.evaluateAt <= hi {
      FailureCosts(d, lo, a.(allowAt := a.evaluateAt), hi);
    }
  }

  lemma BudgetAtMost(d: Count, lo: int, T: nat)
    requires d.failures < MAX_FAILURES
    ensures Budget(d, lo, lo + T) <= MAX_FAILURES * (T / COOLDOWN + 1)
  {
  }

  /** Without a success, at most 5 * (T / 60 s + 1) wrong tokens or proofs are evaluated in any window of length T,
      whatever the damper saw before. */
  lemma {:induction false} WrongAttemptsAreBounded(d: Count, attempts: seq<Attempt>, from: int, lo: int, T: nat)
    requires d.failures < MAX_FAILURES && Serial(attempts, from)
    ensures Evaluated(d, attempts, lo, lo + T) <= MAX_FAILURES * (T / COOLDOWN + 1)
    decreases |attempts|
  {
    BudgetAtMost(d, lo, T);
    if from >= lo {
      BudgetBounds(d, attempts, from, lo, lo + T);
      BudgetShrinks(d, lo, from, lo + T);
    } else if attempts != [] {
      if attempts[0].evaluateAt < lo {
        WrongAttemptsAreBounded(After(d, attempts[0]), attempts[1..], attempts[0].failAt, lo, T);
      } else {
        StraddlingAttempt(d, attempts, from, lo, lo + T);
      }
    }
  }

  // ---------------------------------------------------------------- the bound is attained

  function Burst(at: int, n: nat): seq<Attempt> {
    seq(n, _ => Attempt(at, at, at))
  }

  /** Five attempts at `at`, five a minute later, and so on, `groups` times. */
  function Bursts(at: int, groups: nat): seq<Attempt>
    decreases groups
  {
    if groups == 0 then [] else Burst(at, MAX_FAILURES) + Bursts(at + COOLDOWN, groups - 1)
  }

  /** The rest of a burst is evaluated and then blocks for a minute. */
  lemma {:induction false} BurstIsEvaluated(d: Count, at: int, n: nat, rest: seq<Attempt>, lo: int, hi: int)
    requires 1 <= n <= MAX_FAILURES && d.failures == MAX_FAILURES - n && Allows(d, at) && lo <= at <= hi
    ensures Evaluated(d, Burst(at, n) + rest, lo, hi) == n + Evaluated(Count(0, Some(at + COOLDOWN)), rest, lo, hi)
    decreases n
  {
    var all, a := Burst(at, n) + rest, Attempt(at, at, at);
    assert all[0] == a && all[1..] == Burst(at, n - 1) + rest;
    if n == 1 {
      assert all[1..] == rest;
    } else {
      BurstIsEvaluated(After(d, a), at, n - 1, rest, lo, hi);
    }
  }

  lemma {:induction false} SerialBurst(at: int, n: nat, rest: seq<Attempt>, from: int)
    requires from <= at && Serial(rest, at)
    ensures Serial(Burst(at, n) + rest, from)
    decreases n
  {
    var all := Burst(at, n) + rest;
    if n == 0 {
      assert all == rest;
      if rest != [] { assert Serial(rest[1..], rest[0].failAt); }
    } else {
      assert all[0] == Attempt(at, at, at) && all[1..] == Burst(at, n - 1) + rest;
      SerialBurst(at, n - 1, rest, at);
    }
  }

  lemma {:induction false} BurstsReachTheBound(d: Count, at: int, groups: nat, lo: int, hi: int)
    requires d.failures == 0 && Allows(d, at) && lo <= at && (groups > 0 ==> at + COOLDOWN * (groups - 1) <= hi)
    ensures Serial(Bursts(at, groups), at) && Evaluated(d, Bursts(at, groups), lo, hi) == MAX_FAILURES * groups
    decreases groups
  {
    if groups > 0 {
      var rest := Bursts(at + COOLDOWN, groups - 1);
      BurstsReachTheBound(Count(0, Some(at + COOLDOWN)), at + COOLDOWN, groups - 1, lo, hi);
      BurstIsEvaluated(d, at, MAX_FAILURES, rest, lo, hi);
      assert rest != [] ==> Serial(rest[1..], rest[0].failAt);
      SerialBurst(at, MAX_FAILURES, rest, at);
    }
  }

  /** No smaller bound holds: for every T some serial attempts reach it in a window of length T. */
  lemma BoundIsTight(T: nat)
    ensures exists attempts ::
      Serial(attempts, 0) && Evaluated(Count(0, None), attempts, 0, T) == MAX_FAILURES * (T / COOLDOWN + 1)
  {
    BurstsReachTheBound(Count(0, None), 0, T / COOLDOWN + 1, 0, T);
  }
}
