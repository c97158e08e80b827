/** Probes of any number of replicas against the durable command hub. Replica
    clocks drift from the hub's; the hub forgets settled commands a day after
    their authority expired, so how many probes one window can get depends on
    how far the clocks drift. */
module ProbeHub {
  import opened Common
  import opened ProbeIds

  const LIFETIME := 900_000_000_000     // command authority, 15 minutes in nanoseconds
  const RETENTION := 86_400_000_000_000 // settled commands are kept 24 hours longer
  const HELD := LIFETIME + RETENTION

  /** The largest total drift that still gives one probe per window: 18h15m and a tick. */
  const DRIFT_BOUND := HELD - PERIOD + 1

  datatype Row = Row(tenant: string, expires: int, settled: bool)

  /** A probe the hub accepted: `used` is the replica's time, `stamp` the hub transaction's. */
  datatype Acceptance = Acceptance(target: Target, used: int, stamp: int)

  /** A replica that learned its probe was sent and has yet to mark the window. */
  datatype Owed = Owed(replica: nat, id: string)

  datatype State = State(rows: map<string, Row>, clock: int, accepted: seq<Acceptance>, owed: set<Owed>, caches: map<nat, Cache>)

  /** A transaction is stamped when it begins and executes `at` a later or the same hub time. */
  datatype Step =
    | Probe(replica: nat, target: Target, used: int, stamp: int, at: int)
    | Enqueue(id: string, tenant: string, stamp: int, lifetime: nat, at: int)
    | Settle(id: string)
    | Mark(replica: nat, id: string)
    | Restart(replica: nat)

  /** The cleanup in front of an insert. */
  function Purged(rows: map<string, Row>, tenant: string, stamp: int): map<string, Row> {
    map id | id in rows && !(rows[id].tenant == tenant && rows[id].settled && rows[id].expires < stamp - RETENTION) :: rows[id]
  }

  function Inserted(s: State, id: string, tenant: string, stamp: int, lifetime: int, at: int): State {
    s.(rows := Purged(s.rows, tenant, stamp)[id := Row(tenant, stamp + lifetime, false)], clock := at)
  }

  function CacheOf(s: State, replica: nat): Cache {
    if replica in s.caches then s.caches[replica] else EMPTY
  }

  function Probed(tag: string -> string, s: State, p: Step): State
    requires p.Probe?
  {
    var id := CommandId(tag, p.target, p.used);
    var owing := s.(owed := s.owed + {Owed(p.replica, id)});
    if id in s.rows then owing.(clock := p.at)
    else Inserted(owing, id, p.target.tenant, p.stamp, LIFETIME, p.at).(accepted := s.accepted + [Acceptance(p.target, p.used, p.stamp)])
  }

  function Apply(tag: string -> string, s: State, step: Step): State {
    match step
    case Probe(_, target, _, stamp, at) => if target.mtls || stamp > at || at < s.clock then s else Probed(tag, s, step)
    case Enqueue(id, tenant, stamp, lifetime, at) =>
      if stamp > at || at < s.clock || id in s.rows || KIND <= id then s else Inserted(s, id, tenant, stamp, lifetime, at)
    case Settle(id) => if id in s.rows then s.(rows := s.rows[id := s.rows[id].(settled := true)]) else s
    case Mark(replica, id) => if Owed(replica, id) in s.owed then s.(caches := s.caches[replica := Marked(CacheOf(s, replica), id)]) else s
    case Restart(replica) => s.(caches := s.caches - {replica}, owed := set o | o in s.owed && o.replica != replica)
  }

  function Exec(tag: string -> string, start: int, steps: seq<Step>): State {
    if steps == [] then State(map[], start, [], {}, map[])
    else Apply(tag, Exec(tag, start, steps[..|steps| - 1]), steps[|steps| - 1])
  }

  // ---------------------------------------------------------------- clocks

  /** The hub may stamp a probe up to `early` before, and execute it up to `late` after, the replica's time. */
  ghost predicate InDrift(step: Step, early: nat, late: nat) {
    step.Probe? ==> step.stamp >= step.used - early && step.at <= step.used + late
  }

  ghost predicate AllInDrift(steps: seq<Step>, early: nat, late: nat) {
    forall i | 0 <= i < |steps| :: InDrift(steps[i], early, late)
  }

  function IdOf(tag: string -> string, a: Acceptance): string {
    CommandId(tag, a.target, a.used)
  }

  /** The hub still holds the accepted command, or has been past its retention. */
  ghost predicate Accounted(tag: string -> string, s: State, a: Acceptance) {
    || (IdOf(tag, a) in s.rows && s.rows[IdOf(tag, a)].expires == a.stamp + LIFETIME)
    || s.clock > a.stamp + HELD
  }

  ghost predicate Knows(tag: string -> string, s: State, id: string) {
    exists k :: 0 <= k < |s.accepted| && IdOf(tag, s.accepted[k]) == id
  }

  ghost predicate Inv(tag: string -> string, early: nat, s: State) {
    && (forall k | 0 <= k < |s.accepted| :: Accounted(tag, s, s.accepted[k]) && s.accepted[k].stamp >= s.accepted[k].used - early)
    && (forall id | id in s.rows && KIND <= id :: Knows(tag, s, id))
    && (forall o | o in s.owed :: Knows(tag, s, o.id))
    && (forall r, id | r in s.caches && id in s.caches[r].sent :: Knows(tag, s, id))
  }

  lemma IdHasKind(tag: string -> string, t: Target, now: int)
    ensures KIND <= CommandId(tag, t, now)
  {
  }

  lemma InsertKeepsAccounts(tag: string -> string, s: State, id: string, tenant: string, stamp: int, lifetime: int, at: int, a: Acceptance)
    requires Accounted(tag, s, a) && stamp <= at && s.clock <= at && id !in s.rows
    ensures Accounted(tag, Inserted(s, id, tenant, stamp, lifetime, at), a)
  {
  }

  lemma ProbeKeepsInv(tag: string -> string, early: nat, s: State, p: Step)
    requires Inv(tag, early, s) && p.Probe? && p.stamp <= p.at && s.clock <= p.at && p.stamp >= p.used - early
    ensures Inv(tag, early, Probed(tag, s, p))
  {
    var id, t := CommandId(tag, p.target, p.used), Probed(tag, s, p);
    IdHasKind(tag, p.target, p.used);
    forall k | 0 <= k < |t.accepted|
      ensures Accounted(tag, t, t.accepted[k]) && t.accepted[k].stamp >= t.accepted[k].used - early
    {
      if k < |s.accepted| && id !in s.rows {
        InsertKeepsAccounts(tag, s, id, p.target.tenant, p.stamp, LIFETIME, p.at, s.accepted[k]);
      }
    }
    KnowsLater(tag, s, t);
    if id !in s.rows { assert IdOf(tag, t.accepted[|s.accepted|]) == id; }
  }

  lemma KnowsLater(tag: string -> string, s: State, t: State)
    requires s.accepted <= t.accepted
    ensures forall id | Knows(tag, s, id) :: Knows(tag, t, id)
  {
  }

  lemma EnqueueKeepsInv(tag: string -> string, early: nat, s: State, e: Step)
    requires Inv(tag, early, s) && e.Enqueue?
    ensures Inv(tag, early, Apply(tag, s, e))
  {
    var t := Apply(tag, s, e);
    if t != s {
      forall k | 0 <= k < |t.accepted|
        ensures Accounted(tag, t, t.accepted[k])
      {
        InsertKeepsAccounts(tag, s, e.id, e.tenant, e.stamp, e.lifetime, e.at, s.accepted[k]);
      }
      KnowsLater(tag, s, t);
    }
  }

  lemma LocalKeepsInv(tag: string -> string, early: nat, s: State, step: Step)
    requires Inv(tag, early, s) && (step.Settle? || step.Mark? || step.Restart?)
    ensures Inv(tag, early, Apply(tag, s, step))
  {
    var t := Apply(tag, s, step);
    KnowsLater(tag, s, t);
    forall k | 0 <= k < |t.accepted|
      ensures Accounted(tag, t, t.accepted[k])
    {
      assert Accounted(tag, s, s.accepted[k]);
    }
  }

  lemma {:induction false} InvHolds(tag: string -> string, start: int, steps: seq<Step>, early: nat, late: nat)
    requires AllInDrift(steps, early, late)
    ensures Inv(tag, early, Exec(tag, start, steps))
  {
    if steps != [] {
      var n := |steps| - 1;
      assert InDrift(steps[n], early, late);
      InvHolds(tag, start, steps[..n], early, late);
      var s := Exec(tag, start, steps[..n]);
      match steps[n]
      case Probe(_, target, _, stamp, at) => if !target.mtls && stamp <= at && at >= s.clock { ProbeKeepsInv(tag, early, s, steps[n]); }
      case Enqueue(_, _, _, _, _) => EnqueueKeepsInv(tag, early, s, steps[n]);
      case _ => LocalKeepsInv(tag, early, s, steps[n]);
    }
  }

  // ---------------------------------------------------------------- one probe per identity and window

  /** Within the bound, the hub still holds every accepted ID while a replica's clock is in its window. */
  lemma HeldThroughItsWindow(tag: string -> string, s: State, a: Acceptance, now: int, at: int, early: nat, late: nat)
    requires Inv(tag, early, s) && a in s.accepted && early + late <= DRIFT_BOUND
    requires now / PERIOD == a.used / PERIOD && s.clock <= at <= now + late
    ensures IdOf(tag, a) in s.rows
  {
  }

  ghost predicate Distinct(tag: string -> string, accepted: seq<Acceptance>) {
    forall i, j | 0 <= i < j < |accepted| :: IdOf(tag, accepted[i]) != IdOf(tag, accepted[j])
  }

  /** Across replicas, restarts and skewed clocks the hub accepts at most one probe per ID. */
  lemma {:induction false} OneProbePerId(tag: string -> string, start: int, steps: seq<Step>, early: nat, late: nat)
    requires AllInDrift(steps, early, late) && early + late <= DRIFT_BOUND
    ensures Distinct(tag, Exec(tag, start, steps).accepted)
  {
    if steps != [] {
      var n := |steps| - 1;
      var before, p := steps[..n], steps[n];
      assert InDrift(p, early, late);
      OneProbePerId(tag, start, before, early, late);
      InvHolds(tag, start, before, early, late);
      var s, t := Exec(tag, start, before), Exec(tag, start, steps);
      if |t.accepted| > |s.accepted| {
        forall i | 0 <= i < |s.accepted|
          ensures IdOf(tag, s.accepted[i]) != CommandId(tag, p.target, p.used)
        {
          if IdOf(tag, s.accepted[i]) == CommandId(tag, p.target, p.used) {
            WindowsMatch(tag, s.accepted[i].target, p.target, s.accepted[i].used, p.used);
            HeldThroughItsWindow(tag, s, s.accepted[i], p.used, p.at, early, late);
          }
        }
      }
    }
  }

  lemma WindowsMatch(tag: string -> string, a: Target, b: Target, nowA: int, nowB: int)
    requires CommandId(tag, a, nowA) == CommandId(tag, b, nowB)
    ensures nowA / PERIOD == nowB / PERIOD
  {
    WindowIsRecoverable(tag, a, nowA);
    WindowIsRecoverable(tag, b, nowB);
  }

  /** Hence at most one per Guard identity and window, whatever else its targets carry. */
  lemma OneProbePerGuardAndWindow(tag: string -> string, start: int, steps: seq<Step>, early: nat, late: nat, i: nat, j: nat)
    requires AllInDrift(steps, early, late) && early + late <= DRIFT_BOUND
    requires i < j < |Exec(tag, start, steps).accepted|
    ensures var a, b := Exec(tag, start, steps).accepted[i], Exec(tag, start, steps).accepted[j];
      !(SameGuard(a.target, b.target) && a.used / PERIOD == b.used / PERIOD)
  {
    OneProbePerId(tag, start, steps, early, late);
    var a, b := Exec(tag, start, steps).accepted[i], Exec(tag, start, steps).accepted[j];
    assert IdOf(tag, a) != IdOf(tag, b);
  }

  /** `windowSpent` is true only while the hub holds that ID. */
  lemma SpentMeansHeld(tag: string -> string, start: int, steps: seq<Step>, early: nat, late: nat, replica: nat, t: Target, now: int, at: int)
    requires AllInDrift(steps, early, late) && early + late <= DRIFT_BOUND
    requires Exec(tag, start, steps).clock <= at <= now + late
    requires Spent(CacheOf(Exec(tag, start, steps), replica), CommandId(tag, t, now))
    ensures CommandId(tag, t, now) in Exec(tag, start, steps).rows
  {
    var s, id := Exec(tag, start, steps), CommandId(tag, t, now);
    InvHolds(tag, start, steps, early, late);
    assert Knows(tag, s, id);
    var k :| 0 <= k < |s.accepted| && IdOf(tag, s.accepted[k]) == id;
    WindowsMatch(tag, s.accepted[k].target, t, s.accepted[k].used, now);
    HeldThroughItsWindow(tag, s, s.accepted[k], now, at, early, late);
  }

  // ---------------------------------------------------------------- the bound is exact

  /** One tick beyond the bound two probes of one window fit: the first is stamped as early as the drift
      allows, another command's cleanup drops it, and the second is sent as late as possible. */
  function TwoProbes(id: string, t: Target, early: nat): seq<Step> {
    var first := 0 - early;
    var later := first + HELD + 1;
    [Probe(0, t, 0, first, first), Settle(id), Enqueue("other", t.tenant, later, LIFETIME, later), Probe(1, t, PERIOD - 1, later, later)]
  }

  lemma OtherIsNoProbe()
    ensures !(KIND <= "other")
  {
  }

  lemma ExecFour(tag: string -> string, start: int, a: Step, b: Step, c: Step, d: Step)
    ensures Exec(tag, start, [a, b, c, d]) == Apply(tag, Apply(tag, Apply(tag, Apply(tag, Exec(tag, start, []), a), b), c), d)
  {
    assert [a, b, c, d][..3] == [a, b, c] && [a, b, c][..2] == [a, b] && [a, b][..1] == [a] && [a][..0] == [];
    assert Exec(tag, start, [a]) == Apply(tag, Exec(tag, start, []), a);
    assert Exec(tag, start, [a, b]) == Apply(tag, Exec(tag, start, [a]), b);
    assert Exec(tag, start, [a, b, c]) == Apply(tag, Exec(tag, start, [a, b]), c);
  }

  lemma FirstIsAccepted(tag: string -> string, p: Step)
    requires p.Probe? && !p.target.mtls && p.stamp == p.at
    ensures var s := Apply(tag, Exec(tag, p.at, []), p);
      && s.accepted == [Acceptance(p.target, p.used, p.stamp)] && s.clock == p.at
      && s.rows == map[CommandId(tag, p.target, p.used) := Row(p.target.tenant, p.stamp + LIFETIME, false)]
  {
  }

  /** Past its retention: a settled command whose authority expired more than a day before `stamp`. */
  predicate Forgettable(row: Row, tenant: string, stamp: int) {
    row.tenant == tenant && row.settled && row.expires < stamp - RETENTION
  }

  /** In any table an accepted command of the tenant drops exactly the settled commands past their retention. */
  lemma CleanupDropsExactly(tag: string -> string, s: State, e: Step, id: string)
    requires e.Enqueue? && e.stamp <= e.at && s.clock <= e.at && e.id !in s.rows && !(KIND <= e.id) && id != e.id
    ensures id in Apply(tag, s, e).rows <==> id in s.rows && !Forgettable(s.rows[id], e.tenant, e.stamp)
    ensures id in Apply(tag, s, e).rows ==> Apply(tag, s, e).rows[id] == s.rows[id]
    ensures e.id in Apply(tag, s, e).rows && Apply(tag, s, e).accepted == s.accepted && Apply(tag, s, e).clock == e.at
  {
  }

  lemma SettledThenForgotten(tag: string -> string, s: State, id: string, e: Step)
    requires e.Enqueue? && e.stamp == e.at && s.clock <= e.at && e.id !in s.rows && !(KIND <= e.id) && KIND <= id
    requires id in s.rows && s.rows[id].tenant == e.tenant && s.rows[id].expires < e.at - RETENTION
    ensures var t := Apply(tag, Apply(tag, s, Settle(id)), e); id !in t.rows && t.accepted == s.accepted && t.clock == e.at
  {
    CleanupDropsExactly(tag, Apply(tag, s, Settle(id)), e, id);
  }

  lemma SecondIsAccepted(tag: string -> string, s: State, p: Step)
    requires p.Probe? && !p.target.mtls && p.stamp == p.at && s.clock <= p.at && CommandId(tag, p.target, p.used) !in s.rows
    ensures Apply(tag, s, p).accepted == s.accepted + [Acceptance(p.target, p.used, p.stamp)]
  {
  }

  lemma AcceptedTwice(tag: string -> string, p: Step, q: Step, id: string, other: string)
    requires p.Probe? && q.Probe? && p.target == q.target && !p.target.mtls && p.stamp == p.at && q.stamp == q.at
    requires id == CommandId(tag, p.target, p.used) == CommandId(tag, q.target, q.used)
    requires KIND <= id && !(KIND <= other) && p.at + HELD < q.at
    ensures Exec(tag, p.at, [p, Settle(id), Enqueue(other, p.target.tenant, q.at, LIFETIME, q.at), q]).accepted
         == [Acceptance(p.target, p.used, p.stamp), Acceptance(q.target, q.used, q.stamp)]
  {
    var settle, enqueue := Settle(id), Enqueue(other, p.target.tenant, q.at, LIFETIME, q.at);
    ExecFour(tag, p.at, p, settle, enqueue, q);
    FirstIsAccepted(tag, p);
    var one := Apply(tag, Exec(tag, p.at, []), p);
    SettledThenForgotten(tag, one, id, enqueue);
    SecondIsAccepted(tag, Apply(tag, Apply(tag, one, settle), enqueue), q);
  }

  lemma TwoProbesAccepted(tag: string -> string, id: string, t: Target, early: nat)
    requires !t.mtls && KIND <= id && id == CommandId(tag, t, 0) == CommandId(tag, t, PERIOD - 1)
    ensures Exec(tag, 0 - early, TwoProbes(id, t, early)).accepted == [Acceptance(t, 0, 0 - early), Acceptance(t, PERIOD - 1, 0 - early + HELD + 1)]
  {
    var first, later := 0 - early, 0 - early + HELD + 1;
    OtherIsNoProbe();
    AcceptedTwice(tag, Probe(0, t, 0, first, first), Probe(1, t, PERIOD - 1, later, later), id, "other");
  }

  lemma OneWindow(tag: string -> string, t: Target)
    ensures CommandId(tag, t, PERIOD - 1) == CommandId(tag, t, 0)
  {
  }

  /** At most one probe per ID, for every run whose clocks keep to the drift, exactly when the drift is within the bound. */
  lemma OneProbePerIdExactly(tag: string -> string, t: Target, early: nat, late: nat)
    requires !t.mtls
    ensures (forall start, steps | AllInDrift(steps, early, late) :: Distinct(tag, Exec(tag, start, steps).accepted)) <==> early + late <= DRIFT_BOUND
  {
    if early + late <= DRIFT_BOUND {
      forall start, steps | AllInDrift(steps, early, late)
        ensures Distinct(tag, Exec(tag, start, steps).accepted)
      {
        OneProbePerId(tag, start, steps, early, late);
      }
    } else {
      var id := CommandId(tag, t, 0);
      IdHasKind(tag, t, 0);
      OneWindow(tag, t);
      TwoProbesAccepted(tag, id, t, early);
      var steps, s := TwoProbes(id, t, early), Exec(tag, 0 - early, TwoProbes(id, t, early));
      assert AllInDrift(steps, early, late);
      assert IdOf(tag, s.accepted[0]) == IdOf(tag, s.accepted[1]);
    }
  }
}
