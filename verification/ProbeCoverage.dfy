/** How passes of one window cover the fleet, with the hub that accepts a command
    ID once: what the cache knows, what the hub holds, and what upgrade refusals
    cost. */
module ProbeCoverage {
  import opened Common
  import opened ProbeIds
  import opened ProbePass

  // ---------------------------------------------------------------- what the hub holds

  /** The command reached the hub: answered, or refused because the hub has it already. */
  predicate ReachesHub(o: Outcome) {
    o.Answered? || o.AnsweredUpgrade? || o.AlreadySent?
  }

  /** The IDs the hub accepted in this pass. */
  function AcceptedIds(tag: string -> string, finished: seq<Finish>, at: int): set<string> {
    set f | f in finished && (f.outcome.Answered? || f.outcome.AnsweredUpgrade?) :: CommandId(tag, f.target, at)
  }

  function UpgradeIds(tag: string -> string, finished: seq<Finish>, at: int): set<string> {
    set f | f in finished && f.outcome.AnsweredUpgrade? :: CommandId(tag, f.target, at)
  }

  /** The hub accepts an ID only if it does not hold it, and says it exists only if it does. */
  ghost predicate HubRule(tag: string -> string, held: set<string>, p: Pass, at: int) {
    && AcceptedIds(tag, p.finished, at) !! held
    && (forall f | f in p.finished && f.outcome.AlreadySent? :: CommandId(tag, f.target, at) in held + p.others)
  }

  function HeldNext(tag: string -> string, held: set<string>, p: Pass, at: int): set<string> {
    held + p.others + AcceptedIds(tag, p.finished, at)
  }

  function HeldAfter(tag: string -> string, held: set<string>, passes: seq<Pass>, at: int): set<string> {
    if passes == [] then held else HeldNext(tag, HeldAfter(tag, held, passes[..|passes| - 1], at), passes[|passes| - 1], at)
  }

  // ---------------------------------------------------------------- coverage

  /** The Guards of `fleet` are due until probed and no other candidate is due. */
  ghost predicate FleetIsDue(tag: string -> string, c: Cache, held: set<string>, candidates: seq<Target>, fleet: seq<Target>, p: Pass, at: int) {
    && (forall t | t in fleet :: CommandId(tag, t, at) in Known(tag, c, at) + held || Due(t, Lookup(TripsOf(p.table, t.tenant), t.agent), p.now))
    && (forall t | t in candidates && t !in fleet :: !Due(t, Lookup(TripsOf(p.table, t.tenant), t.agent), p.now))
  }

  ghost predicate PassOk(tag: string -> string, c: Cache, held: set<string>, candidates: seq<Target>, fleet: seq<Target>, p: Pass, at: int) {
    && Ran(tag, c, candidates, p, at) && EndsOnce(p) && HubRule(tag, held, p, at)
    && (forall f | f in p.finished :: ReachesHub(f.outcome))
    && FleetIsDue(tag, c, held, candidates, fleet, p, at)
  }

  ghost predicate PassAt(tag: string -> string, c: Cache, held: set<string>, candidates: seq<Target>, fleet: seq<Target>, passes: seq<Pass>, at: int, n: nat) {
    n < |passes| ==> PassOk(tag, After(tag, c, passes[..n]), HeldAfter(tag, held, passes[..n], at), candidates, fleet, passes[n], at)
  }

  /** Passes of one window over a fixed candidate list, in which every dispatch is answered or already sent. */
  ghost predicate Passes(tag: string -> string, c: Cache, held: set<string>, candidates: seq<Target>, fleet: seq<Target>, passes: seq<Pass>, at: int) {
    forall n: nat :: PassAt(tag, c, held, candidates, fleet, passes, at, n)
  }

  lemma AfterOne(tag: string -> string, c: Cache, held: set<string>, passes: seq<Pass>, at: int, n: nat)
    requires n < |passes|
    ensures After(tag, c, passes[..n + 1]) == AllSettled(tag, After(tag, c, passes[..n]), passes[n].now, passes[n].finished)
    ensures HeldAfter(tag, held, passes[..n + 1], at) == HeldNext(tag, HeldAfter(tag, held, passes[..n], at), passes[n], at)
  {
    assert passes[..n + 1][..n] == passes[..n];
  }

  /** Every dispatch of a pass marks the window or is an upgrade answer, and no ID is both. */
  lemma PicksPartition(tag: string -> string, c: Cache, held: set<string>, candidates: seq<Target>, fleet: seq<Target>, p: Pass, at: int)
    requires Fleet(tag, candidates, at) && PassOk(tag, c, held, candidates, fleet, p, at)
    ensures var ids, marking, upgrade := Ids(tag, Picked(tag, c, p.table, p.now, candidates), at), MarkingIds(tag, p.finished, at), UpgradeIds(tag, p.finished, at);
      ids == marking + upgrade && marking !! upgrade
  {
    FinishedArePicked(tag, c, candidates, p, at);
    var ids := Ids(tag, Picked(tag, c, p.table, p.now, candidates), at);
    var marking, upgrade := MarkingIds(tag, p.finished, at), UpgradeIds(tag, p.finished, at);
    forall t | t in Picked(tag, c, p.table, p.now, candidates)
      ensures CommandId(tag, t, at) in marking + upgrade
    {
      var o :| Finish(t, o) in p.finished;
      assert ReachesHub(Finish(t, o).outcome);
    }
    forall id | id in marking && id in upgrade
      ensures false
    {
      var f :| f in p.finished && Marks(f.outcome) && CommandId(tag, f.target, at) == id;
      var g :| g in p.finished && g.outcome.AnsweredUpgrade? && CommandId(tag, g.target, at) == id;
      NamesOneEnd(tag, c, candidates, p, at, f, g);
    }
    assert ids == marking + upgrade;
  }

  ghost predicate AllProbed(known: set<string>, held: set<string>, goal: set<string>) {
    goal <= known + held
  }

  /** What is known counts twice, what only the hub holds once. */
  ghost function Score(known: set<string>, held: set<string>, goal: set<string>): nat {
    |known * goal| + |(known + held) * goal|
  }

  lemma DisjointCard(a: set<string>, b: set<string>)
    requires a !! b
    ensures |a + b| == |a| + |b|
  {
  }

  lemma ScoreRises(known: set<string>, held: set<string>, goal: set<string>, marking: set<string>, upgrade: set<string>, more: set<string>)
    requires marking + upgrade <= goal && marking !! upgrade && known !! marking + upgrade && upgrade !! held && upgrade <= more
    ensures |(known + marking) * goal| == |known * goal| + |marking|
    ensures Score(known + marking, held + more, goal) >= Score(known, held, goal) + |marking + upgrade|
  {
    assert (known + marking) * goal == known * goal + marking;
    DisjointCard(known * goal, marking);
    var before, after := (known + held) * goal, (known + marking + (held + more)) * goal;
    DisjointCard(before, upgrade);
    SubsetCard(before + upgrade, after);
    DisjointCard(marking, upgrade);
  }

  lemma PicksAreOfTheFleet(tag: string -> string, c: Cache, held: set<string>, candidates: seq<Target>, fleet: seq<Target>, p: Pass, at: int)
    requires FleetIsDue(tag, c, held, candidates, fleet, p, at)
    ensures Ids(tag, Picked(tag, c, p.table, p.now, candidates), at) <= Ids(tag, fleet, at)
  {
    forall t | t in Picked(tag, c, p.table, p.now, candidates)
      ensures t in fleet
    {
      assert t in Wanted(tag, c, p.table, p.now, candidates);
    }
  }

  lemma ShortPassReachesAll(tag: string -> string, c: Cache, held: set<string>, candidates: seq<Target>, fleet: seq<Target>, p: Pass, at: int)
    requires Fleet(tag, candidates, at) && PassOk(tag, c, held, candidates, fleet, p, at) && (forall t | t in fleet :: t in candidates)
    requires |Picked(tag, c, p.table, p.now, candidates)| < PER_PASS
    ensures Ids(tag, fleet, at) <= Known(tag, c, at) + held + Ids(tag, Picked(tag, c, p.table, p.now, candidates), at)
  {
    RoomyPassReachesAll(tag, c, held, candidates, fleet, p, at);
  }

  /** A pass with room for all has dispatched to every Guard that was not probed yet. */
  lemma RoomyPassReachesAll(tag: string -> string, c: Cache, held: set<string>, candidates: seq<Target>, fleet: seq<Target>, p: Pass, at: int)
    requires Fleet(tag, candidates, at) && PassOk(tag, c, held, candidates, fleet, p, at) && (forall t | t in fleet :: t in candidates)
    requires |Wanted(tag, c, p.table, p.now, candidates)| <= PER_PASS
    ensures Ids(tag, fleet, at) <= Known(tag, c, at) + held + Ids(tag, Picked(tag, c, p.table, p.now, candidates), at)
  {
    forall t | t in fleet && CommandId(tag, t, at) !in Known(tag, c, at) + held
      ensures t in Picked(tag, c, p.table, p.now, candidates)
    {
      KnownIsSpent(tag, c, t, p.now, at);
      assert t in Wanted(tag, c, p.table, p.now, candidates);
    }
  }

  ghost predicate Progress(known: set<string>, held: set<string>, known': set<string>, held': set<string>, goal: set<string>, allMark: bool) {
    && known <= known' && held <= held'
    && (AllProbed(known', held', goal) || Score(known', held', goal) >= Score(known, held, goal) + PER_PASS)
    && (allMark ==> AllProbed(known', held', goal) || |known' * goal| >= |known * goal| + PER_PASS)
  }

  lemma FullPassProgress(known: set<string>, held: set<string>, goal: set<string>, marking: set<string>, upgrade: set<string>, more: set<string>, allMark: bool)
    requires marking + upgrade <= goal && marking !! upgrade && known !! marking + upgrade && upgrade !! held && upgrade <= more
    requires |marking + upgrade| == PER_PASS && (allMark ==> upgrade == {})
    ensures Progress(known, held, known + marking, held + more, goal, allMark)
  {
    ScoreRises(known, held, goal, marking, upgrade, more);
    if allMark { assert marking + upgrade == marking; }
  }

  lemma ShortPassProgress(known: set<string>, held: set<string>, goal: set<string>, marking: set<string>, upgrade: set<string>, more: set<string>, allMark: bool)
    requires goal <= known + held + (marking + upgrade) && upgrade <= more
    ensures Progress(known, held, known + marking, held + more, goal, allMark)
  {
  }

  lemma UpgradesAreAccepted(tag: string -> string, held: set<string>, p: Pass, at: int)
    requires HubRule(tag, held, p, at)
    ensures UpgradeIds(tag, p.finished, at) <= AcceptedIds(tag, p.finished, at) && UpgradeIds(tag, p.finished, at) !! held
    ensures AllMark(p) ==> UpgradeIds(tag, p.finished, at) == {}
  {
  }

  /** What a pass does to the three sets, in terms of its marking and its upgrade answers. */
  lemma PassSets(tag: string -> string, c: Cache, held: set<string>, candidates: seq<Target>, fleet: seq<Target>, p: Pass, at: int)
    requires Fleet(tag, candidates, at) && PassOk(tag, c, held, candidates, fleet, p, at)
    ensures var k, marking, upgrade := Known(tag, c, at), MarkingIds(tag, p.finished, at), UpgradeIds(tag, p.finished, at);
      var more := p.others + AcceptedIds(tag, p.finished, at);
      && Known(tag, AllSettled(tag, c, p.now, p.finished), at) == k + marking && HeldNext(tag, held, p, at) == held + more
      && marking + upgrade == Ids(tag, Picked(tag, c, p.table, p.now, candidates), at)
      && marking !! upgrade && k !! marking + upgrade && upgrade !! held && upgrade <= more && (AllMark(p) ==> upgrade == {})
  {
    PassAdds(tag, c, candidates, p, at);
    PicksPartition(tag, c, held, candidates, fleet, p, at);
    UpgradesAreAccepted(tag, held, p, at);
  }

  lemma FullPicks(tag: string -> string, c: Cache, held: set<string>, candidates: seq<Target>, fleet: seq<Target>, p: Pass, at: int)
    requires Fleet(tag, candidates, at) && PassOk(tag, c, held, candidates, fleet, p, at) && |Picked(tag, c, p.table, p.now, candidates)| >= PER_PASS
    ensures var ids := Ids(tag, Picked(tag, c, p.table, p.now, candidates), at); |ids| == PER_PASS && ids <= Ids(tag, fleet, at)
  {
    PicksAreAFleet(tag, c, p.table, p.now, candidates, at);
    IdsCard(tag, Picked(tag, c, p.table, p.now, candidates), at);
    PicksAreOfTheFleet(tag, c, held, candidates, fleet, p, at);
  }

  /** A pass raises the score by sixteen, and what is known by sixteen if all its probes mark, or everyone is probed. */
  lemma PassProgress(tag: string -> string, c: Cache, held: set<string>, candidates: seq<Target>, fleet: seq<Target>, p: Pass, at: int)
    requires Fleet(tag, candidates, at) && PassOk(tag, c, held, candidates, fleet, p, at) && (forall t | t in fleet :: t in candidates)
    ensures Progress(Known(tag, c, at), held, Known(tag, AllSettled(tag, c, p.now, p.finished), at), HeldNext(tag, held, p, at), Ids(tag, fleet, at), AllMark(p))
  {
    var k, marking, upgrade := Known(tag, c, at), MarkingIds(tag, p.finished, at), UpgradeIds(tag, p.finished, at);
    var goal, more := Ids(tag, fleet, at), p.others + AcceptedIds(tag, p.finished, at);
    PassSets(tag, c, held, candidates, fleet, p, at);
    if |Picked(tag, c, p.table, p.now, candidates)| < PER_PASS {
      ShortPassReachesAll(tag, c, held, candidates, fleet, p, at);
      ShortPassProgress(k, held, goal, marking, upgrade, more, AllMark(p));
    } else {
      FullPicks(tag, c, held, candidates, fleet, p, at);
      FullPassProgress(k, held, goal, marking, upgrade, more, AllMark(p));
    }
  }

  /** After k passes: everyone is probed, or the score rose by 16k from that of the `m` known at the start, and what is
      known rose by 16k if every probe so far marked. */
  ghost predicate Covered(known: set<string>, held: set<string>, goal: set<string>, m: nat, k: nat, allMark: bool) {
    && (AllProbed(known, held, goal) || Score(known, held, goal) >= 2 * m + PER_PASS * k)
    && (allMark ==> AllProbed(known, held, goal) || |known * goal| >= m + PER_PASS * k)
  }

  lemma CoveredFirst(known: set<string>, held: set<string>, goal: set<string>)
    ensures Covered(known, held, goal, |known * goal|, 0, true)
  {
    SubsetCard(known * goal, (known + held) * goal);
  }

  lemma CoveredNext(known: set<string>, held: set<string>, known': set<string>, held': set<string>, goal: set<string>,
      m: nat, k: nat, before: bool, last: bool)
    requires Covered(known, held, goal, m, k, before) && Progress(known, held, known', held', goal, last)
    ensures Covered(known', held', goal, m, k + 1, before && last)
  {
  }

  ghost predicate AllMarkBefore(passes: seq<Pass>, k: nat) {
    forall i: nat | i < k && i < |passes| :: AllMark(passes[i])
  }

  /** How many Guards of the fleet this process knows to be probed. */
  ghost function KnownOf(tag: string -> string, c: Cache, fleet: seq<Target>, at: int): nat {
    |Known(tag, c, at) * Ids(tag, fleet, at)|
  }

  lemma {:induction false} ScorePerPass(tag: string -> string, c: Cache, held: set<string>, candidates: seq<Target>,
      fleet: seq<Target>, passes: seq<Pass>, at: int, k: nat)
    requires Fleet(tag, candidates, at) && (forall t | t in fleet :: t in candidates)
    requires Passes(tag, c, held, candidates, fleet, passes, at) && k <= |passes|
    ensures Covered(Known(tag, After(tag, c, passes[..k]), at), HeldAfter(tag, held, passes[..k], at), Ids(tag, fleet, at),
      KnownOf(tag, c, fleet, at), k, AllMarkBefore(passes, k))
  {
    var goal := Ids(tag, fleet, at);
    if k == 0 {
      CoveredFirst(Known(tag, c, at), held, goal);
    } else {
      var n := k - 1;
      var cache, hub := After(tag, c, passes[..n]), HeldAfter(tag, held, passes[..n], at);
      ScorePerPass(tag, c, held, candidates, fleet, passes, at, n);
      assert PassAt(tag, c, held, candidates, fleet, passes, at, n);
      AfterOne(tag, c, held, passes, at, n);
      PassProgress(tag, cache, hub, candidates, fleet, passes[n], at);
      CoveredNext(Known(tag, cache, at), hub, Known(tag, After(tag, c, passes[..k]), at), HeldAfter(tag, held, passes[..k], at),
        goal, KnownOf(tag, c, fleet, at), n, AllMarkBefore(passes, n), AllMark(passes[n]));
      assert AllMarkBefore(passes, k) ==> AllMarkBefore(passes, n) && AllMark(passes[n]);
    }
  }

  /** The Guards of the fleet whose probe this process or the hub knows. */
  ghost function Reached(tag: string -> string, c: Cache, held: set<string>, fleet: seq<Target>, at: int): set<string> {
    (Known(tag, c, at) + held) * Ids(tag, fleet, at)
  }

  function Least(a: int, b: int): int {
    if a < b then a else b
  }

  /** After k passes of a window that started with m of its n due Guards known, at least min(n, m + 16k) have been probed
      if every probe marks the window, and at least min(n, m + 8k) whatever the Guards answered. */
  lemma Coverage(tag: string -> string, c: Cache, held: set<string>, candidates: seq<Target>, fleet: seq<Target>, passes: seq<Pass>, at: int)
    requires Fleet(tag, candidates, at) && Fleet(tag, fleet, at) && (forall t | t in fleet :: t in candidates)
    requires Passes(tag, c, held, candidates, fleet, passes, at)
    ensures var probed, m := |Reached(tag, After(tag, c, passes), HeldAfter(tag, held, passes, at), fleet, at)|, KnownOf(tag, c, fleet, at);
      && probed >= Least(|fleet|, m + PER_PASS / 2 * |passes|)
      && (AllMarkBefore(passes, |passes|) ==> probed >= Least(|fleet|, m + PER_PASS * |passes|))
  {
    CoveredAtEnd(tag, c, held, candidates, fleet, passes, at);
    IdsCard(tag, fleet, at);
    CountsProbed(Known(tag, After(tag, c, passes), at), HeldAfter(tag, held, passes, at), Ids(tag, fleet, at), KnownOf(tag, c, fleet, at),
                 |passes|, AllMarkBefore(passes, |passes|));
  }

  lemma CoveredAtEnd(tag: string -> string, c: Cache, held: set<string>, candidates: seq<Target>, fleet: seq<Target>, passes: seq<Pass>, at: int)
    requires Fleet(tag, candidates, at) && (forall t | t in fleet :: t in candidates) && Passes(tag, c, held, candidates, fleet, passes, at)
    ensures Covered(Known(tag, After(tag, c, passes), at), HeldAfter(tag, held, passes, at), Ids(tag, fleet, at),
      KnownOf(tag, c, fleet, at), |passes|, AllMarkBefore(passes, |passes|))
  {
    ScorePerPass(tag, c, held, candidates, fleet, passes, at, |passes|);
    assert passes[..|passes|] == passes;
  }

  lemma CountsProbed(known: set<string>, held: set<string>, goal: set<string>, m: nat, k: nat, allMark: bool)
    requires Covered(known, held, goal, m, k, allMark)
    ensures |(known + held) * goal| >= Least(|goal|, m + PER_PASS / 2 * k)
    ensures allMark ==> |(known + held) * goal| >= Least(|goal|, m + PER_PASS * k)
  {
    var part, probed := known * goal, (known + held) * goal;
    assert part <= probed;
    SubsetCard(part, probed);
    assert Score(known, held, goal) == |part| + |probed| <= 2 * |probed|;
    if AllProbed(known, held, goal) { assert probed == goal; }
  }

  // ---------------------------------------------------------------- how often a Guard is picked

  lemma KnownIsNotPicked(tag: string -> string, c: Cache, candidates: seq<Target>, t: Target, table: Table, now: int, at: int)
    requires now / PERIOD == at / PERIOD && !t.mtls && CommandId(tag, t, at) in Known(tag, c, at)
    ensures t !in Picked(tag, c, table, now, candidates)
  {
    KnownIsSpent(tag, c, t, now, at);
    assert t !in Wanted(tag, c, table, now, candidates);
  }

  ghost function KnownAfter(tag: string -> string, c: Cache, passes: seq<Pass>, at: int, k: nat): set<string>
    requires k <= |passes|
  {
    Known(tag, After(tag, c, passes[..k]), at)
  }

  ghost function HubAfter(tag: string -> string, held: set<string>, passes: seq<Pass>, at: int, k: nat): set<string>
    requires k <= |passes|
  {
    HeldAfter(tag, held, passes[..k], at)
  }

  lemma BothGrow(tag: string -> string, c: Cache, held: set<string>, candidates: seq<Target>, fleet: seq<Target>, passes: seq<Pass>, at: int, k: nat)
    requires Fleet(tag, candidates, at) && PassAt(tag, c, held, candidates, fleet, passes, at, k) && k < |passes|
    ensures KnownAfter(tag, c, passes, at, k) <= KnownAfter(tag, c, passes, at, k + 1)
    ensures HubAfter(tag, held, passes, at, k) <= HubAfter(tag, held, passes, at, k + 1)
  {
    PassAdds(tag, After(tag, c, passes[..k]), candidates, passes[k], at);
    AfterOne(tag, c, held, passes, at, k);
  }

  lemma {:induction false} BothStay(tag: string -> string, c: Cache, held: set<string>, candidates: seq<Target>,
      fleet: seq<Target>, passes: seq<Pass>, at: int, i: nat, k: nat)
    requires Fleet(tag, candidates, at) && Passes(tag, c, held, candidates, fleet, passes, at) && i <= k <= |passes|
    ensures KnownAfter(tag, c, passes, at, i) <= KnownAfter(tag, c, passes, at, k)
    ensures HubAfter(tag, held, passes, at, i) <= HubAfter(tag, held, passes, at, k)
    decreases k
  {
    if i < k {
      BothStay(tag, c, held, candidates, fleet, passes, at, i, k - 1);
      assert PassAt(tag, c, held, candidates, fleet, passes, at, k - 1);
      BothGrow(tag, c, held, candidates, fleet, passes, at, k - 1);
    }
  }

  /** A Guard whose probe marked the window in pass `i` is not picked by any later pass `j`. */
  lemma NoneTwice(tag: string -> string, c: Cache, held: set<string>, candidates: seq<Target>, fleet: seq<Target>, passes: seq<Pass>, at: int, i: nat, j: nat, f: Finish)
    requires Fleet(tag, candidates, at) && Passes(tag, c, held, candidates, fleet, passes, at) && i < j < |passes|
    requires f in passes[i].finished && Marks(f.outcome) && f.target in candidates
    ensures f.target !in Picked(tag, After(tag, c, passes[..j]), passes[j].table, passes[j].now, candidates)
  {
    assert PassAt(tag, c, held, candidates, fleet, passes, at, i) && PassAt(tag, c, held, candidates, fleet, passes, at, j);
    PassAdds(tag, After(tag, c, passes[..i]), candidates, passes[i], at);
    AfterOne(tag, c, held, passes, at, i);
    assert CommandId(tag, f.target, at) in KnownAfter(tag, c, passes, at, i + 1);
    BothStay(tag, c, held, candidates, fleet, passes, at, i + 1, j);
    KnownIsNotPicked(tag, After(tag, c, passes[..j]), candidates, f.target, passes[j].table, passes[j].now, at);
  }

  /** A Guard that answered with the upgrade refusal in pass `i` is picked at most once more: the hub then says that the
      command exists, and that marks the window. */
  lemma UpgradeAnswerIsMarkedNext(tag: string -> string, c: Cache, held: set<string>, candidates: seq<Target>,
      fleet: seq<Target>, passes: seq<Pass>, at: int, i: nat, j: nat, f: Finish, g: Finish)
    requires Fleet(tag, candidates, at) && Passes(tag, c, held, candidates, fleet, passes, at) && i < j < |passes|
    requires f in passes[i].finished && f.outcome.AnsweredUpgrade? && g in passes[j].finished && g.target == f.target
    ensures g.outcome.AlreadySent? && Marks(g.outcome)
  {
    assert PassAt(tag, c, held, candidates, fleet, passes, at, i) && PassAt(tag, c, held, candidates, fleet, passes, at, j);
    AfterOne(tag, c, held, passes, at, i);
    var id := CommandId(tag, f.target, at);
    assert id in AcceptedIds(tag, passes[i].finished, at);
    assert id in HubAfter(tag, held, passes, at, i + 1);
    BothStay(tag, c, held, candidates, fleet, passes, at, i + 1, j);
    assert id !in AcceptedIds(tag, passes[j].finished, at);
    assert ReachesHub(g.outcome);
  }

  // ---------------------------------------------------------------- what the refusals cost

  lemma {:induction false} UnmarkedChangeNothing(tag: string -> string, c: Cache, now: int, finished: seq<Finish>)
    requires forall f | f in finished :: !Marks(f.outcome)
    ensures AllSettled(tag, c, now, finished) == c
  {
    if finished != [] { UnmarkedChangeNothing(tag, c, now, finished[..|finished| - 1]); }
  }

  lemma FirstSixteen(tag: string -> string, c: Cache, table: Table, now: int, candidates: seq<Target>)
    requires |candidates| >= PER_PASS && forall t | t in candidates :: Eligible(tag, c, table, now, t)
    ensures Picked(tag, c, table, now, candidates) == candidates[..PER_PASS]
  {
    FilterAll(candidates, t => Eligible(tag, c, table, now, t));
  }

  ghost predicate Refuses(candidates: seq<Target>, p: Pass, at: int) {
    && p.now / PERIOD == at / PERIOD && (forall f | f in p.finished :: f.outcome.PinTooOld?)
    && (forall t | t in candidates :: Due(t, Lookup(TripsOf(p.table, t.tenant), t.agent), p.now))
  }

  lemma EligibleWhileUnknown(tag: string -> string, c: Cache, candidates: seq<Target>, p: Pass, at: int)
    requires Refuses(candidates, p, at) && Fleet(tag, candidates, at) && Known(tag, c, at) !! Ids(tag, candidates, at)
    ensures forall t | t in candidates :: Eligible(tag, c, p.table, p.now, t)
  {
    forall t | t in candidates
      ensures Eligible(tag, c, p.table, p.now, t)
    {
      KnownIsSpent(tag, c, t, p.now, at);
    }
  }

  ghost predicate RefusesAt(candidates: seq<Target>, passes: seq<Pass>, at: int, n: nat) {
    n < |passes| ==> Refuses(candidates, passes[n], at)
  }

  /** With a release pin that has no host commands every pass of the window, whenever it runs and whatever round trips
      it reads, picks the same first sixteen due Guards, and no other is ever reached. */
  lemma {:induction false} PinTooOldIsStuck(tag: string -> string, c: Cache, candidates: seq<Target>, passes: seq<Pass>, at: int, k: nat)
    requires Fleet(tag, candidates, at) && |candidates| >= PER_PASS && Known(tag, c, at) !! Ids(tag, candidates, at)
    requires (forall n: nat :: RefusesAt(candidates, passes, at, n)) && k < |passes|
    ensures After(tag, c, passes[..k]) == c
    ensures Picked(tag, After(tag, c, passes[..k]), passes[k].table, passes[k].now, candidates) == candidates[..PER_PASS]
    decreases k
  {
    if k > 0 {
      PinTooOldIsStuck(tag, c, candidates, passes, at, k - 1);
      assert RefusesAt(candidates, passes, at, k - 1);
      AfterOne(tag, c, {}, passes, at, k - 1);
      UnmarkedChangeNothing(tag, c, passes[k - 1].now, passes[k - 1].finished);
    }
    assert RefusesAt(candidates, passes, at, k);
    EligibleWhileUnknown(tag, c, candidates, passes[k], at);
    FirstSixteen(tag, c, passes[k].table, passes[k].now, candidates);
  }

  /** The pass in which the first sixteen Guards of a due fleet all give one outcome. */
  function OnePass(now: int, candidates: seq<Target>, o: Outcome): Pass
    requires |candidates| >= PER_PASS
  {
    Pass(now, map[], {}, seq(PER_PASS, i requires 0 <= i < PER_PASS => Finish(candidates[i], o)))
  }

  lemma OnePassRuns(tag: string -> string, c: Cache, candidates: seq<Target>, now: int, o: Outcome)
    requires Fleet(tag, candidates, now) && |candidates| >= PER_PASS && Known(tag, c, now) !! Ids(tag, candidates, now)
    ensures Ran(tag, c, candidates, OnePass(now, candidates, o), now) && EndsOnce(OnePass(now, candidates, o))
  {
    var p := OnePass(now, candidates, o);
    forall t | t in candidates
      ensures Eligible(tag, c, map[], now, t)
    {
      KnownIsSpent(tag, c, t, now, now);
    }
    FirstSixteen(tag, c, map[], now, candidates);
    forall t | t in candidates[..PER_PASS]
      ensures Finish(t, o) in p.finished
    {
      var i :| 0 <= i < PER_PASS && candidates[i] == t;
      assert p.finished[i] == Finish(t, o);
    }
  }

  lemma OnePassOk(tag: string -> string, fleet: seq<Target>, now: int, held: set<string>, o: Outcome)
    requires Fleet(tag, fleet, now) && |fleet| >= PER_PASS
    requires (o.AnsweredUpgrade? && held == {}) || (o.AlreadySent? && held == Ids(tag, fleet[..PER_PASS], now))
    ensures PassOk(tag, EMPTY, held, fleet, fleet, OnePass(now, fleet, o), now)
  {
    var p := OnePass(now, fleet, o);
    OnePassRuns(tag, EMPTY, fleet, now, o);
    OnePassIds(tag, fleet, now, o);
    forall f | f in p.finished && f.outcome.AlreadySent?
      ensures CommandId(tag, f.target, now) in held
    {
      assert f.target in fleet[..PER_PASS];
    }
  }

  lemma TwoPasses(tag: string -> string, c: Cache, held: set<string>, a: Pass, b: Pass, at: int)
    ensures After(tag, c, [a, b][..0]) == c && HeldAfter(tag, held, [a, b][..0], at) == held
    ensures After(tag, c, [a, b][..1]) == AllSettled(tag, c, a.now, a.finished) && HeldAfter(tag, held, [a, b][..1], at) == HeldNext(tag, held, a, at)
    ensures After(tag, c, [a, b]) == AllSettled(tag, AllSettled(tag, c, a.now, a.finished), b.now, b.finished)
    ensures HeldAfter(tag, held, [a, b], at) == HeldNext(tag, HeldNext(tag, held, a, at), b, at)
  {
    assert [a, b][..0] == [] && [a, b][..2] == [a, b];
    AfterOne(tag, c, held, [a, b], at, 0);
    AfterOne(tag, c, held, [a, b], at, 1);
  }

  /** Upgrade answers cost a second pass: from a fresh cache and hub, two passes in which the first sixteen Guards of a
      larger due fleet answer with the upgrade refusal and are then already sent are a run in which only those sixteen
      have been probed. */
  lemma UpgradeAnswersHalve(tag: string -> string, fleet: seq<Target>, now: int)
    requires Fleet(tag, fleet, now) && |fleet| > PER_PASS
    ensures var passes := [OnePass(now, fleet, AnsweredUpgrade), OnePass(now, fleet, AlreadySent)];
      && Passes(tag, EMPTY, {}, fleet, fleet, passes, now)
      && |Reached(tag, After(tag, EMPTY, passes), HeldAfter(tag, {}, passes, now), fleet, now)| == PER_PASS
  {
    var first, second := OnePass(now, fleet, AnsweredUpgrade), OnePass(now, fleet, AlreadySent);
    forall n: nat
      ensures PassAt(tag, EMPTY, {}, fleet, fleet, [first, second], now, n)
    {
      HalvedPassAt(tag, fleet, now, n);
    }
    HalvedReach(tag, fleet, now);
  }

  ghost predicate SixteenEach(tag: string -> string, fleet: seq<Target>, passes: seq<Pass>, at: int) {
    |Reached(tag, After(tag, EMPTY, passes), HeldAfter(tag, {}, passes, at), fleet, at)| >= Least(|fleet|, PER_PASS * |passes|)
  }

  /** Min(n, 16k) after every k passes holds for all runs over a fleet exactly when no Guard answers with the upgrade
      refusal or one pass has room for all of them. */
  lemma SixteenEachExactly(tag: string -> string, fleet: seq<Target>, at: int, upgradeAnswers: bool)
    requires Fleet(tag, fleet, at)
    ensures (forall passes | Passes(tag, EMPTY, {}, fleet, fleet, passes, at) && (upgradeAnswers || AllMarkBefore(passes, |passes|)) ::
               SixteenEach(tag, fleet, passes, at)) <==> !upgradeAnswers || |fleet| <= PER_PASS
  {
    if upgradeAnswers && |fleet| > PER_PASS {
      UpgradeAnswersHalve(tag, fleet, at);
      assert !SixteenEach(tag, fleet, [OnePass(at, fleet, AnsweredUpgrade), OnePass(at, fleet, AlreadySent)], at);
    } else {
      forall passes | Passes(tag, EMPTY, {}, fleet, fleet, passes, at) && (upgradeAnswers || AllMarkBefore(passes, |passes|))
        ensures SixteenEach(tag, fleet, passes, at)
      {
        if |fleet| <= PER_PASS { SmallFleet(tag, fleet, passes, at); } else { MarkedFleet(tag, fleet, passes, at); }
      }
    }
  }

  lemma MarkedFleet(tag: string -> string, fleet: seq<Target>, passes: seq<Pass>, at: int)
    requires Fleet(tag, fleet, at) && Passes(tag, EMPTY, {}, fleet, fleet, passes, at) && AllMarkBefore(passes, |passes|)
    ensures SixteenEach(tag, fleet, passes, at)
  {
    Coverage(tag, EMPTY, {}, fleet, fleet, passes, at);
  }

  lemma FirstPassReachesAll(tag: string -> string, fleet: seq<Target>, p: Pass, at: int)
    requires Fleet(tag, fleet, at) && |fleet| <= PER_PASS && PassOk(tag, EMPTY, {}, fleet, fleet, p, at)
    ensures Ids(tag, fleet, at) <= Known(tag, AllSettled(tag, EMPTY, p.now, p.finished), at) + HeldNext(tag, {}, p, at)
  {
    RoomyPassReachesAll(tag, EMPTY, {}, fleet, fleet, p, at);
    PassSets(tag, EMPTY, {}, fleet, fleet, p, at);
  }

  /** One pass reaches all of a small fleet, whatever they answer. */
  lemma SmallFleet(tag: string -> string, fleet: seq<Target>, passes: seq<Pass>, at: int)
    requires Fleet(tag, fleet, at) && |fleet| <= PER_PASS && Passes(tag, EMPTY, {}, fleet, fleet, passes, at)
    ensures SixteenEach(tag, fleet, passes, at)
  {
    if passes != [] {
      var goal := Ids(tag, fleet, at);
      assert PassAt(tag, EMPTY, {}, fleet, fleet, passes, at, 0) && passes[..0] == [] && passes[..|passes|] == passes;
      AfterOne(tag, EMPTY, {}, passes, at, 0);
      FirstPassReachesAll(tag, fleet, passes[0], at);
      BothStay(tag, EMPTY, {}, fleet, fleet, passes, at, 1, |passes|);
      IdsCard(tag, fleet, at);
      assert Reached(tag, After(tag, EMPTY, passes), HeldAfter(tag, {}, passes, at), fleet, at) == goal;
    }
  }

  lemma HalvedSets(tag: string -> string, fleet: seq<Target>, now: int)
    requires Fleet(tag, fleet, now) && |fleet| > PER_PASS
    ensures var passes, ids := [OnePass(now, fleet, AnsweredUpgrade), OnePass(now, fleet, AlreadySent)], Ids(tag, fleet[..PER_PASS], now);
      Known(tag, After(tag, EMPTY, passes), now) == ids && HeldAfter(tag, {}, passes, now) == ids
  {
    var first, second := OnePass(now, fleet, AnsweredUpgrade), OnePass(now, fleet, AlreadySent);
    TwoPasses(tag, EMPTY, {}, first, second, now);
    UnmarkedChangeNothing(tag, EMPTY, now, first.finished);
    OnePassIds(tag, fleet, now, AnsweredUpgrade);
    OnePassIds(tag, fleet, now, AlreadySent);
    SettlingAdds(tag, EMPTY, now, second.finished, now);
    assert Known(tag, EMPTY, now) == {};
  }

  lemma HalvedReach(tag: string -> string, fleet: seq<Target>, now: int)
    requires Fleet(tag, fleet, now) && |fleet| > PER_PASS
    ensures var passes := [OnePass(now, fleet, AnsweredUpgrade), OnePass(now, fleet, AlreadySent)];
      |Reached(tag, After(tag, EMPTY, passes), HeldAfter(tag, {}, passes, now), fleet, now)| == PER_PASS
  {
    var ids := Ids(tag, fleet[..PER_PASS], now);
    HalvedSets(tag, fleet, now);
    FleetPrefix(tag, fleet, now);
    IdsCard(tag, fleet[..PER_PASS], now);
    assert (ids + ids) * Ids(tag, fleet, now) == ids;
  }

  lemma HalvedPassAt(tag: string -> string, fleet: seq<Target>, now: int, n: nat)
    requires Fleet(tag, fleet, now) && |fleet| > PER_PASS
    ensures PassAt(tag, EMPTY, {}, fleet, fleet, [OnePass(now, fleet, AnsweredUpgrade), OnePass(now, fleet, AlreadySent)], now, n)
  {
    var first, second, ids := OnePass(now, fleet, AnsweredUpgrade), OnePass(now, fleet, AlreadySent), Ids(tag, fleet[..PER_PASS], now);
    TwoPasses(tag, EMPTY, {}, first, second, now);
    UnmarkedChangeNothing(tag, EMPTY, now, first.finished);
    OnePassIds(tag, fleet, now, AnsweredUpgrade);
    OnePassOk(tag, fleet, now, {}, AnsweredUpgrade);
    OnePassOk(tag, fleet, now, ids, AlreadySent);
  }

  lemma FleetPrefix(tag: string -> string, fleet: seq<Target>, at: int)
    requires Fleet(tag, fleet, at) && |fleet| >= PER_PASS
    ensures Fleet(tag, fleet[..PER_PASS], at) && Ids(tag, fleet[..PER_PASS], at) <= Ids(tag, fleet, at)
  {
  }

  lemma OnePassIds(tag: string -> string, fleet: seq<Target>, now: int, o: Outcome)
    requires |fleet| >= PER_PASS
    ensures var p, ids := OnePass(now, fleet, o), Ids(tag, fleet[..PER_PASS], now);
      && (o.AnsweredUpgrade? ==> AcceptedIds(tag, p.finished, now) == ids && MarkingIds(tag, p.finished, now) == {})
      && (o.AlreadySent? ==> AcceptedIds(tag, p.finished, now) == {} && MarkingIds(tag, p.finished, now) == ids)
  {
    var p := OnePass(now, fleet, o);
    forall t | t in fleet[..PER_PASS]
      ensures Finish(t, o) in p.finished
    {
      var i :| 0 <= i < PER_PASS && fleet[i] == t;
      assert p.finished[i] == Finish(t, o);
    }
    assert forall f | f in p.finished :: f.outcome == o && f.target in fleet[..PER_PASS];
  }
}
