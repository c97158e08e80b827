/** What the upgrade answers of some Guards cost: after k passes of a window all but
    as many of the first 16k due Guards are probed as refusers were among those that
    k - 1 passes could take, and this is exact for the promise of sixteen each. */
module ProbeDelays {
  import opened Common
  import opened ProbeIds
  import opened ProbePass
  import opened ProbeCoverage

  /** The Guards that answered with the upgrade refusal. */
  function Refused(tag: string -> string, passes: seq<Pass>, at: int): set<string> {
    if passes == [] then {}
    else Refused(tag, passes[..|passes| - 1], at) + UpgradeIds(tag, passes[|passes| - 1].finished, at)
  }

  predicate DueIn(t: Target, p: Pass) {
    Due(t, Lookup(TripsOf(p.table, t.tenant), t.agent), p.now)
  }

  /** A Guard with a fresh round trip keeps it for the window. */
  ghost predicate StaysFresh(fleet: seq<Target>, passes: seq<Pass>) {
    forall i, j, t | 0 <= i < j < |passes| && t in fleet && !DueIn(t, passes[i]) :: !DueIn(t, passes[j])
  }

  lemma StaysFreshPrefix(fleet: seq<Target>, passes: seq<Pass>, n: nat)
    requires StaysFresh(fleet, passes) && n <= |passes|
    ensures StaysFresh(fleet, passes[..n])
  {
  }

  // ---------------------------------------------------------------- how far down the list the passes came

  /** The first `n` Guards of the list. */
  function Front(fleet: seq<Target>, n: int): seq<Target> {
    if n <= 0 then [] else if n >= |fleet| then fleet else fleet[..n]
  }

  lemma FrontIds(tag: string -> string, fleet: seq<Target>, n: int, at: int)
    requires Fleet(tag, fleet, at)
    ensures Fleet(tag, Front(fleet, n), at) && |Ids(tag, Front(fleet, n), at)| == |Front(fleet, n)|
    ensures Ids(tag, Front(fleet, n), at) <= Ids(tag, fleet, at)
  {
    IdsCard(tag, Front(fleet, n), at);
  }

  lemma FrontsNest(tag: string -> string, fleet: seq<Target>, m: int, n: int, at: int)
    requires m <= n
    ensures Ids(tag, Front(fleet, m), at) <= Ids(tag, Front(fleet, n), at)
  {
    assert forall t | t in Front(fleet, m) :: t in Front(fleet, n);
  }

  /** The picks of a full pass are the eligible targets up to some place in the list. */
  lemma {:induction false} PicksReachTo(tag: string -> string, c: Cache, table: Table, now: int, targets: seq<Target>) returns (i: nat)
    requires |Picked(tag, c, table, now, targets)| == PER_PASS
    ensures i <= |targets| && Picked(tag, c, table, now, targets) == Wanted(tag, c, table, now, targets[..i])
    decreases |targets|
  {
    if |Wanted(tag, c, table, now, targets)| == PER_PASS {
      i := |targets|;
      assert targets[..i] == targets;
    } else {
      var n := |targets| - 1;
      WantedStep(tag, c, table, now, targets, n);
      assert targets[..n + 1] == targets;
      i := PicksReachTo(tag, c, table, now, targets[..n]);
      assert targets[..n][..i] == targets[..i];
    }
  }

  /** What is known and held after these passes, and who refused. */
  datatype Sets = Sets(known: set<string>, held: set<string>, refused: set<string>)

  ghost function SetsAfter(tag: string -> string, passes: seq<Pass>, at: int): Sets {
    Sets(Known(tag, After(tag, EMPTY, passes), at), HeldAfter(tag, {}, passes, at), Refused(tag, passes, at))
  }

  /** All dispatches were to the front, everyone in it is probed, and each pass took sixteen. */
  ghost predicate Lined(s: Sets, front: set<string>, k: nat) {
    && s.known + s.refused <= front <= s.known + s.held && s.refused <= s.held
    && |s.known| + |s.refused| == PER_PASS * k
  }

  /** Those in the front that were never dispatched to have a fresh round trip. */
  ghost predicate RestIsFresh(tag: string -> string, s: Sets, front: seq<Target>, p: Pass, at: int) {
    forall t | t in front && CommandId(tag, t, at) !in s.known + s.refused :: !DueIn(t, p)
  }

  lemma PassesSplit(tag: string -> string, fleet: seq<Target>, passes: seq<Pass>, at: int)
    requires passes != [] && Passes(tag, EMPTY, {}, fleet, fleet, passes, at)
    ensures var n := |passes| - 1;
      Passes(tag, EMPTY, {}, fleet, fleet, passes[..n], at) &&
      PassOk(tag, After(tag, EMPTY, passes[..n]), HeldAfter(tag, {}, passes[..n], at), fleet, fleet, passes[n], at)
  {
    var n := |passes| - 1;
    assert PassAt(tag, EMPTY, {}, fleet, fleet, passes, at, n);
    forall i: nat
      ensures PassAt(tag, EMPTY, {}, fleet, fleet, passes[..n], at, i)
    {
      assert PassAt(tag, EMPTY, {}, fleet, fleet, passes, at, i);
      if i < n { assert passes[..n][..i] == passes[..i]; }
    }
  }

  /** What one more pass does to the sets. */
  ghost predicate Grows(s: Sets, s': Sets, marking: set<string>, upgrade: set<string>, picked: set<string>) {
    && s'.known == s.known + marking && s'.refused == s.refused + upgrade && s.held + upgrade <= s'.held
    && marking + upgrade == picked && marking !! upgrade && s.known !! picked && upgrade !! s.held
  }

  lemma PassGrows(tag: string -> string, fleet: seq<Target>, before: seq<Pass>, p: Pass, at: int)
    requires Fleet(tag, fleet, at)
    requires PassOk(tag, After(tag, EMPTY, before), HeldAfter(tag, {}, before, at), fleet, fleet, p, at)
    ensures Grows(SetsAfter(tag, before, at), SetsAfter(tag, before + [p], at), MarkingIds(tag, p.finished, at), UpgradeIds(tag, p.finished, at),
                  Ids(tag, Picked(tag, After(tag, EMPTY, before), p.table, p.now, fleet), at))
  {
    PassSets(tag, After(tag, EMPTY, before), HeldAfter(tag, {}, before, at), fleet, fleet, p, at);
    assert (before + [p])[..|before|] == before;
  }

  /** A target with a fresh round trip is not picked. */
  lemma FreshIsNotPicked(tag: string -> string, c: Cache, fleet: seq<Target>, t: Target, p: Pass, at: int)
    requires Fleet(tag, fleet, at) && t in fleet && !DueIn(t, p)
    ensures CommandId(tag, t, at) !in Ids(tag, Picked(tag, c, p.table, p.now, fleet), at)
  {
    var picked := Picked(tag, c, p.table, p.now, fleet);
    forall u | u in picked
      ensures CommandId(tag, u, at) != CommandId(tag, t, at)
    {
      assert u in Wanted(tag, c, p.table, p.now, fleet);
      assert u in fleet && DueIn(u, p);
      if CommandId(tag, u, at) == CommandId(tag, t, at) { NamesOneTarget(tag, fleet, at, t, u); }
    }
  }

  /** Up to the last pick everyone is known, picked or fresh. */
  lemma UpToTheLastPick(tag: string -> string, c: Cache, fleet: seq<Target>, p: Pass, at: int, i: nat, t: Target)
    requires Fleet(tag, fleet, at) && p.now / PERIOD == at / PERIOD && i <= |fleet| && t in fleet[..i]
    requires Picked(tag, c, p.table, p.now, fleet) == Wanted(tag, c, p.table, p.now, fleet[..i])
    ensures CommandId(tag, t, at) in Known(tag, c, at) || t in Picked(tag, c, p.table, p.now, fleet) || !DueIn(t, p)
  {
    KnownIsSpent(tag, c, t, p.now, at);
  }

  lemma PicksAreUpTo(tag: string -> string, c: Cache, fleet: seq<Target>, p: Pass, at: int, i: nat)
    requires i <= |fleet| && Picked(tag, c, p.table, p.now, fleet) == Wanted(tag, c, p.table, p.now, fleet[..i])
    ensures Ids(tag, Picked(tag, c, p.table, p.now, fleet), at) <= Ids(tag, fleet[..i], at)
  {
  }

  lemma SetsLine(s: Sets, s': Sets, marking: set<string>, upgrade: set<string>, picked: set<string>, front: set<string>, front': set<string>, k: nat)
    requires Lined(s, front, k) && Grows(s, s', marking, upgrade, picked) && |picked| == PER_PASS
    requires front <= front' && picked <= front' && front' <= front + s'.known + s'.held
    ensures Lined(s', front', k + 1)
  {
    DisjointCard(s.known, marking);
    DisjointCard(s.refused, upgrade);
    DisjointCard(marking, upgrade);
  }

  /** The step: a full pass moves the front on, and leaves those it skipped alone. */
  lemma FullPassLines(tag: string -> string, fleet: seq<Target>, before: seq<Pass>, p: Pass, at: int, l: nat) returns (l': nat)
    requires Fleet(tag, fleet, at) && l <= |fleet|
    requires PassOk(tag, After(tag, EMPTY, before), HeldAfter(tag, {}, before, at), fleet, fleet, p, at)
    requires |Picked(tag, After(tag, EMPTY, before), p.table, p.now, fleet)| == PER_PASS
    requires Lined(SetsAfter(tag, before, at), Ids(tag, Front(fleet, l), at), |before|)
    requires RestIsFresh(tag, SetsAfter(tag, before, at), Front(fleet, l), p, at)
    ensures l <= l' <= |fleet|
    ensures Lined(SetsAfter(tag, before + [p], at), Ids(tag, Front(fleet, l'), at), |before| + 1)
    ensures RestIsFresh(tag, SetsAfter(tag, before + [p], at), Front(fleet, l'), p, at)
    ensures var s, s' := SetsAfter(tag, before, at), SetsAfter(tag, before + [p], at);
      Ids(tag, Front(fleet, l), at) - (s.known + s.refused) !! s'.known + s'.refused
  {
    var i := PicksReachTo(tag, After(tag, EMPTY, before), p.table, p.now, fleet);
    l' := if i > l then i else l;
    PassGrows(tag, fleet, before, p, at);
    FrontIsProbedOrFresh(tag, fleet, After(tag, EMPTY, before), p, at, l, i, SetsAfter(tag, before, at), SetsAfter(tag, before + [p], at));
    FrontMoves(tag, fleet, After(tag, EMPTY, before), p, at, l, i, SetsAfter(tag, before, at), SetsAfter(tag, before + [p], at),
               MarkingIds(tag, p.finished, at), UpgradeIds(tag, p.finished, at), |before|);
    SkippedAreNotPicked(tag, fleet, before, p, at, l);
  }

  lemma FrontMoves(tag: string -> string, fleet: seq<Target>, c: Cache, p: Pass, at: int, l: nat, i: nat, s: Sets, s': Sets,
      marking: set<string>, upgrade: set<string>, k: nat)
    requires Fleet(tag, fleet, at) && l <= |fleet| && i <= |fleet| && |Picked(tag, c, p.table, p.now, fleet)| == PER_PASS
    requires Picked(tag, c, p.table, p.now, fleet) == Wanted(tag, c, p.table, p.now, fleet[..i])
    requires Lined(s, Ids(tag, Front(fleet, l), at), k)
    requires Grows(s, s', marking, upgrade, Ids(tag, Picked(tag, c, p.table, p.now, fleet), at))
    requires Ids(tag, Front(fleet, if i > l then i else l), at) <= Ids(tag, Front(fleet, l), at) + s'.known + s'.held
    ensures Lined(s', Ids(tag, Front(fleet, if i > l then i else l), at), k + 1)
  {
    var l' := if i > l then i else l;
    PickIds(tag, fleet, c, p, at, i);
    FrontsNest(tag, fleet, i, l', at);
    FrontsNest(tag, fleet, l, l', at);
    SetsLine(s, s', marking, upgrade, Ids(tag, Picked(tag, c, p.table, p.now, fleet), at),
             Ids(tag, Front(fleet, l), at), Ids(tag, Front(fleet, l'), at), k);
  }

  lemma PickIds(tag: string -> string, fleet: seq<Target>, c: Cache, p: Pass, at: int, i: nat)
    requires Fleet(tag, fleet, at) && i <= |fleet| && |Picked(tag, c, p.table, p.now, fleet)| == PER_PASS
    requires Picked(tag, c, p.table, p.now, fleet) == Wanted(tag, c, p.table, p.now, fleet[..i])
    ensures var ids := Ids(tag, Picked(tag, c, p.table, p.now, fleet), at); |ids| == PER_PASS && ids <= Ids(tag, Front(fleet, i), at)
  {
    PicksAreAFleet(tag, c, p.table, p.now, fleet, at);
    IdsCard(tag, Picked(tag, c, p.table, p.now, fleet), at);
    PicksAreUpTo(tag, c, fleet, p, at, i);
    assert Front(fleet, i) == fleet[..i];
  }

  lemma FrontIsProbedOrFresh(tag: string -> string, fleet: seq<Target>, c: Cache, p: Pass, at: int, l: nat, i: nat, s: Sets, s': Sets)
    requires Fleet(tag, fleet, at) && l <= |fleet| && i <= |fleet| && p.now / PERIOD == at / PERIOD
    requires s.known == Known(tag, c, at) && FleetIsDue(tag, c, s.held, fleet, fleet, p, at) && RestIsFresh(tag, s, Front(fleet, l), p, at)
    requires Picked(tag, c, p.table, p.now, fleet) == Wanted(tag, c, p.table, p.now, fleet[..i])
    requires Grows(s, s', MarkingIds(tag, p.finished, at), UpgradeIds(tag, p.finished, at), Ids(tag, Picked(tag, c, p.table, p.now, fleet), at))
    ensures var front := Front(fleet, if i > l then i else l);
      RestIsFresh(tag, s', front, p, at) && Ids(tag, front, at) <= Ids(tag, Front(fleet, l), at) + s'.known + s'.held
  {
    var first, front := Front(fleet, l), Front(fleet, if i > l then i else l);
    forall t | t in front
      ensures t in first || CommandId(tag, t, at) in s'.known + s'.held
      ensures CommandId(tag, t, at) in s'.known + s'.refused || !DueIn(t, p)
    {
      if t in first {
        assert CommandId(tag, t, at) in s.known + s.refused || !DueIn(t, p);
      } else {
        UpToTheLastPick(tag, c, fleet, p, at, i, t);
        PickedOrFresh(tag, fleet, s, s', c, p, at, t);
      }
    }
    IdsWithin(tag, front, first, s'.known + s'.held, at);
  }

  lemma IdsWithin(tag: string -> string, targets: seq<Target>, others: seq<Target>, ids: set<string>, at: int)
    requires forall t | t in targets :: t in others || CommandId(tag, t, at) in ids
    ensures Ids(tag, targets, at) <= Ids(tag, others, at) + ids
  {
  }

  ghost predicate ProbedOrFresh(tag: string -> string, s: Sets, t: Target, p: Pass, at: int) {
    CommandId(tag, t, at) in s.known + s.held && (CommandId(tag, t, at) in s.known + s.refused || !DueIn(t, p))
  }

  lemma PickedOrFresh(tag: string -> string, fleet: seq<Target>, s: Sets, s': Sets, c: Cache, p: Pass, at: int, t: Target)
    requires t in fleet && FleetIsDue(tag, c, s.held, fleet, fleet, p, at) && s.known == Known(tag, c, at)
    requires Grows(s, s', MarkingIds(tag, p.finished, at), UpgradeIds(tag, p.finished, at), Ids(tag, Picked(tag, c, p.table, p.now, fleet), at))
    requires CommandId(tag, t, at) in s.known || t in Picked(tag, c, p.table, p.now, fleet) || !DueIn(t, p)
    ensures ProbedOrFresh(tag, s', t, p, at)
  {
    if t in Picked(tag, c, p.table, p.now, fleet) { assert CommandId(tag, t, at) in Ids(tag, Picked(tag, c, p.table, p.now, fleet), at); }
  }

  lemma SkippedAreNotPicked(tag: string -> string, fleet: seq<Target>, before: seq<Pass>, p: Pass, at: int, l: nat)
    requires Fleet(tag, fleet, at) && l <= |fleet|
    requires PassOk(tag, After(tag, EMPTY, before), HeldAfter(tag, {}, before, at), fleet, fleet, p, at)
    requires RestIsFresh(tag, SetsAfter(tag, before, at), Front(fleet, l), p, at)
    ensures var s, s' := SetsAfter(tag, before, at), SetsAfter(tag, before + [p], at);
      Ids(tag, Front(fleet, l), at) - (s.known + s.refused) !! s'.known + s'.refused
  {
    var c, s := After(tag, EMPTY, before), SetsAfter(tag, before, at);
    PassGrows(tag, fleet, before, p, at);
    forall t | t in Front(fleet, l) && CommandId(tag, t, at) !in s.known + s.refused
      ensures CommandId(tag, t, at) !in Ids(tag, Picked(tag, c, p.table, p.now, fleet), at)
    {
      FreshIsNotPicked(tag, c, fleet, t, p, at);
    }
  }

  // ---------------------------------------------------------------- the bound

  lemma DisjointWithin(a: set<string>, b: set<string>, c: set<string>)
    requires a !! b && a + b <= c
    ensures |a| + |b| <= |c|
  {
    DisjointCard(a, b);
    SubsetCard(a + b, c);
  }

  lemma SplitCard(a: set<string>, b: set<string>)
    ensures |a| == |a * b| + |a - b|
  {
    DisjointCard(a * b, a - b);
    assert a == a * b + (a - b);
  }

  lemma UnionCard(a: set<string>, b: set<string>)
    ensures |a + b| + |a * b| == |a| + |b|
  {
    DisjointCard(a, b - a);
    assert a + b == a + (b - a);
    SplitCard(b, a);
    assert b * a == a * b;
  }

  /** The front after a pass, from the sets before it and after it. `low` are the Guards that the passes before could
      take at most. */
  lemma FrontIsLong(s: Sets, s': Sets, marking: set<string>, upgrade: set<string>, picked: set<string>,
      front: set<string>, front': set<string>, low: set<string>, may: set<string>, k: nat)
    requires Lined(s, front, k) && Lined(s', front', k + 1) && Grows(s, s', marking, upgrade, picked)
    requires front - (s.known + s.refused) !! s'.known + s'.refused && front <= front' && s'.refused <= may
    requires front <= low || (low <= front && |low| == PER_PASS * k)
    ensures |front'| >= PER_PASS * (k + 1) - |may * low|
  {
    var skipped, d, d', again := front - (s.known + s.refused), s.known + s.refused, s'.known + s'.refused, s'.known * s'.refused;
    DisjointWithin(skipped, d', front');
    UnionCard(s'.known, s'.refused);
    assert again <= s.refused;
    SubsetCard(again, s.refused);
    SplitCard(s.refused, low);
    assert s.refused * low <= may * low;
    SubsetCard(s.refused * low, may * low);
    UnionCard(s.known, s.refused);
    SplitCard(front, d);
    assert front * d == d && front - d == skipped;
    HighIsSkipped(s.refused, front, low, k);
  }

  lemma HighIsSkipped(refused: set<string>, front: set<string>, low: set<string>, k: nat)
    requires refused <= front && (front <= low || (low <= front && |low| == PER_PASS * k))
    ensures |refused - low| == 0 || |refused - low| <= |front| - PER_PASS * k
  {
    if front <= low {
      assert refused - low == {};
    } else {
      SplitCard(front, low);
      assert front * low == low;
      SubsetCard(refused - low, front - low);
    }
  }

  /** After these passes everyone is probed, or they took sixteen each up to place `l` of the list. */
  ghost predicate AllAre(tag: string -> string, fleet: seq<Target>, passes: seq<Pass>, at: int) {
    AllProbed(SetsAfter(tag, passes, at).known, SetsAfter(tag, passes, at).held, Ids(tag, fleet, at))
  }

  ghost predicate CameTo(tag: string -> string, fleet: seq<Target>, passes: seq<Pass>, at: int, l: nat) {
    && l <= |fleet| && (passes == [] ==> l == 0)
    && Lined(SetsAfter(tag, passes, at), Ids(tag, Front(fleet, l), at), |passes|)
    && (passes != [] ==> RestIsFresh(tag, SetsAfter(tag, passes, at), Front(fleet, l), passes[|passes| - 1], at))
  }

  lemma AllStay(tag: string -> string, fleet: seq<Target>, before: seq<Pass>, p: Pass, at: int)
    requires Fleet(tag, fleet, at) && AllAre(tag, fleet, before, at)
    requires PassOk(tag, After(tag, EMPTY, before), HeldAfter(tag, {}, before, at), fleet, fleet, p, at)
    ensures AllAre(tag, fleet, before + [p], at)
  {
    PassGrows(tag, fleet, before, p, at);
  }

  lemma ShortReachesAll(tag: string -> string, fleet: seq<Target>, before: seq<Pass>, p: Pass, at: int)
    requires Fleet(tag, fleet, at) && |Picked(tag, After(tag, EMPTY, before), p.table, p.now, fleet)| < PER_PASS
    requires PassOk(tag, After(tag, EMPTY, before), HeldAfter(tag, {}, before, at), fleet, fleet, p, at)
    ensures AllAre(tag, fleet, before + [p], at)
  {
    PassGrows(tag, fleet, before, p, at);
    ShortPassReachesAll(tag, After(tag, EMPTY, before), HeldAfter(tag, {}, before, at), fleet, fleet, p, at);
  }

  lemma RestStaysFresh(tag: string -> string, fleet: seq<Target>, passes: seq<Pass>, at: int, l: nat)
    requires passes != [] && StaysFresh(fleet, passes) && CameTo(tag, fleet, passes[..|passes| - 1], at, l)
    ensures RestIsFresh(tag, SetsAfter(tag, passes[..|passes| - 1], at), Front(fleet, l), passes[|passes| - 1], at)
  {
    var n := |passes| - 1;
    if n > 0 {
      assert passes[..n][n - 1] == passes[n - 1];
      assert forall t | t in Front(fleet, l) :: t in fleet;
    }
  }

  lemma {:induction false} PassesCameTo(tag: string -> string, fleet: seq<Target>, passes: seq<Pass>, at: int) returns (l: nat)
    requires Fleet(tag, fleet, at) && Passes(tag, EMPTY, {}, fleet, fleet, passes, at) && StaysFresh(fleet, passes)
    ensures AllAre(tag, fleet, passes, at) || CameTo(tag, fleet, passes, at, l)
    decreases |passes|
  {
    l := 0;
    if passes == [] {
      assert Ids(tag, Front(fleet, 0), at) == {} && Known(tag, EMPTY, at) == {};
    } else {
      var n := |passes| - 1;
      var before, p := passes[..n], passes[n];
      assert before + [p] == passes;
      PassesSplit(tag, fleet, passes, at);
      StaysFreshPrefix(fleet, passes, n);
      var l0 := PassesCameTo(tag, fleet, before, at);
      if AllAre(tag, fleet, before, at) {
        AllStay(tag, fleet, before, p, at);
      } else if |Picked(tag, After(tag, EMPTY, before), p.table, p.now, fleet)| < PER_PASS {
        ShortReachesAll(tag, fleet, before, p, at);
      } else {
        RestStaysFresh(tag, fleet, passes, at, l0);
        l := FullPassLines(tag, fleet, before, p, at, l0);
      }
    }
  }

  /** How many of the Guards that may refuse are among the first `n`. */
  ghost function Refusers(tag: string -> string, fleet: seq<Target>, at: int, may: set<string>, n: int): nat {
    |may * Ids(tag, Front(fleet, n), at)|
  }

  ghost function Probed(tag: string -> string, fleet: seq<Target>, passes: seq<Pass>, at: int): nat {
    |Reached(tag, After(tag, EMPTY, passes), HeldAfter(tag, {}, passes, at), fleet, at)|
  }

  lemma AllAreProbed(tag: string -> string, fleet: seq<Target>, passes: seq<Pass>, at: int)
    requires Fleet(tag, fleet, at) && AllAre(tag, fleet, passes, at)
    ensures Probed(tag, fleet, passes, at) == |fleet|
  {
    IdsCard(tag, fleet, at);
    assert Reached(tag, After(tag, EMPTY, passes), HeldAfter(tag, {}, passes, at), fleet, at) == Ids(tag, fleet, at);
  }

  lemma FrontIsProbed(tag: string -> string, fleet: seq<Target>, passes: seq<Pass>, at: int, l: nat)
    requires Fleet(tag, fleet, at) && Lined(SetsAfter(tag, passes, at), Ids(tag, Front(fleet, l), at), |passes|)
    ensures Probed(tag, fleet, passes, at) >= |Ids(tag, Front(fleet, l), at)|
  {
    FrontIds(tag, fleet, l, at);
    SubsetCard(Ids(tag, Front(fleet, l), at), Reached(tag, After(tag, EMPTY, passes), HeldAfter(tag, {}, passes, at), fleet, at));
  }

  lemma LowOrHigh(tag: string -> string, fleet: seq<Target>, at: int, l: nat, n: nat)
    requires Fleet(tag, fleet, at) && l <= |fleet|
    ensures var front, low := Ids(tag, Front(fleet, l), at), Ids(tag, Front(fleet, n), at); front <= low || (low <= front && |low| == n)
  {
    if l <= n {
      FrontsNest(tag, fleet, l, n, at);
    } else {
      FrontsNest(tag, fleet, n, l, at);
      FrontIds(tag, fleet, n, at);
    }
  }

  lemma FullPassBound(tag: string -> string, fleet: seq<Target>, before: seq<Pass>, p: Pass, at: int, l: nat, may: set<string>)
    requires Fleet(tag, fleet, at) && l <= |fleet| && Refused(tag, before + [p], at) <= may
    requires PassOk(tag, After(tag, EMPTY, before), HeldAfter(tag, {}, before, at), fleet, fleet, p, at)
    requires |Picked(tag, After(tag, EMPTY, before), p.table, p.now, fleet)| == PER_PASS
    requires Lined(SetsAfter(tag, before, at), Ids(tag, Front(fleet, l), at), |before|)
    requires RestIsFresh(tag, SetsAfter(tag, before, at), Front(fleet, l), p, at)
    ensures Probed(tag, fleet, before + [p], at) >= PER_PASS * (|before| + 1) - Refusers(tag, fleet, at, may, PER_PASS * |before|)
  {
    var l' := FullPassLines(tag, fleet, before, p, at, l);
    PassGrows(tag, fleet, before, p, at);
    LowOrHigh(tag, fleet, at, l, PER_PASS * |before|);
    FrontsNest(tag, fleet, l, l', at);
    FrontIsLong(SetsAfter(tag, before, at), SetsAfter(tag, before + [p], at), MarkingIds(tag, p.finished, at), UpgradeIds(tag, p.finished, at),
                Ids(tag, Picked(tag, After(tag, EMPTY, before), p.table, p.now, fleet), at),
                Ids(tag, Front(fleet, l), at), Ids(tag, Front(fleet, l'), at), Ids(tag, Front(fleet, PER_PASS * |before|), at), may, |before|);
    FrontIsProbed(tag, fleet, before + [p], at, l');
  }

  /** All but `u` of the first 16k, where `u` is how many of `may` are among the first 16(k - 1). */
  ghost predicate ProbesAllBut(tag: string -> string, fleet: seq<Target>, passes: seq<Pass>, at: int, may: set<string>) {
    Probed(tag, fleet, passes, at) >= Least(|fleet|, PER_PASS * |passes| - Refusers(tag, fleet, at, may, PER_PASS * (|passes| - 1)))
  }

  lemma NextPass(tag: string -> string, fleet: seq<Target>, before: seq<Pass>, p: Pass, at: int, l: nat, may: set<string>)
    requires Fleet(tag, fleet, at) && Refused(tag, before + [p], at) <= may
    requires PassOk(tag, After(tag, EMPTY, before), HeldAfter(tag, {}, before, at), fleet, fleet, p, at)
    requires AllAre(tag, fleet, before, at) ||
             (CameTo(tag, fleet, before, at, l) && RestIsFresh(tag, SetsAfter(tag, before, at), Front(fleet, l), p, at))
    ensures ProbesAllBut(tag, fleet, before + [p], at, may)
  {
    if AllAre(tag, fleet, before, at) {
      AllStay(tag, fleet, before, p, at);
      AllAreProbed(tag, fleet, before + [p], at);
    } else if |Picked(tag, After(tag, EMPTY, before), p.table, p.now, fleet)| < PER_PASS {
      ShortReachesAll(tag, fleet, before, p, at);
      AllAreProbed(tag, fleet, before + [p], at);
    } else {
      FullPassBound(tag, fleet, before, p, at, l, may);
    }
  }

  lemma LastPass(tag: string -> string, fleet: seq<Target>, before: seq<Pass>, p: Pass, at: int) returns (l: nat)
    requires Fleet(tag, fleet, at) && Passes(tag, EMPTY, {}, fleet, fleet, before + [p], at) && StaysFresh(fleet, before + [p])
    ensures PassOk(tag, After(tag, EMPTY, before), HeldAfter(tag, {}, before, at), fleet, fleet, p, at)
    ensures AllAre(tag, fleet, before, at) ||
            (CameTo(tag, fleet, before, at, l) && RestIsFresh(tag, SetsAfter(tag, before, at), Front(fleet, l), p, at))
  {
    var passes := before + [p];
    assert passes[..|before|] == before;
    PassesSplit(tag, fleet, passes, at);
    StaysFreshPrefix(fleet, passes, |before|);
    l := PassesCameTo(tag, fleet, before, at);
    if !AllAre(tag, fleet, before, at) { RestStaysFresh(tag, fleet, passes, at, l); }
  }

  lemma CoverageAfter(tag: string -> string, fleet: seq<Target>, before: seq<Pass>, p: Pass, at: int, may: set<string>)
    requires Fleet(tag, fleet, at) && Passes(tag, EMPTY, {}, fleet, fleet, before + [p], at) && StaysFresh(fleet, before + [p])
    requires Refused(tag, before + [p], at) <= may
    ensures ProbesAllBut(tag, fleet, before + [p], at, may)
  {
    var l := LastPass(tag, fleet, before, p, at);
    NextPass(tag, fleet, before, p, at, l, may);
  }

  /** If only Guards in `may` answer with the upgrade refusal, k passes probe at least min(n, 16k - u) of n due Guards,
      where u is how many of `may` are among the first 16(k - 1). */
  lemma CoverageWithRefusers(tag: string -> string, fleet: seq<Target>, passes: seq<Pass>, at: int, may: set<string>)
    requires Fleet(tag, fleet, at) && Passes(tag, EMPTY, {}, fleet, fleet, passes, at) && StaysFresh(fleet, passes)
    requires passes != [] && Refused(tag, passes, at) <= may
    ensures ProbesAllBut(tag, fleet, passes, at, may)
  {
    assert passes[..|passes| - 1] + [passes[|passes| - 1]] == passes;
    CoverageAfter(tag, fleet, passes[..|passes| - 1], passes[|passes| - 1], at, may);
  }
}
