/** One pass of the round-trip probe: which Guards it picks, how their answers
    mark the window, and how passes of one window cover the fleet. */
module ProbePass {
  import opened Common
  import opened ProbeIds
  import Numerals

  const PER_PASS := 16

  datatype Transport = Https | Mtls
  datatype Trip = Trip(acknowledged: int, transport: Transport, generation: int)

  /** Recorded round trips by tenant and agent. */
  type Table = map<string, map<string, Trip>>

  function TripsOf(table: Table, tenant: string): map<string, Trip> {
    if tenant in table then table[tenant] else map[]
  }

  function Lookup(trips: map<string, Trip>, agent: string): Option<Trip> {
    if agent in trips then Some(trips[agent]) else None
  }

  /** No fresh round trip of the Guard's present identity. */
  predicate Due(t: Target, trip: Option<Trip>, now: int) {
    || trip.None?
    || now - trip.value.acknowledged >= PERIOD
    || if t.generation > 0 then !trip.value.transport.Https? || trip.value.generation != t.generation else !trip.value.transport.Mtls?
  }

  predicate IsSpent(tag: string -> string, c: Cache, t: Target, now: int) {
    !t.mtls && Spent(c, CommandId(tag, t, now))
  }

  predicate Eligible(tag: string -> string, c: Cache, table: Table, now: int, t: Target) {
    Due(t, Lookup(TripsOf(table, t.tenant), t.agent), now) && !IsSpent(tag, c, t, now)
  }

  function Wanted(tag: string -> string, c: Cache, table: Table, now: int, targets: seq<Target>): seq<Target> {
    Filter(targets, t => Eligible(tag, c, table, now, t))
  }

  /** The first sixteen eligible targets. */
  function Picked(tag: string -> string, c: Cache, table: Table, now: int, targets: seq<Target>): seq<Target> {
    var wanted := Wanted(tag, c, table, now, targets);
    if |wanted| <= PER_PASS then wanted else wanted[..PER_PASS]
  }

  lemma WantedStep(tag: string -> string, c: Cache, table: Table, now: int, targets: seq<Target>, i: nat)
    requires i < |targets|
    ensures Wanted(tag, c, table, now, targets[..i + 1]) ==
      if Eligible(tag, c, table, now, targets[i]) then Wanted(tag, c, table, now, targets[..i]) + [targets[i]] else Wanted(tag, c, table, now, targets[..i])
  {
    assert targets[..i + 1] == targets[..i] + [targets[i]];
    FilterConcat(targets[..i], [targets[i]], t => Eligible(tag, c, table, now, t));
  }

  lemma FullAfterSixteen(tag: string -> string, c: Cache, table: Table, now: int, targets: seq<Target>, i: nat)
    requires i <= |targets| && |Wanted(tag, c, table, now, targets[..i])| == PER_PASS
    ensures Picked(tag, c, table, now, targets) == Wanted(tag, c, table, now, targets[..i])
  {
    assert targets == targets[..i] + targets[i..];
    FilterConcat(targets[..i], targets[i..], t => Eligible(tag, c, table, now, t));
  }

  /** Every read of a tenant's round trips succeeds and shows `table`. */
  ghost predicate Shows(reading: nat -> Option<map<string, Trip>>, targets: seq<Target>, table: Table) {
    forall i: nat | i < |targets| :: reading(i) == Some(TripsOf(table, targets[i].tenant))
  }

  ghost predicate Agrees(trips: Table, table: Table) {
    forall tenant | tenant in trips :: trips[tenant] == TripsOf(table, tenant)
  }

  ghost predicate NoneSpent(tag: string -> string, c: Cache, now: int, targets: seq<Target>, due: seq<Target>) {
    forall t | t in due :: t in targets && !IsSpent(tag, c, t, now)
  }

  /** The selection loop of pass. `reading(i)` is what reading a tenant's round trips at target `i` gives, if
      it succeeds; a tenant is read once per pass. When every read shows `table`, the picks are the first
      sixteen eligible targets; whatever the reads give, no pick is already spent. */
  method SelectDue(tag: string -> string, cache: SentCache, targets: seq<Target>, reading: nat -> Option<map<string, Trip>>, now: int, ghost table: Table)
      returns (due: seq<Target>)
    ensures |due| <= PER_PASS
    ensures NoneSpent(tag, cache.Value(), now, targets, due)
    ensures Shows(reading, targets, table) ==> due == Picked(tag, cache.Value(), table, now, targets)
  {
    var c := cache.Value();
    ghost var faithful := Shows(reading, targets, table);
    var trips: Table := map[];
    due := [];
    for i := 0 to |targets|
      invariant |due| <= PER_PASS
      invariant NoneSpent(tag, c, now, targets, due)
      invariant faithful ==> Agrees(trips, table) && due == Wanted(tag, c, table, now, targets[..i])
    {
      if |due| == PER_PASS {
        if faithful { FullAfterSixteen(tag, c, table, now, targets, i); }
        return;
      }
      WantedStep(tag, c, table, now, targets, i);
      var target := targets[i];
      if target.tenant !in trips {
        var read := reading(i);
        if read.None? { continue; }
        trips := trips[target.tenant := read.value];
      }
      var trip := Lookup(trips[target.tenant], target.agent);
      if Due(target, trip, now) {
        var spent := cache.WindowSpent(tag, target, now);
        if !spent { due := due + [target]; }
      }
    }
    assert targets[..|targets|] == targets;
  }

  // ---------------------------------------------------------------- answers

  /** How one dispatched probe ends. The upgrade refusal comes from this deployment's own release pin, before
      anything is sent, or as the answer of a Guard that received the command. */
  datatype Outcome = Answered | AnsweredUpgrade | AlreadySent | PinTooOld | Unanswered | Cancelled

  predicate Marks(o: Outcome) {
    o.Answered? || o.AlreadySent?
  }

  datatype Finish = Finish(target: Target, outcome: Outcome)

  function Settled(tag: string -> string, c: Cache, now: int, f: Finish): Cache {
    if Marks(f.outcome) && !f.target.mtls then Marked(c, CommandId(tag, f.target, now)) else c
  }

  /** The cache after the probes of a pass ended, in the order they did. */
  function AllSettled(tag: string -> string, c: Cache, now: int, finished: seq<Finish>): Cache {
    if finished == [] then c
    else Settled(tag, AllSettled(tag, c, now, finished[..|finished| - 1]), now, finished[|finished| - 1])
  }

  method Probe(tag: string -> string, cache: SentCache, target: Target, now: int, outcome: Outcome)
    modifies cache
    ensures cache.Value() == Settled(tag, old(cache.Value()), now, Finish(target, outcome))
    ensures !target.mtls && !IsSpent(tag, old(cache.Value()), target, now) ==>
      (IsSpent(tag, cache.Value(), target, now) <==> Marks(outcome))
  {
    match outcome
    case Answered => cache.MarkWindowSpent(tag, target, now);
    case AlreadySent => cache.MarkWindowSpent(tag, target, now);
    case AnsweredUpgrade =>
    case PinTooOld =>
    case Unanswered =>
    case Cancelled =>
  }

  // ---------------------------------------------------------------- passes of one window

  /** `others` are the IDs that other replicas got accepted since the pass before. */
  datatype Pass = Pass(now: int, table: Table, others: set<string>, finished: seq<Finish>)

  function After(tag: string -> string, c: Cache, passes: seq<Pass>): Cache {
    if passes == [] then c
    else
      var last := passes[|passes| - 1];
      AllSettled(tag, After(tag, c, passes[..|passes| - 1]), last.now, last.finished)
  }

  /** The IDs the cache knows to be sent in the window of `at`. */
  function Known(tag: string -> string, c: Cache, at: int): set<string> {
    set id | id in c.sent && Spent(c, id) && c.window == Numerals.Format(Window(at), Numerals.ThirtySix)
  }

  function Ids(tag: string -> string, targets: seq<Target>, at: int): set<string> {
    set t | t in targets :: CommandId(tag, t, at)
  }

  /** Distinct HTTPS Guards. */
  ghost predicate Fleet(tag: string -> string, targets: seq<Target>, at: int) {
    && (forall t | t in targets :: !t.mtls)
    && (forall i, j | 0 <= i < j < |targets| :: CommandId(tag, targets[i], at) != CommandId(tag, targets[j], at))
  }

  /** The pass ran in the window of `at`, and dispatched exactly its picks. */
  ghost predicate Ran(tag: string -> string, c: Cache, candidates: seq<Target>, p: Pass, at: int) {
    && p.now / PERIOD == at / PERIOD
    && var picks := Picked(tag, c, p.table, p.now, candidates);
       forall t :: t in picks <==> exists o :: Finish(t, o) in p.finished
  }

  ghost predicate AllMark(p: Pass) {
    forall f | f in p.finished :: Marks(f.outcome)
  }

  lemma SameWindow(tag: string -> string, t: Target, now: int, at: int)
    requires now / PERIOD == at / PERIOD
    ensures CommandId(tag, t, now) == CommandId(tag, t, at)
    ensures AfterLastColon(CommandId(tag, t, now)) == Numerals.Format(Window(at), Numerals.ThirtySix)
  {
    WindowIsRecoverable(tag, t, now);
  }

  /** The IDs of the probes that mark the window. */
  function MarkingIds(tag: string -> string, finished: seq<Finish>, at: int): set<string> {
    set f | f in finished && Marks(f.outcome) :: CommandId(tag, f.target, at)
  }

  lemma MarkAdds(tag: string -> string, c: Cache, id: string, at: int)
    requires AfterLastColon(id) == Numerals.Format(Window(at), Numerals.ThirtySix)
    ensures Known(tag, Marked(c, id), at) == Known(tag, c, at) + {id}
  {
  }

  lemma MarkingSnoc(tag: string -> string, before: seq<Finish>, last: Finish, at: int)
    ensures MarkingIds(tag, before + [last], at) ==
      if Marks(last.outcome) then MarkingIds(tag, before, at) + {CommandId(tag, last.target, at)} else MarkingIds(tag, before, at)
  {
  }

  lemma {:induction false} SettlingAdds(tag: string -> string, c: Cache, now: int, finished: seq<Finish>, at: int)
    requires now / PERIOD == at / PERIOD && forall f | f in finished :: !f.target.mtls
    ensures Known(tag, AllSettled(tag, c, now, finished), at) == Known(tag, c, at) + MarkingIds(tag, finished, at)
  {
    if finished != [] {
      var n := |finished| - 1;
      var before, last := finished[..n], finished[n];
      assert finished == before + [last];
      SettlingAdds(tag, c, now, before, at);
      SameWindow(tag, last.target, now, at);
      MarkingSnoc(tag, before, last, at);
      MarkAdds(tag, AllSettled(tag, c, now, before), CommandId(tag, last.target, now), at);
    }
  }

  lemma {:induction false} IdsCard(tag: string -> string, targets: seq<Target>, at: int)
    requires Fleet(tag, targets, at)
    ensures |Ids(tag, targets, at)| == |targets|
  {
    if targets != [] {
      var n := |targets| - 1;
      var before, last := targets[..n], targets[n];
      IdsCard(tag, before, at);
      assert targets == before + [last];
      assert Ids(tag, targets, at) == Ids(tag, before, at) + {CommandId(tag, last, at)};
      assert CommandId(tag, last, at) !in Ids(tag, before, at);
    }
  }

  lemma {:induction false} FilterKeepsFleet(tag: string -> string, targets: seq<Target>, keep: Target -> bool, at: int)
    requires Fleet(tag, targets, at)
    ensures Fleet(tag, Filter(targets, keep), at)
  {
    if targets != [] {
      var rest := targets[1..];
      FilterKeepsFleet(tag, rest, keep, at);
      forall t | t in Filter(rest, keep)
        ensures CommandId(tag, t, at) != CommandId(tag, targets[0], at)
      {
        var j :| 0 <= j < |rest| && rest[j] == t;
        assert targets[j + 1] == t;
      }
    }
  }

  lemma PicksAreAFleet(tag: string -> string, c: Cache, table: Table, now: int, candidates: seq<Target>, at: int)
    requires Fleet(tag, candidates, at)
    ensures Fleet(tag, Picked(tag, c, table, now, candidates), at)
  {
    FilterKeepsFleet(tag, candidates, t => Eligible(tag, c, table, now, t), at);
  }

  lemma KnownIsSpent(tag: string -> string, c: Cache, t: Target, now: int, at: int)
    requires now / PERIOD == at / PERIOD && !t.mtls
    ensures IsSpent(tag, c, t, now) <==> CommandId(tag, t, at) in Known(tag, c, at)
  {
    SameWindow(tag, t, now, at);
  }

  lemma FinishedArePicked(tag: string -> string, c: Cache, candidates: seq<Target>, p: Pass, at: int)
    requires Ran(tag, c, candidates, p, at)
    ensures forall f | f in p.finished :: f.target in Picked(tag, c, p.table, p.now, candidates)
  {
    forall f | f in p.finished
      ensures f.target in Picked(tag, c, p.table, p.now, candidates)
    {
      assert Finish(f.target, f.outcome) in p.finished;
    }
  }

  lemma PicksAreUnknown(tag: string -> string, c: Cache, candidates: seq<Target>, p: Pass, at: int)
    requires Fleet(tag, candidates, at) && p.now / PERIOD == at / PERIOD
    ensures Known(tag, c, at) !! Ids(tag, Picked(tag, c, p.table, p.now, candidates), at)
  {
    forall t | t in Picked(tag, c, p.table, p.now, candidates)
      ensures CommandId(tag, t, at) !in Known(tag, c, at)
    {
      assert t in Wanted(tag, c, p.table, p.now, candidates);
      KnownIsSpent(tag, c, t, p.now, at);
    }
  }

  /** Each dispatched probe ends once. */
  ghost predicate EndsOnce(p: Pass) {
    forall f, g | f in p.finished && g in p.finished && f.target == g.target :: f == g
  }

  lemma NamesOneTarget(tag: string -> string, targets: seq<Target>, at: int, t: Target, u: Target)
    requires Fleet(tag, targets, at) && t in targets && u in targets && CommandId(tag, t, at) == CommandId(tag, u, at)
    ensures t == u
  {
  }

  /** Two ends of a pass with one ID are one end. */
  lemma NamesOneEnd(tag: string -> string, c: Cache, candidates: seq<Target>, p: Pass, at: int, f: Finish, g: Finish)
    requires Fleet(tag, candidates, at) && Ran(tag, c, candidates, p, at) && EndsOnce(p)
    requires f in p.finished && g in p.finished && CommandId(tag, f.target, at) == CommandId(tag, g.target, at)
    ensures f == g
  {
    FinishedArePicked(tag, c, candidates, p, at);
    PicksAreAFleet(tag, c, p.table, p.now, candidates, at);
    NamesOneTarget(tag, Picked(tag, c, p.table, p.now, candidates), at, f.target, g.target);
  }

  /** A pass adds to what is known exactly the picks whose probe marked the window, none of them known before. */
  lemma PassAdds(tag: string -> string, c: Cache, candidates: seq<Target>, p: Pass, at: int)
    requires Fleet(tag, candidates, at) && Ran(tag, c, candidates, p, at)
    ensures var ids := Ids(tag, Picked(tag, c, p.table, p.now, candidates), at);
      && Known(tag, AllSettled(tag, c, p.now, p.finished), at) == Known(tag, c, at) + MarkingIds(tag, p.finished, at)
      && MarkingIds(tag, p.finished, at) <= ids && Known(tag, c, at) !! ids
  {
    FinishedArePicked(tag, c, candidates, p, at);
    PicksAreUnknown(tag, c, candidates, p, at);
    assert forall t | t in Picked(tag, c, p.table, p.now, candidates) :: t in Wanted(tag, c, p.table, p.now, candidates);
    SettlingAdds(tag, c, p.now, p.finished, at);
  }

  /** A pass leaves all its picks known exactly when every one of its probes marked the window. */
  lemma PassCoversExactly(tag: string -> string, c: Cache, candidates: seq<Target>, p: Pass, at: int)
    requires Fleet(tag, candidates, at) && Ran(tag, c, candidates, p, at) && EndsOnce(p)
    ensures var picks := Picked(tag, c, p.table, p.now, candidates);
      Ids(tag, picks, at) <= Known(tag, AllSettled(tag, c, p.now, p.finished), at) <==> AllMark(p)
  {
    PassAdds(tag, c, candidates, p, at);
    FinishedArePicked(tag, c, candidates, p, at);
    if !AllMark(p) {
      var f :| f in p.finished && !Marks(f.outcome);
      forall g | g in p.finished && Marks(g.outcome)
        ensures CommandId(tag, g.target, at) != CommandId(tag, f.target, at)
      {
        if CommandId(tag, g.target, at) == CommandId(tag, f.target, at) { NamesOneEnd(tag, c, candidates, p, at, f, g); }
      }
      assert CommandId(tag, f.target, at) in Ids(tag, Picked(tag, c, p.table, p.now, candidates), at);
    }
  }
}
