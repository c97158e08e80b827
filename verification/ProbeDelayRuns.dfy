/** The runs that show how much upgrade answers can cost: every Guard that may
    refuse does so the first time it is asked. With them the promise of sixteen
    Guards each pass is characterised exactly. */
module ProbeDelayRuns {
  import opened Common
  import opened ProbeIds
  import opened ProbePass
  import opened ProbeCoverage
  import opened ProbeDelays

  // ---------------------------------------------------------------- a pass with given outcomes

  function PassOf(now: int, picks: seq<Target>, o: Target -> Outcome): Pass {
    Pass(now, map[], {}, seq(|picks|, i requires 0 <= i < |picks| => Finish(picks[i], o(picks[i]))))
  }

  lemma PassOfFinishes(now: int, picks: seq<Target>, o: Target -> Outcome)
    ensures forall f :: f in PassOf(now, picks, o).finished <==> f.target in picks && f.outcome == o(f.target)
  {
    var p := PassOf(now, picks, o);
    forall f: Finish | f.target in picks && f.outcome == o(f.target)
      ensures f in p.finished
    {
      var i :| 0 <= i < |picks| && picks[i] == f.target;
      assert p.finished[i] == f;
    }
  }

  /** What a Guard answers: the hub may have the command already, and those in `may` refuse. */
  function Reply(tag: string -> string, held: set<string>, may: set<string>, at: int, t: Target): Outcome {
    var id := CommandId(tag, t, at);
    if id in held then AlreadySent else if id in may then AnsweredUpgrade else Answered
  }

  function NextPassOf(tag: string -> string, fleet: seq<Target>, at: int, may: set<string>, c: Cache, held: set<string>): Pass {
    PassOf(at, Picked(tag, c, map[], at, fleet), t => Reply(tag, held, may, at, t))
  }

  lemma NextIsOk(tag: string -> string, fleet: seq<Target>, at: int, may: set<string>, c: Cache, held: set<string>)
    ensures PassOk(tag, c, held, fleet, fleet, NextPassOf(tag, fleet, at, may, c, held), at)
  {
    var picks, o := Picked(tag, c, map[], at, fleet), t => Reply(tag, held, may, at, t);
    var p := PassOf(at, picks, o);
    PassOfFinishes(at, picks, o);
    forall t
      ensures t in picks <==> exists x :: Finish(t, x) in p.finished
    {
      if t in picks { assert Finish(t, o(t)) in p.finished; }
    }
  }

  /** What such a pass does. */
  lemma NextDoes(tag: string -> string, fleet: seq<Target>, at: int, may: set<string>, c: Cache, held: set<string>)
    ensures var p, ids := NextPassOf(tag, fleet, at, may, c, held), Ids(tag, Picked(tag, c, map[], at, fleet), at);
      && MarkingIds(tag, p.finished, at) == ids * held + (ids - may) && AcceptedIds(tag, p.finished, at) == ids - held
      && UpgradeIds(tag, p.finished, at) <= may
  {
    var picks, o := Picked(tag, c, map[], at, fleet), t => Reply(tag, held, may, at, t);
    var p, ids := PassOf(at, picks, o), Ids(tag, picks, at);
    PassOfFinishes(at, picks, o);
    forall t | t in picks
      ensures Finish(t, o(t)) in p.finished
    {
    }
    assert MarkingIds(tag, p.finished, at) == ids * held + (ids - may);
    assert AcceptedIds(tag, p.finished, at) == ids - held;
  }

  // ---------------------------------------------------------------- the run

  lemma PassesSnoc(tag: string -> string, fleet: seq<Target>, before: seq<Pass>, p: Pass, at: int)
    requires Passes(tag, EMPTY, {}, fleet, fleet, before, at)
    requires PassOk(tag, After(tag, EMPTY, before), HeldAfter(tag, {}, before, at), fleet, fleet, p, at)
    ensures Passes(tag, EMPTY, {}, fleet, fleet, before + [p], at)
  {
    forall n: nat
      ensures PassAt(tag, EMPTY, {}, fleet, fleet, before + [p], at, n)
    {
      if n < |before| {
        assert PassAt(tag, EMPTY, {}, fleet, fleet, before, at, n);
        assert (before + [p])[..n] == before[..n];
      } else if n == |before| {
        assert (before + [p])[..n] == before;
      }
    }
  }

  lemma RefusedSnoc(tag: string -> string, before: seq<Pass>, p: Pass, at: int)
    ensures Refused(tag, before + [p], at) == Refused(tag, before, at) + UpgradeIds(tag, p.finished, at)
  {
    assert (before + [p])[..|before|] == before;
  }

  /** A run in which only Guards in `may` refuse and nobody ever has a fresh round trip. */
  ghost predicate IsARun(tag: string -> string, fleet: seq<Target>, at: int, may: set<string>, passes: seq<Pass>) {
    && Passes(tag, EMPTY, {}, fleet, fleet, passes, at) && Refused(tag, passes, at) <= may
    && (forall i, t | 0 <= i < |passes| && t in fleet :: DueIn(t, passes[i]))
  }

  lemma RunSnoc(tag: string -> string, fleet: seq<Target>, at: int, may: set<string>, before: seq<Pass>)
    requires IsARun(tag, fleet, at, may, before)
    ensures IsARun(tag, fleet, at, may, before + [NextPassOf(tag, fleet, at, may, After(tag, EMPTY, before), HeldAfter(tag, {}, before, at))])
  {
    var c, held := After(tag, EMPTY, before), HeldAfter(tag, {}, before, at);
    var p := NextPassOf(tag, fleet, at, may, c, held);
    NextIsOk(tag, fleet, at, may, c, held);
    NextDoes(tag, fleet, at, may, c, held);
    PassesSnoc(tag, fleet, before, p, at);
    RefusedSnoc(tag, before, p, at);
  }

  ghost predicate Ends(tag: string -> string, fleet: seq<Target>, at: int, may: set<string>, passes: seq<Pass>, k: nat, known: set<string>, held: set<string>) {
    && |passes| == k && IsARun(tag, fleet, at, may, passes)
    && Known(tag, After(tag, EMPTY, passes), at) == known && HeldAfter(tag, {}, passes, at) == held
  }

  /** Some such run of `k` passes ends with these IDs known and held. */
  ghost predicate Can(tag: string -> string, fleet: seq<Target>, at: int, may: set<string>, k: nat, known: set<string>, held: set<string>) {
    exists passes :: Ends(tag, fleet, at, may, passes, k, known, held)
  }

  lemma Nothing(tag: string -> string, fleet: seq<Target>, at: int, may: set<string>)
    ensures Can(tag, fleet, at, may, 0, {}, {})
  {
    assert Known(tag, EMPTY, at) == {};
    assert Ends(tag, fleet, at, may, [], 0, {}, {});
  }

  /** The targets whose ID is not known. */
  function Unknown(tag: string -> string, targets: seq<Target>, at: int, known: set<string>): seq<Target> {
    Filter(targets, t => CommandId(tag, t, at) !in known)
  }

  function Among(tag: string -> string, targets: seq<Target>, at: int, ids: set<string>): seq<Target> {
    Filter(targets, t => CommandId(tag, t, at) in ids)
  }

  /** Without fresh round trips the picks are the first sixteen of those not known. */
  lemma UnknownArePicked(tag: string -> string, c: Cache, fleet: seq<Target>, at: int, known: set<string>)
    requires Fleet(tag, fleet, at) && known == Known(tag, c, at)
    ensures Picked(tag, c, map[], at, fleet) == Front(Unknown(tag, fleet, at, known), PER_PASS)
  {
    forall t | t in fleet
      ensures Eligible(tag, c, map[], at, t) <==> CommandId(tag, t, at) !in known
    {
      KnownIsSpent(tag, c, t, at, at);
    }
    FilterAgrees(fleet, t => Eligible(tag, c, map[], at, t), t => CommandId(tag, t, at) !in known);
  }

  lemma NextSets(tag: string -> string, fleet: seq<Target>, at: int, may: set<string>, before: seq<Pass>)
    requires Fleet(tag, fleet, at)
    ensures var c, held := After(tag, EMPTY, before), HeldAfter(tag, {}, before, at);
      var after, ids := before + [NextPassOf(tag, fleet, at, may, c, held)], Ids(tag, Picked(tag, c, map[], at, fleet), at);
      && Known(tag, After(tag, EMPTY, after), at) == Known(tag, c, at) + (ids * held + (ids - may))
      && HeldAfter(tag, {}, after, at) == held + ids
  {
    var c, held := After(tag, EMPTY, before), HeldAfter(tag, {}, before, at);
    var p := NextPassOf(tag, fleet, at, may, c, held);
    NextIsOk(tag, fleet, at, may, c, held);
    NextDoes(tag, fleet, at, may, c, held);
    PassAdds(tag, c, fleet, p, at);
    assert (before + [p])[..|before|] == before;
  }

  lemma EndsNext(tag: string -> string, fleet: seq<Target>, at: int, may: set<string>, before: seq<Pass>, k: nat, known: set<string>, held: set<string>)
    requires Fleet(tag, fleet, at) && Ends(tag, fleet, at, may, before, k, known, held)
    ensures var ids := Ids(tag, Front(Unknown(tag, fleet, at, known), PER_PASS), at);
      Ends(tag, fleet, at, may, before + [NextPassOf(tag, fleet, at, may, After(tag, EMPTY, before), held)], k + 1,
           known + (ids * held + (ids - may)), held + ids)
  {
    UnknownArePicked(tag, After(tag, EMPTY, before), fleet, at, known);
    NextSets(tag, fleet, at, may, before);
    RunSnoc(tag, fleet, at, may, before);
  }

  lemma Next(tag: string -> string, fleet: seq<Target>, at: int, may: set<string>, k: nat, known: set<string>, held: set<string>,
      ids: set<string>, known': set<string>, held': set<string>)
    requires Fleet(tag, fleet, at) && Can(tag, fleet, at, may, k, known, held)
    requires ids == Ids(tag, Front(Unknown(tag, fleet, at, known), PER_PASS), at)
    requires known' == known + (ids * held + (ids - may)) && held' == held + ids
    ensures Can(tag, fleet, at, may, k + 1, known', held')
  {
    var before :| Ends(tag, fleet, at, may, before, k, known, held);
    EndsNext(tag, fleet, at, may, before, k, known, held);
  }

  // ---------------------------------------------------------------- the worst run

  lemma {:induction false} FilterNone<T(!new)>(xs: seq<T>, keep: T -> bool)
    requires forall x | x in xs :: !keep(x)
    ensures Filter(xs, keep) == []
  {
    if xs != [] { FilterNone(xs[1..], keep); }
  }

  lemma IdsConcat(tag: string -> string, a: seq<Target>, b: seq<Target>, at: int)
    ensures Ids(tag, a + b, at) == Ids(tag, a, at) + Ids(tag, b, at)
  {
  }

  lemma RestIsNotInFront(tag: string -> string, fleet: seq<Target>, at: int, j: nat)
    requires Fleet(tag, fleet, at) && j <= |fleet|
    ensures forall t | t in fleet[j..] :: CommandId(tag, t, at) !in Ids(tag, fleet[..j], at)
  {
    forall t | t in fleet[j..]
      ensures CommandId(tag, t, at) !in Ids(tag, fleet[..j], at)
    {
      var b :| j <= b < |fleet| && fleet[b] == t;
      forall u | u in fleet[..j]
        ensures CommandId(tag, u, at) != CommandId(tag, t, at)
      {
        var a :| 0 <= a < j && fleet[a] == u;
      }
    }
  }

  /** Of a front that is known but for `left`, these come first and then the rest of the list. */
  lemma UnknownAre(tag: string -> string, fleet: seq<Target>, at: int, j: nat, left: set<string>)
    requires Fleet(tag, fleet, at) && j <= |fleet|
    ensures Unknown(tag, fleet, at, Ids(tag, fleet[..j], at) - left) == Among(tag, fleet[..j], at, left) + fleet[j..]
  {
    var known := Ids(tag, fleet[..j], at) - left;
    var keep := (t: Target) => CommandId(tag, t, at) !in known;
    assert fleet == fleet[..j] + fleet[j..];
    FilterConcat(fleet[..j], fleet[j..], keep);
    FilterAgrees(fleet[..j], keep, t => CommandId(tag, t, at) in left);
    RestIsNotInFront(tag, fleet, at, j);
    FilterAll(fleet[j..], keep);
    FilterAgrees(fleet, t => CommandId(tag, t, at) !in known, keep);
  }

  lemma FrontOfTwo(w: seq<Target>, rest: seq<Target>, n: nat)
    requires |w| <= n <= |w| + |rest|
    ensures Front(w + rest, n) == w + rest[..n - |w|]
  {
  }

  /** How many of a list may refuse. */
  lemma AmongAre(tag: string -> string, targets: seq<Target>, at: int, may: set<string>)
    requires Fleet(tag, targets, at)
    ensures var w := Among(tag, targets, at, may); |w| == |may * Ids(tag, targets, at)| && Ids(tag, w, at) == may * Ids(tag, targets, at)
  {
    var w := Among(tag, targets, at, may);
    FilterKeepsFleet(tag, targets, t => CommandId(tag, t, at) in may, at);
    IdsCard(tag, w, at);
    assert Ids(tag, w, at) == may * Ids(tag, targets, at);
  }

  lemma LeftPicks(tag: string -> string, fleet: seq<Target>, at: int, j: nat, left: set<string>, e: nat)
    requires Fleet(tag, fleet, at) && j <= e <= |fleet| && |Among(tag, fleet[..j], at, left)| + e == j + PER_PASS
    ensures Front(Unknown(tag, fleet, at, Ids(tag, fleet[..j], at) - left), PER_PASS) == Among(tag, fleet[..j], at, left) + fleet[j..e]
  {
    var w := Among(tag, fleet[..j], at, left);
    UnknownAre(tag, fleet, at, j, left);
    FrontOfTwo(w, fleet[j..], PER_PASS);
    assert fleet[j..][..e - j] == fleet[j..e];
  }

  /** A front that is known but for `left`: these come first, and the rest of the room is for the next ones. */
  lemma LeftAndNext(tag: string -> string, fleet: seq<Target>, at: int, j: nat, left: set<string>, e: nat)
    requires Fleet(tag, fleet, at) && j <= e <= |fleet| && |left * Ids(tag, fleet[..j], at)| + e == j + PER_PASS
    ensures Ids(tag, Front(Unknown(tag, fleet, at, Ids(tag, fleet[..j], at) - left), PER_PASS), at) ==
            left * Ids(tag, fleet[..j], at) + Ids(tag, fleet[j..e], at)
  {
    AmongAre(tag, fleet[..j], at, left);
    LeftPicks(tag, fleet, at, j, left, e);
    IdsConcat(tag, Among(tag, fleet[..j], at, left), fleet[j..e], at);
  }

  lemma FrontAndNext(tag: string -> string, fleet: seq<Target>, at: int, j: nat, e: nat)
    requires Fleet(tag, fleet, at) && j <= e <= |fleet|
    ensures Ids(tag, fleet[..j], at) !! Ids(tag, fleet[j..e], at)
    ensures Ids(tag, fleet[..e], at) == Ids(tag, fleet[..j], at) + Ids(tag, fleet[j..e], at)
  {
    RestIsNotInFront(tag, fleet, at, j);
    assert forall t | t in fleet[j..e] :: t in fleet[j..];
    assert fleet[..e] == fleet[..j] + fleet[j..e];
    IdsConcat(tag, fleet[..j], fleet[j..e], at);
  }

  lemma PlainSets(front: set<string>, block: set<string>, may: set<string>)
    requires front !! block && front !! may
    ensures front + block - may == front + (block * front + (block - may)) && {} * front + block == block && front - {} == front
  {
  }

  /** One pass after a front that is known and held: the next sixteen. */
  lemma PlainStep(tag: string -> string, fleet: seq<Target>, at: int, may: set<string>, k: nat, j: nat)
    requires Fleet(tag, fleet, at) && j + PER_PASS <= |fleet| && may !! Ids(tag, fleet[..j], at)
    requires Can(tag, fleet, at, may, k, Ids(tag, fleet[..j], at), Ids(tag, fleet[..j], at))
    ensures var front := Ids(tag, fleet[..j + PER_PASS], at); Can(tag, fleet, at, may, k + 1, front - may, front)
  {
    var front, block := Ids(tag, fleet[..j], at), Ids(tag, fleet[j..j + PER_PASS], at);
    FrontAndNext(tag, fleet, at, j, j + PER_PASS);
    PlainSets(front, block, may);
    assert {} * front == {};
    LeftAndNext(tag, fleet, at, j, {}, j + PER_PASS);
    Next(tag, fleet, at, may, k, front, front, block, front + block - may, front + block);
  }

  ghost predicate AllKnown(tag: string -> string, fleet: seq<Target>, at: int, may: set<string>, k: nat, j: nat)
    requires j <= |fleet|
  {
    Can(tag, fleet, at, may, k, Ids(tag, fleet[..j], at), Ids(tag, fleet[..j], at))
  }

  lemma FrontMeetsNone(tag: string -> string, fleet: seq<Target>, at: int, may: set<string>, i: nat, j: nat)
    requires i <= j <= |fleet| && may !! Ids(tag, fleet[..j], at)
    ensures may !! Ids(tag, fleet[..i], at) && Ids(tag, fleet[..j], at) - may == Ids(tag, fleet[..j], at)
  {
    assert forall t | t in fleet[..i] :: t in fleet[..j];
  }

  /** While nobody who may refuse is among them, each pass takes the next sixteen. */
  lemma {:induction false} BeforeRefusers(tag: string -> string, fleet: seq<Target>, at: int, may: set<string>, k: nat, j: nat)
    requires Fleet(tag, fleet, at) && j == PER_PASS * k <= |fleet| && may !! Ids(tag, fleet[..j], at)
    ensures AllKnown(tag, fleet, at, may, k, j)
    decreases k
  {
    if k == 0 {
      Nothing(tag, fleet, at, may);
      assert Ids(tag, fleet[..0], at) == {};
    } else {
      var i := j - PER_PASS;
      FrontMeetsNone(tag, fleet, at, may, i, j);
      BeforeRefusers(tag, fleet, at, may, k - 1, i);
      PlainStep(tag, fleet, at, may, k - 1, i);
    }
  }

  lemma AgainSets(front: set<string>, next: set<string>, may: set<string>)
    ensures front + next == front + (may * front + next)
    ensures var ids := may * front + next; front - may + (ids * front + (ids - may)) <= front + next
  {
  }

  /** The pass after some refused asks them again and has so much less room. */
  lemma AskedAgain(tag: string -> string, fleet: seq<Target>, at: int, may: set<string>, k: nat, j: nat, e: nat) returns (known: set<string>)
    requires Fleet(tag, fleet, at) && j <= e <= |fleet| && |may * Ids(tag, fleet[..j], at)| + e == j + PER_PASS
    requires Can(tag, fleet, at, may, k, Ids(tag, fleet[..j], at) - may, Ids(tag, fleet[..j], at))
    ensures known <= Ids(tag, fleet[..e], at) && Can(tag, fleet, at, may, k + 1, known, Ids(tag, fleet[..e], at))
  {
    LeftAndNext(tag, fleet, at, j, may, e);
    known := AgainStep(tag, fleet, at, may, k, Ids(tag, fleet[..j], at), Ids(tag, fleet[j..e], at));
    FrontAndNext(tag, fleet, at, j, e);
  }

  lemma AgainStep(tag: string -> string, fleet: seq<Target>, at: int, may: set<string>, k: nat, front: set<string>, next: set<string>) returns (known: set<string>)
    requires Fleet(tag, fleet, at) && Can(tag, fleet, at, may, k, front - may, front)
    requires Ids(tag, Front(Unknown(tag, fleet, at, front - may), PER_PASS), at) == may * front + next
    ensures known <= front + next && Can(tag, fleet, at, may, k + 1, known, front + next)
  {
    var ids := may * front + next;
    AgainSets(front, next, may);
    known := front - may + (ids * front + (ids - may));
    Next(tag, fleet, at, may, k, front - may, front, ids, known, front + next);
  }

  // ---------------------------------------------------------------- the promise of sixteen each

  /** How many that may refuse are among the first 16k. */
  ghost function InFirst(tag: string -> string, fleet: seq<Target>, at: int, may: set<string>, k: nat): nat {
    Refusers(tag, fleet, at, may, PER_PASS * k)
  }

  /** They take their places once more in the pass after. */
  ghost predicate Delays(tag: string -> string, fleet: seq<Target>, at: int, may: set<string>, k: nat) {
    var u := InFirst(tag, fleet, at, may, k); u > 0 && PER_PASS * (k + 1) - u < |fleet|
  }

  lemma MoreMay(may: set<string>, a: set<string>, b: set<string>)
    requires a <= b
    ensures |may * a| <= |may * b| <= |may * a| + |b| - |a|
  {
    SubsetCard(may * a, may * b);
    SplitCard(b, a);
    assert b * a == a;
    SplitCard(may * b, a);
    assert (may * b) * a == may * a;
    SubsetCard(may * b - a, b - a);
  }

  lemma MoreRefusers(tag: string -> string, fleet: seq<Target>, at: int, may: set<string>, n: nat, m: nat)
    requires Fleet(tag, fleet, at) && n <= m
    ensures Refusers(tag, fleet, at, may, n) <= Refusers(tag, fleet, at, may, m) <= Refusers(tag, fleet, at, may, n) + (m - n)
  {
    FrontsNest(tag, fleet, n, m, at);
    FrontIds(tag, fleet, n, at);
    FrontIds(tag, fleet, m, at);
    MoreMay(may, Ids(tag, Front(fleet, n), at), Ids(tag, Front(fleet, m), at));
  }

  lemma InFirstGrows(tag: string -> string, fleet: seq<Target>, at: int, may: set<string>, k: nat)
    requires Fleet(tag, fleet, at)
    ensures InFirst(tag, fleet, at, may, k) <= InFirst(tag, fleet, at, may, k + 1) <= InFirst(tag, fleet, at, may, k) + PER_PASS
  {
    MoreRefusers(tag, fleet, at, may, PER_PASS * k, PER_PASS * (k + 1));
  }

  lemma NoneInNone(tag: string -> string, fleet: seq<Target>, at: int, may: set<string>)
    ensures InFirst(tag, fleet, at, may, 0) == 0
  {
    assert Front(fleet, 0) == [];
    assert may * Ids(tag, [], at) == {};
  }

  ghost predicate StartsDelay(tag: string -> string, fleet: seq<Target>, at: int, may: set<string>, q: nat) {
    Delays(tag, fleet, at, may, q + 1) && InFirst(tag, fleet, at, may, q) == 0
  }

  /** The first k with refusers delays if any does. */
  lemma {:induction false} FirstDelay(tag: string -> string, fleet: seq<Target>, at: int, may: set<string>, k: nat) returns (q: nat)
    requires Fleet(tag, fleet, at) && Delays(tag, fleet, at, may, k)
    ensures StartsDelay(tag, fleet, at, may, q)
    decreases k
  {
    NoneInNone(tag, fleet, at, may);
    q := k - 1;
    InFirstGrows(tag, fleet, at, may, q);
    if InFirst(tag, fleet, at, may, q) > 0 { q := FirstDelay(tag, fleet, at, may, q); }
  }

  lemma EmptyMeets(a: set<string>, b: set<string>)
    requires |a * b| == 0
    ensures a !! b
  {
    assert a * b == {};
    assert forall x | x in a && x in b :: x in a * b;
  }

  /** A run of passes in which only Guards in `may` refuse. */
  ghost predicate Refusing(tag: string -> string, fleet: seq<Target>, at: int, may: set<string>, passes: seq<Pass>) {
    Passes(tag, EMPTY, {}, fleet, fleet, passes, at) && StaysFresh(fleet, passes) && Refused(tag, passes, at) <= may
  }

  ghost predicate ShortRun(tag: string -> string, fleet: seq<Target>, at: int, may: set<string>, passes: seq<Pass>, k: nat, n: int) {
    Refusing(tag, fleet, at, may, passes) && |passes| == k && Probed(tag, fleet, passes, at) == n
  }

  lemma EndsProbed(tag: string -> string, fleet: seq<Target>, at: int, may: set<string>, passes: seq<Pass>, k: nat, known: set<string>, e: nat)
    requires Fleet(tag, fleet, at) && e <= |fleet| && known <= Ids(tag, fleet[..e], at)
    requires Ends(tag, fleet, at, may, passes, k, known, Ids(tag, fleet[..e], at))
    ensures Probed(tag, fleet, passes, at) == e
  {
    var ids := Ids(tag, fleet[..e], at);
    assert Front(fleet, e) == fleet[..e];
    FrontIds(tag, fleet, e, at);
    assert (known + ids) * Ids(tag, fleet, at) == ids;
  }

  lemma RunIsRefusing(tag: string -> string, fleet: seq<Target>, at: int, may: set<string>, passes: seq<Pass>)
    requires IsARun(tag, fleet, at, may, passes)
    ensures Refusing(tag, fleet, at, may, passes)
  {
  }

  lemma CanMeansProbed(tag: string -> string, fleet: seq<Target>, at: int, may: set<string>, k: nat, known: set<string>, e: nat)
    requires Fleet(tag, fleet, at) && e <= |fleet| && known <= Ids(tag, fleet[..e], at)
    requires Can(tag, fleet, at, may, k, known, Ids(tag, fleet[..e], at))
    ensures exists passes :: ShortRun(tag, fleet, at, may, passes, k, e)
  {
    var passes :| Ends(tag, fleet, at, may, passes, k, known, Ids(tag, fleet[..e], at));
    EndsProbed(tag, fleet, at, may, passes, k, known, e);
    RunIsRefusing(tag, fleet, at, may, passes);
    assert ShortRun(tag, fleet, at, may, passes, k, e);
  }

  /** After `q` passes over `i` Guards, one in which some of the next sixteen refuse, and one more: `e` are probed. */
  lemma WorstFallsShort(tag: string -> string, fleet: seq<Target>, at: int, may: set<string>, q: nat, i: nat, j: nat, e: nat, k: nat)
    requires Fleet(tag, fleet, at) && i == PER_PASS * q && j == i + PER_PASS && k == q + 2 && j <= e <= |fleet|
    requires may !! Ids(tag, fleet[..i], at) && |may * Ids(tag, fleet[..j], at)| + e == j + PER_PASS
    ensures exists passes :: ShortRun(tag, fleet, at, may, passes, k, e)
  {
    BeforeRefusers(tag, fleet, at, may, q, i);
    PlainStep(tag, fleet, at, may, q, i);
    TwoMore(tag, fleet, at, may, q + 1, j, e, k);
  }

  lemma TwoMore(tag: string -> string, fleet: seq<Target>, at: int, may: set<string>, n: nat, j: nat, e: nat, k: nat)
    requires Fleet(tag, fleet, at) && k == n + 1 && j <= e <= |fleet| && |may * Ids(tag, fleet[..j], at)| + e == j + PER_PASS
    requires Can(tag, fleet, at, may, n, Ids(tag, fleet[..j], at) - may, Ids(tag, fleet[..j], at))
    ensures exists passes :: ShortRun(tag, fleet, at, may, passes, k, e)
  {
    var known := AskedAgain(tag, fleet, at, may, n, j, e);
    CanMeansProbed(tag, fleet, at, may, k, known, e);
  }

  lemma ShortRunBreaks(tag: string -> string, fleet: seq<Target>, at: int, may: set<string>, passes: seq<Pass>, k: nat, e: nat)
    requires ShortRun(tag, fleet, at, may, passes, k, e) && e < |fleet| && e < PER_PASS * k
    ensures Refusing(tag, fleet, at, may, passes) && !SixteenEach(tag, fleet, passes, at)
  {
  }

  lemma KeptPromise(tag: string -> string, fleet: seq<Target>, at: int, may: set<string>, passes: seq<Pass>)
    requires Fleet(tag, fleet, at) && (forall k: nat :: !Delays(tag, fleet, at, may, k)) && Refusing(tag, fleet, at, may, passes)
    ensures SixteenEach(tag, fleet, passes, at)
  {
    if passes != [] {
      CoverageWithRefusers(tag, fleet, passes, at, may);
      assert !Delays(tag, fleet, at, may, |passes| - 1);
    }
  }

  ghost predicate Breaks(tag: string -> string, fleet: seq<Target>, at: int, may: set<string>, passes: seq<Pass>) {
    Refusing(tag, fleet, at, may, passes) && !SixteenEach(tag, fleet, passes, at)
  }

  lemma BreaksAt(tag: string -> string, fleet: seq<Target>, at: int, may: set<string>, q: nat, i: nat, j: nat, e: nat)
    requires Fleet(tag, fleet, at) && i == PER_PASS * q && j == i + PER_PASS && j <= e < |fleet| && e < j + PER_PASS
    requires may !! Ids(tag, fleet[..i], at) && |may * Ids(tag, fleet[..j], at)| + e == j + PER_PASS
    ensures exists passes :: Breaks(tag, fleet, at, may, passes)
  {
    var k := q + 2;
    WorstFallsShort(tag, fleet, at, may, q, i, j, e, k);
    var passes :| ShortRun(tag, fleet, at, may, passes, k, e);
    ShortRunBreaks(tag, fleet, at, may, passes, k, e);
    assert Breaks(tag, fleet, at, may, passes);
  }

  lemma BreaksFrom(tag: string -> string, fleet: seq<Target>, at: int, may: set<string>, q: nat, i: nat, j: nat, u: nat)
    requires Fleet(tag, fleet, at) && i == PER_PASS * q && j == i + PER_PASS && 0 < u <= PER_PASS && j + PER_PASS - u < |fleet|
    requires Refusers(tag, fleet, at, may, i) == 0 && Refusers(tag, fleet, at, may, j) == u
    ensures exists passes :: Breaks(tag, fleet, at, may, passes)
  {
    assert Front(fleet, i) == fleet[..i];
    assert Front(fleet, j) == fleet[..j];
    EmptyMeets(may, Ids(tag, fleet[..i], at));
    BreaksAt(tag, fleet, at, may, q, i, j, j + PER_PASS - u);
  }

  lemma BrokenPromise(tag: string -> string, fleet: seq<Target>, at: int, may: set<string>, q: nat)
    requires Fleet(tag, fleet, at) && StartsDelay(tag, fleet, at, may, q)
    ensures exists passes :: Breaks(tag, fleet, at, may, passes)
  {
    InFirstGrows(tag, fleet, at, may, q);
    BreaksFrom(tag, fleet, at, may, q, PER_PASS * q, PER_PASS * (q + 1), InFirst(tag, fleet, at, may, q + 1));
  }

  /** If only Guards in `may` answer with the upgrade refusal, every k passes probe min(n, 16k) of n due Guards, in all
      runs, exactly when for no k the u > 0 of them among the first 16k leave more than 16(k + 1) - u Guards. */
  lemma DelaysExactly(tag: string -> string, fleet: seq<Target>, at: int, may: set<string>)
    requires Fleet(tag, fleet, at)
    ensures (forall passes | Refusing(tag, fleet, at, may, passes) :: SixteenEach(tag, fleet, passes, at)) <==>
            forall k: nat :: !Delays(tag, fleet, at, may, k)
  {
    if k: nat :| Delays(tag, fleet, at, may, k) {
      var q := FirstDelay(tag, fleet, at, may, k);
      BrokenPromise(tag, fleet, at, may, q);
    } else {
      forall passes | Refusing(tag, fleet, at, may, passes)
        ensures SixteenEach(tag, fleet, passes, at)
      {
        KeptPromise(tag, fleet, at, may, passes);
      }
    }
  }
}
