/** What operations that overlap can cost. A pairing clears all receipts, also one
    stored after it read them; a decommission destroys the key on what it saw
    before. For both the runs in which nothing is lost are described exactly: by
    the steps that came in between, and by the kinds of steps that may. */
module CustodyOverlap {
  import opened Common
  import opened Journal
  import opened Receipts
  import opened Custody

  /** The kinds of steps that may come between the parts of an operation. */
  datatype Kind = Guarding | Damaging | Revoking | HandingOff | Reading | Accepting | Clearing | Abandoning | Decommissioning

  function KindOf(step: Step): Kind {
    match step
    case Admit(_) => Guarding
    case Record(_, _) => Guarding
    case Rewrite => Guarding
    case Damage(_) => Damaging
    case Revoke => Revoking
    case Handoff(_, _, _, _, _) => HandingOff
    case Look(_) => Reading
    case Declare(_, _) => Reading
    case Accept(_) => Accepting
    case Clear(_) => Clearing
    case Abandon(_) => Abandoning
    case Empty(_, _) => Decommissioning
    case Check(_, _) => Decommissioning
    case Wipe(_, _) => Decommissioning
  }

  const PAIRING := {Reading, Accepting, Clearing, Abandoning}

  // ---------------------------------------------------------------- how receipts go

  /** The receipt a handoff would store. */
  function NewReceipt(d: Digests, log: Log, c: Confirmation, removedAt: int): Receipt {
    ReceiptFor(d, ArchiveOf(log, c), |RemovalOf(log, c).entries|, removedAt)
  }

  /** The handoff comes to its end. */
  predicate Finishes(s: State, step: Step) {
    step.Handoff? && Stores(Reaches(s, step.confirmation, step.sawBound, step.verdict, step.path, step.stop))
  }

  lemma FinishedStep(s: State, step: Step)
    requires Finishes(s, step)
    ensures step.stop.Finished? && Reaches(s, step.confirmation, step.sawBound, step.verdict, step.path, step.stop) == Reached(step.stop)
  {
  }

  /** A step changes the list only as a handoff that finishes or as the clearing of an accepted pairing. */
  lemma ReceiptsAfter(d: Digests, s: State, step: Step)
    ensures Apply(d, s, step).receipts ==
      if Finishes(s, step) then Stored(s.receipts, NewReceipt(d, s.log, step.confirmation, step.stop.removedAt))
      else if step.Clear? && Clears(s, step.process) then [] else s.receipts
  {
    if Finishes(s, step) { FinishedStep(s, step); }
  }

  lemma StoreDropsOnlyBy(receipts: seq<Receipt>, newest: Receipt, r: Receipt)
    requires Unrelated(receipts) && r in receipts && r !in Stored(receipts, newest)
    ensures newest in Stored(receipts, newest) && (Supersedes(newest, r) || |Stored(receipts, newest)| == Receipts.MAX)
  {
    StoredEnds(receipts, newest);
    StoredIsTail(receipts, newest);
    if r != newest { StoreDropsExactly(receipts, newest, r); }
  }

  /** In every run, overlapping or not, a receipt goes only by a newer one of its tenant or handoff, by four newer ones,
      or when an accepted pairing clears. */
  lemma ReceiptsGoOnlyBy(d: Digests, steps: seq<Step>, step: Step, r: Receipt)
    requires r in Exec(d, steps).receipts && r !in Apply(d, Exec(d, steps), step).receipts
    ensures Finishes(Exec(d, steps), step) || (step.Clear? && Clears(Exec(d, steps), step.process))
    ensures Finishes(Exec(d, steps), step) ==>
      var after, newest := Apply(d, Exec(d, steps), step).receipts, NewReceipt(d, Exec(d, steps).log, step.confirmation, step.stop.removedAt);
      newest in after && (Supersedes(newest, r) || |after| == Receipts.MAX)
  {
    var s := Exec(d, steps);
    InvHolds(d, steps);
    ReceiptsAfter(d, s, step);
    if Finishes(s, step) {
      StoreDropsOnlyBy(s.receipts, NewReceipt(d, s.log, step.confirmation, step.stop.removedAt), r);
    }
  }

  // ---------------------------------------------------------------- what was stored since

  ghost function More(d: Digests, s: State, step: Step, before: seq<Receipt>): seq<Receipt> {
    if Finishes(s, step) then before + [NewReceipt(d, s.log, step.confirmation, step.stop.removedAt)]
    else if step.Clear? && Clears(s, step.process) then [] else before
  }

  /** The receipts stored from step `i` on and not cleared since, in order. */
  ghost function StoredSince(d: Digests, steps: seq<Step>, i: nat): seq<Receipt>
    decreases |steps|
  {
    if |steps| <= i then []
    else var n := |steps| - 1; More(d, Exec(d, steps[..n]), steps[n], StoredSince(d, steps[..n], i))
  }

  /** All receipts are from `base` or `more`, and the latest of these is there. */
  ghost predicate Made(receipts: seq<Receipt>, base: seq<Receipt>, more: seq<Receipt>) {
    (forall r | r in receipts :: r in base || r in more) && (more != [] ==> more[|more| - 1] in receipts)
  }

  lemma StepMakes(d: Digests, s: State, step: Step, base: seq<Receipt>, more: seq<Receipt>)
    requires Made(s.receipts, base, more)
    ensures Made(Apply(d, s, step).receipts, base, More(d, s, step, more))
  {
    ReceiptsAfter(d, s, step);
    if Finishes(s, step) {
      var newest := NewReceipt(d, s.log, step.confirmation, step.stop.removedAt);
      StoredEnds(s.receipts, newest);
      forall r | r in Stored(s.receipts, newest)
        ensures r in base || r in more + [newest]
      {
        if r != newest { StoredComesFrom(s.receipts, newest, r); }
      }
    }
  }

  lemma ExecSnoc(d: Digests, steps: seq<Step>, step: Step)
    ensures Exec(d, steps + [step]) == Apply(d, Exec(d, steps), step)
  {
    assert (steps + [step])[..|steps|] == steps;
  }

  lemma SinceSnoc(d: Digests, steps: seq<Step>, step: Step, i: nat)
    requires i <= |steps|
    ensures StoredSince(d, steps + [step], i) == More(d, Exec(d, steps), step, StoredSince(d, steps, i))
  {
    assert (steps + [step])[..|steps|] == steps;
  }

  ghost predicate MadeSince(d: Digests, steps: seq<Step>, base: seq<Receipt>, i: nat) {
    Made(Exec(d, steps).receipts, base, StoredSince(d, steps, i))
  }

  lemma MadeSnoc(d: Digests, steps: seq<Step>, step: Step, base: seq<Receipt>, i: nat)
    requires i <= |steps| && MadeSince(d, steps, base, i)
    ensures MadeSince(d, steps + [step], base, i)
  {
    ExecSnoc(d, steps, step);
    SinceSnoc(d, steps, step, i);
    StepMakes(d, Exec(d, steps), step, base, StoredSince(d, steps, i));
  }

  /** What is there now was there at step `i` or was stored since; the latest stored receipt is there. */
  lemma {:induction false} StoredSinceAccounts(d: Digests, steps: seq<Step>, i: nat)
    requires i <= |steps|
    ensures MadeSince(d, steps, Exec(d, steps[..i]).receipts, i)
    decreases |steps|
  {
    if i == |steps| {
      assert steps[..i] == steps;
    } else {
      var n := |steps| - 1;
      assert steps[..n][..i] == steps[..i] && steps[..n] + [steps[n]] == steps;
      StoredSinceAccounts(d, steps[..n], i);
      MadeSnoc(d, steps[..n], steps[n], Exec(d, steps[..i]).receipts, i);
    }
  }

  ghost predicate EndsAt(steps: seq<Step>, n: nat, at: int) {
    n < |steps| && steps[n].Handoff? && steps[n].stop == Finished(at)
  }

  /** No two handoffs put the same time into their receipts. */
  ghost predicate TimesDiffer(steps: seq<Step>) {
    forall i: nat, j: nat, at | EndsAt(steps, i, at) && EndsAt(steps, j, at) :: i == j
  }

  lemma {:induction false} StoredSinceTimes(d: Digests, steps: seq<Step>, i: nat, r: Receipt)
    requires r in StoredSince(d, steps, i)
    ensures exists n: nat :: i <= n && EndsAt(steps, n, r.removedAt)
    decreases |steps|
  {
    var n := |steps| - 1;
    var s := Exec(d, steps[..n]);
    if r in StoredSince(d, steps[..n], i) {
      StoredSinceTimes(d, steps[..n], i, r);
      var m: nat :| i <= m && EndsAt(steps[..n], m, r.removedAt);
      assert EndsAt(steps, m, r.removedAt);
    } else {
      FinishedStep(s, steps[n]);
      assert EndsAt(steps, n, r.removedAt);
    }
  }

  lemma ReceiptTimes(d: Digests, steps: seq<Step>, r: Receipt)
    requires r in Exec(d, steps).receipts
    ensures exists n: nat :: EndsAt(steps, n, r.removedAt)
  {
    StoredSinceAccounts(d, steps, 0);
    assert steps[..0] == [];
    StoredSinceTimes(d, steps, 0, r);
  }

  /** Receipts stored later are none of those that were there. */
  lemma StoredSinceAreNew(d: Digests, steps: seq<Step>, i: nat, r: Receipt)
    requires TimesDiffer(steps) && i <= |steps| && r in StoredSince(d, steps, i)
    ensures r !in Exec(d, steps[..i]).receipts
  {
    StoredSinceTimes(d, steps, i, r);
    var n: nat :| i <= n && EndsAt(steps, n, r.removedAt);
    if r in Exec(d, steps[..i]).receipts {
      ReceiptTimes(d, steps[..i], r);
      var m: nat :| EndsAt(steps[..i], m, r.removedAt);
      assert EndsAt(steps, m, r.removedAt);
    }
  }

  // ---------------------------------------------------------------- cleared receipts were declared

  /** Process `p` reads the receipts at step `i`. */
  ghost predicate LooksAt(d: Digests, steps: seq<Step>, i: nat, p: nat) {
    i < |steps| && steps[i] == Look(p) && !Exec(d, steps[..i]).bound
  }

  /** Its latest read of them. */
  ghost predicate LastLook(d: Digests, steps: seq<Step>, i: nat, p: nat) {
    LooksAt(d, steps, i, p) && forall j: nat | i < j :: !LooksAt(d, steps, j, p)
  }

  lemma LooksAtPrefix(d: Digests, steps: seq<Step>, n: nat, i: nat, p: nat)
    requires n <= |steps|
    ensures LooksAt(d, steps[..n], i, p) <==> i < n && LooksAt(d, steps, i, p)
  {
    if i < n { assert steps[..n][..i] == steps[..i]; }
  }

  lemma OthersLeavePairings(d: Digests, s: State, step: Step)
    requires KindOf(step) !in PAIRING
    ensures Apply(d, s, step).pairings == s.pairings && Apply(d, s, step).declared == s.declared
  {
  }

  /** An open pairing has just read the receipts, or was open with the same ones before. */
  ghost predicate Continues(s: State, s': State, step: Step, p: nat) {
    p in s'.pairings ==>
      || (step == Look(p) && !s.bound && s'.pairings[p] == Looked(s.receipts))
      || (p in s.pairings && s'.pairings[p].declared == s.pairings[p].declared)
  }

  lemma ReadingContinues(s: State, process: nat, keyed: bool, p: nat)
    ensures Continues(s, Looking(s, process), Look(process), p)
    ensures Continues(s, Declaring(s, process, keyed), Declare(process, keyed), p)
  {
  }

  lemma EndingContinues(s: State, process: nat, p: nat)
    ensures Continues(s, Accepted(s, process), Accept(process), p) && Continues(s, Cleared(s, process), Clear(process), p)
    ensures Continues(s, s.(pairings := s.pairings - {process}), Abandon(process), p)
  {
  }

  lemma PartContinues(d: Digests, s: State, step: Step, p: nat)
    requires KindOf(step) in PAIRING
    ensures Continues(s, Apply(d, s, step), step, p)
  {
    match step
    case Look(process) => ReadingContinues(s, process, true, p);
    case Declare(process, keyed) => ReadingContinues(s, process, keyed, p);
    case Accept(process) => EndingContinues(s, process, p);
    case Clear(process) => EndingContinues(s, process, p);
    case Abandon(process) => EndingContinues(s, process, p);
  }

  lemma PairingAfter(d: Digests, s: State, step: Step, p: nat)
    ensures Continues(s, Apply(d, s, step), step, p)
  {
    if KindOf(step) in PAIRING { PartContinues(d, s, step, p); } else { OthersLeavePairings(d, s, step); }
  }

  lemma LastLookExtends(d: Digests, before: seq<Step>, step: Step, i: nat, p: nat)
    requires LastLook(d, before, i, p) && !LooksAt(d, before + [step], |before|, p)
    ensures LastLook(d, before + [step], i, p)
  {
    var steps := before + [step];
    assert steps[..|before|] == before;
    forall j: nat
      ensures LooksAt(d, before, j, p) <==> j < |before| && LooksAt(d, steps, j, p)
    {
      LooksAtPrefix(d, steps, |before|, j, p);
    }
  }

  /** Every open pairing has read the receipts, and holds what was there then. */
  lemma {:induction false} PairingLooked(d: Digests, steps: seq<Step>, p: nat) returns (i: nat)
    requires p in Exec(d, steps).pairings
    ensures LastLook(d, steps, i, p) && Exec(d, steps).pairings[p].declared == Exec(d, steps[..i]).receipts
    decreases |steps|
  {
    var n := |steps| - 1;
    var before := steps[..n];
    assert before + [steps[n]] == steps;
    PairingAfter(d, Exec(d, before), steps[n], p);
    if LooksAt(d, steps, n, p) {
      i := n;
    } else {
      i := PairingLooked(d, before, p);
      LastLookExtends(d, before, steps[n], i, p);
      assert before[..i] == steps[..i];
    }
  }

  lemma LastLookIsUnique(d: Digests, steps: seq<Step>, i: nat, j: nat, p: nat)
    requires LastLook(d, steps, i, p) && LastLook(d, steps, j, p)
    ensures i == j
  {
  }

  /** Whatever pairing `p` would clear now is in its own declaration. */
  ghost predicate ClearsOwn(s: State, p: nat)
    requires Clears(s, p)
  {
    forall r | r in s.receipts :: r in s.pairings[p].declared
  }

  /** In every run, an accepted pairing that read the receipts at step `i` clears only what it declared exactly when no
      handoff has finished since, or another pairing has cleared its receipt again. */
  lemma ClearedWereDeclaredExactly(d: Digests, steps: seq<Step>, i: nat, p: nat)
    requires TimesDiffer(steps) && Clears(Exec(d, steps), p) && LastLook(d, steps, i, p)
    ensures ClearsOwn(Exec(d, steps), p) <==> StoredSince(d, steps, i) == []
  {
    var s, more := Exec(d, steps), StoredSince(d, steps, i);
    var j := PairingLooked(d, steps, p);
    LastLookIsUnique(d, steps, i, j, p);
    StoredSinceAccounts(d, steps, i);
    if more != [] { StoredSinceAreNew(d, steps, i, more[|more| - 1]); }
  }

  /** Whatever is cleared was presented to the control plane, by this pairing or an earlier one. */
  ghost predicate ClearsDeclared(s: State, p: nat) {
    Clears(s, p) ==> forall r | r in s.receipts :: r in s.declared
  }

  ghost predicate ClearsDeclaredAfter(d: Digests, steps: seq<Step>, p: nat) {
    ClearsDeclared(Exec(d, steps), p)
  }

  ghost predicate AcceptedAreDeclared(s: State) {
    forall p, r | Clears(s, p) && r in s.pairings[p].declared :: r in s.declared
  }

  lemma StepKeepsDeclared(d: Digests, s: State, step: Step)
    requires AcceptedAreDeclared(s)
    ensures AcceptedAreDeclared(Apply(d, s, step))
  {
    forall p, r | Clears(Apply(d, s, step), p) && r in Apply(d, s, step).pairings[p].declared
      ensures r in Apply(d, s, step).declared
    {
      PairingAfter(d, s, step, p);
    }
  }

  lemma {:induction false} AcceptedWereDeclared(d: Digests, steps: seq<Step>)
    ensures AcceptedAreDeclared(Exec(d, steps))
  {
    if steps != [] {
      AcceptedWereDeclared(d, steps[..|steps| - 1]);
      StepKeepsDeclared(d, Exec(d, steps[..|steps| - 1]), steps[|steps| - 1]);
    }
  }

  ghost predicate PairingStepAt(d: Digests, steps: seq<Step>, kinds: set<Kind>, i: nat) {
    i < |steps| && Exec(d, steps[..i]).pairings != map[] ==> KindOf(steps[i]) in kinds + PAIRING
  }

  /** While a pairing is open only its own parts and steps of these kinds come. */
  ghost predicate WhilePairing(d: Digests, steps: seq<Step>, kinds: set<Kind>) {
    forall i: nat :: PairingStepAt(d, steps, kinds, i)
  }

  lemma {:induction false} NoHandoffStoresNone(d: Digests, steps: seq<Step>, i: nat)
    requires forall j | i <= j < |steps| :: !steps[j].Handoff?
    ensures StoredSince(d, steps, i) == []
    decreases |steps|
  {
    if i < |steps| { NoHandoffStoresNone(d, steps[..|steps| - 1], i); }
  }

  lemma {:induction false} OpenSince(d: Digests, steps: seq<Step>, i: nat, p: nat, j: nat)
    requires LastLook(d, steps, i, p) && p in Exec(d, steps).pairings && i < j <= |steps|
    ensures p in Exec(d, steps[..j]).pairings
    decreases |steps| - j
  {
    if j == |steps| {
      assert steps[..j] == steps;
    } else {
      OpenSince(d, steps, i, p, j + 1);
      assert !LooksAt(d, steps, j, p) && steps[..j + 1] == steps[..j] + [steps[j]];
      ExecSnoc(d, steps[..j], steps[j]);
      PairingAfter(d, Exec(d, steps[..j]), steps[j], p);
    }
  }

  lemma NoneStoredWhileOpen(d: Digests, steps: seq<Step>, kinds: set<Kind>, i: nat, p: nat)
    requires WhilePairing(d, steps, kinds) && HandingOff !in kinds && LastLook(d, steps, i, p) && p in Exec(d, steps).pairings
    ensures StoredSince(d, steps, i) == []
  {
    forall j | i <= j < |steps|
      ensures !steps[j].Handoff?
    {
      if i < j {
        OpenSince(d, steps, i, p, j);
        assert PairingStepAt(d, steps, kinds, j);
      }
    }
    NoHandoffStoresNone(d, steps, i);
  }

  lemma ClearedWereDeclared(d: Digests, steps: seq<Step>, kinds: set<Kind>, p: nat)
    requires WhilePairing(d, steps, kinds) && HandingOff !in kinds
    ensures ClearsDeclaredAfter(d, steps, p)
  {
    if Clears(Exec(d, steps), p) {
      var i := PairingLooked(d, steps, p);
      NoneStoredWhileOpen(d, steps, kinds, i, p);
      StoredSinceAccounts(d, steps, i);
      AcceptedWereDeclared(d, steps);
    }
  }

  /** A confirmed handoff that runs to its end. */
  ghost predicate Full(h: Step) {
    h.Handoff? && !h.sawBound && h.verdict.Verified? && h.stop.Finished? && TrimSpace(h.confirmation.tenant) != ""
  }

  /** No journal, no archive, no receipt. */
  ghost predicate Blank(s: State) {
    s.log.Missing? && s.receipts == [] && s.archives == map[] && s.declared == {}
  }

  lemma FullHandsOff(d: Digests, s: State, h: Step)
    requires Full(h) && !s.log.Denied? && h.path !in s.archives
    ensures var t := Apply(d, s, h);
      && t.receipts == Stored(s.receipts, NewReceipt(d, s.log, h.confirmation, h.stop.removedAt)) && t.log == HandedOff(Held(s.log), h.confirmation.tenant)
      && t.key && t.pairings == s.pairings && t.wipes == s.wipes && t.declared == s.declared
  {
    assert Reaches(s, h.confirmation, h.sawBound, h.verdict, h.path, h.stop) == Reached(h.stop);
  }

  lemma FullStores(d: Digests, steps: seq<Step>, h: Step)
    requires Full(h) && Blank(Exec(d, steps))
    ensures var s, t := Exec(d, steps), Exec(d, steps + [h]);
      |t.receipts| == 1 && t.key && t.pairings == s.pairings && t.wipes == s.wipes && t.declared == {}
  {
    var s := Exec(d, steps);
    ExecSnoc(d, steps, h);
    FullHandsOff(d, s, h);
  }

  const READ: seq<Step> := [] + [Look(0)] + [Declare(0, true)]

  /** A new server after the reads of its first pairing. */
  const FRESH := INITIAL.(pairings := map[0 := Presented([], {}, false)], key := true)

  lemma FirstReads()
    ensures Declaring(Looking(INITIAL, 0), 0, true) == FRESH
  {
    assert Tenants([]) == {};
  }

  lemma DeclaresNothing(d: Digests)
    ensures Exec(d, READ) == FRESH
  {
    ExecSnoc(d, [], Look(0));
    ExecSnoc(d, [] + [Look(0)], Declare(0, true));
    FirstReads();
  }

  lemma AcceptedWithoutIt(d: Digests, steps: seq<Step>)
    requires var s := Exec(d, steps); 0 in s.pairings && s.pairings[0] == Presented([], {}, false) && s.declared == {} && |s.receipts| == 1
    ensures !ClearsDeclaredAfter(d, steps + [Accept(0)], 0)
  {
    ExecSnoc(d, steps, Accept(0));
    assert Exec(d, steps).receipts[0] in Exec(d, steps).receipts;
  }

  /** The pairing declares nothing, a handoff stores its receipt, and the accepted pairing is about to clear it. */
  lemma UndeclaredReceiptIsCleared(d: Digests, h: Step)
    requires Full(h)
    ensures !ClearsDeclaredAfter(d, READ + [h] + [Accept(0)], 0)
  {
    DeclaresNothing(d);
    FullStores(d, READ, h);
    AcceptedWithoutIt(d, READ + [h]);
  }

  lemma ReadThenHandOff(d: Digests, h: Step, kinds: set<Kind>)
    requires h.Handoff? && HandingOff in kinds
    ensures WhilePairing(d, READ + [h] + [Accept(0)], kinds)
  {
    var steps := READ + [h] + [Accept(0)];
    forall i: nat
      ensures PairingStepAt(d, steps, kinds, i)
    {
      assert i < |steps| ==> KindOf(steps[i]) in kinds + PAIRING;
    }
  }

  /** "A pairing clears only receipts that were presented" holds for all runs in which, while a pairing is open, only its
      own parts and steps of the given kinds come, exactly when a handoff is not among these. */
  lemma ClearedKindsExactly(d: Digests, h: Step, kinds: set<Kind>)
    requires Full(h)
    ensures (forall steps, p | WhilePairing(d, steps, kinds) :: ClearsDeclaredAfter(d, steps, p)) <==> HandingOff !in kinds
  {
    if HandingOff in kinds {
      UndeclaredReceiptIsCleared(d, h);
      ReadThenHandOff(d, h, kinds);
    } else {
      forall steps, p | WhilePairing(d, steps, kinds)
        ensures ClearsDeclaredAfter(d, steps, p)
      {
        ClearedWereDeclared(d, steps, kinds, p);
      }
    }
  }

  // ---------------------------------------------------------------- the key goes last

  /** Only the wipe of a decommission that saw no journal and no receipt takes the key. */
  lemma OnlyWipeTakesTheKey(d: Digests, s: State, step: Step)
    requires s.key && !Apply(d, s, step).key
    ensures step.Wipe? && step.process in s.wipes && s.wipes[step.process] == Decided(true) && step.done
  {
  }

  ghost predicate WipeStepAt(d: Digests, steps: seq<Step>, kinds: set<Kind>, i: nat) {
    i < |steps| && Exec(d, steps[..i]).wipes != map[] ==> KindOf(steps[i]) in kinds + {Decommissioning}
  }

  /** While a decommission is between its parts only such parts and steps of these kinds come. */
  ghost predicate WhileWiping(d: Digests, steps: seq<Step>, kinds: set<Kind>) {
    forall i: nat :: WipeStepAt(d, steps, kinds, i)
  }

  predicate KeepsKeySafe(kinds: set<Kind>) {
    HandingOff !in kinds && Accepting !in kinds
  }

  ghost predicate IsEmpty(s: State) {
    !s.bound && Held(s.log) == []
  }

  ghost predicate NothingNeedsTheKey(s: State) {
    IsEmpty(s) && s.receipts == []
  }

  ghost predicate WipesSafe(s: State) {
    && (s.wipes != map[] ==> IsEmpty(s))
    && (forall p | p in s.wipes && s.wipes[p] == Decided(true) :: s.receipts == [])
  }

  lemma GuardStaysEmpty(d: Digests, s: State, step: Step)
    requires IsEmpty(s) && KindOf(step) == Guarding
    ensures IsEmpty(Apply(d, s, step))
  {
  }

  lemma PartStaysEmpty(s: State, process: nat, end: EmptyStop, readable: bool, done: bool)
    requires IsEmpty(s)
    ensures IsEmpty(Emptying(s, process, end)) && IsEmpty(Checking(s, process, readable)) && IsEmpty(Wiped(s, process, done))
  {
  }

  lemma EmptyStaysEmpty(d: Digests, s: State, step: Step)
    requires IsEmpty(s) && !step.Handoff? && !step.Accept?
    ensures IsEmpty(Apply(d, s, step))
  {
    match step
    case Empty(process, end) => PartStaysEmpty(s, process, end, true, true);
    case Check(process, readable) => PartStaysEmpty(s, process, Ended, readable, true);
    case Wipe(process, done) => PartStaysEmpty(s, process, Ended, true, done);
    case _ => if KindOf(step) == Guarding { GuardStaysEmpty(d, s, step); }
  }

  lemma EndedIsEmpty(s: State, process: nat)
    requires !s.bound && !s.log.Denied? && Pending(Held(s.log)) == []
    ensures IsEmpty(Emptying(s, process, Ended))
  {
  }

  lemma StepKeepsWipesSafe(d: Digests, s: State, step: Step)
    requires WipesSafe(s) && (s.wipes != map[] ==> !step.Handoff? && !step.Accept?)
    ensures WipesSafe(Apply(d, s, step))
  {
    ReceiptsAfter(d, s, step);
    if s.wipes != map[] { EmptyStaysEmpty(d, s, step); }
    if step.Empty? && step.end.Ended? && !s.bound && !s.log.Denied? && Pending(Held(s.log)) == [] { EndedIsEmpty(s, step.process); }
  }

  lemma WhileWipingPrefix(d: Digests, steps: seq<Step>, kinds: set<Kind>, n: nat)
    requires WhileWiping(d, steps, kinds) && n <= |steps|
    ensures WhileWiping(d, steps[..n], kinds)
  {
    forall i: nat
      ensures WipeStepAt(d, steps[..n], kinds, i)
    {
      assert WipeStepAt(d, steps, kinds, i);
      if i < n { assert steps[..n][..i] == steps[..i]; }
    }
  }

  lemma {:induction false} WipesSafeHolds(d: Digests, steps: seq<Step>, kinds: set<Kind>)
    requires WhileWiping(d, steps, kinds) && KeepsKeySafe(kinds)
    ensures WipesSafe(Exec(d, steps))
  {
    if steps != [] {
      var n := |steps| - 1;
      assert WipeStepAt(d, steps, kinds, n);
      WhileWipingPrefix(d, steps, kinds, n);
      WipesSafeHolds(d, steps[..n], kinds);
      StepKeepsWipesSafe(d, Exec(d, steps[..n]), steps[n]);
    }
  }

  /** If this step takes the key, nothing on the server needs it. */
  ghost predicate TakesKeyLast(d: Digests, s: State, step: Step) {
    s.key && !Apply(d, s, step).key ==> NothingNeedsTheKey(s)
  }

  lemma WipesAnyway(d: Digests, s: State)
    requires s.key && 0 in s.wipes && s.wipes[0] == Decided(true) && (|s.receipts| == 1 || s.bound)
    ensures !TakesKeyLast(d, s, Wipe(0, true))
  {
  }

  ghost predicate TakesKeyLastAfter(d: Digests, steps: seq<Step>, step: Step) {
    TakesKeyLast(d, Exec(d, steps), step)
  }

  lemma BlankIsWiped(s: State)
    requires Blank(s) && !s.bound
    ensures var t := Checking(Emptying(s, 0, Ended), 0, true);
      Blank(t) && t.key == s.key && t.pairings == s.pairings && 0 in t.wipes && t.wipes[0] == Decided(true)
  {
  }

  lemma DecidesToWipe(d: Digests, steps: seq<Step>)
    requires var s := Exec(d, steps); Blank(s) && !s.bound
    ensures var s, t := Exec(d, steps), Exec(d, steps + [Empty(0, Ended)] + [Check(0, true)]);
      Blank(t) && t.key == s.key && t.pairings == s.pairings && 0 in t.wipes && t.wipes[0] == Decided(true)
  {
    ExecSnoc(d, steps, Empty(0, Ended));
    ExecSnoc(d, steps + [Empty(0, Ended)], Check(0, true));
    BlankIsWiped(Exec(d, steps));
  }

  /** A receipt arrives between the look for receipts and the wipe. */
  lemma KeyGoesBeforeAReceipt(d: Digests, h: Step)
    requires Full(h)
    ensures !TakesKeyLastAfter(d, [] + [Empty(0, Ended)] + [Check(0, true)] + [h], Wipe(0, true))
  {
    var steps := [] + [Empty(0, Ended)] + [Check(0, true)];
    DecidesToWipe(d, []);
    FullStores(d, steps, h);
    WipesAnyway(d, Exec(d, steps + [h]));
  }

  /** A pairing that declared before the decommission began succeeds before the wipe. */
  lemma KeyGoesFromABoundServer(d: Digests)
    ensures !TakesKeyLastAfter(d, READ + [Empty(0, Ended)] + [Check(0, true)] + [Accept(0)], Wipe(0, true))
  {
    var steps := READ + [Empty(0, Ended)] + [Check(0, true)];
    DeclaresNothing(d);
    DecidesToWipe(d, READ);
    ExecSnoc(d, steps, Accept(0));
    WipesAnyway(d, Exec(d, steps + [Accept(0)]));
  }

  /** Before the decommission nothing is between its parts, whatever comes then. */
  lemma ReadsDoNotWipe(d: Digests, steps: seq<Step>, kinds: set<Kind>)
    requires Accepting in kinds && steps == READ + [Empty(0, Ended)] + [Check(0, true)] + [Accept(0)]
    ensures WhileWiping(d, steps, kinds)
  {
    ExecSnoc(d, [], Look(0));
    forall i: nat
      ensures WipeStepAt(d, steps, kinds, i)
    {
      if i == 0 {
        assert steps[..0] == [];
      } else if i == 1 {
        assert steps[..1] == [] + [Look(0)];
      }
    }
  }

  lemma WipeWithHandOff(d: Digests, h: Step, kinds: set<Kind>)
    requires h.Handoff? && HandingOff in kinds
    ensures WhileWiping(d, [] + [Empty(0, Ended)] + [Check(0, true)] + [h], kinds)
  {
    var steps := [] + [Empty(0, Ended)] + [Check(0, true)] + [h];
    forall i: nat
      ensures WipeStepAt(d, steps, kinds, i)
    {
      assert i < |steps| ==> KindOf(steps[i]) in kinds + {Decommissioning};
    }
  }

  lemma KeyGoesLast(d: Digests, steps: seq<Step>, kinds: set<Kind>, step: Step)
    requires WhileWiping(d, steps, kinds) && KeepsKeySafe(kinds)
    ensures TakesKeyLastAfter(d, steps, step)
  {
    WipesSafeHolds(d, steps, kinds);
    if Exec(d, steps).key && !Apply(d, Exec(d, steps), step).key { OnlyWipeTakesTheKey(d, Exec(d, steps), step); }
  }

  /** "The key is destroyed only when no entry is kept, no receipt waits and no binding holds" is true of all runs in
      which, between the parts of a decommission, only such parts and steps of the given kinds come, exactly when neither
      a handoff nor the success of a pairing is among these. */
  lemma KeyGoesLastExactly(d: Digests, h: Step, kinds: set<Kind>)
    requires Full(h)
    ensures (forall steps, step | WhileWiping(d, steps, kinds) :: TakesKeyLastAfter(d, steps, step)) <==> KeepsKeySafe(kinds)
  {
    if HandingOff in kinds {
      KeyGoesBeforeAReceipt(d, h);
      WipeWithHandOff(d, h, kinds);
    } else if Accepting in kinds {
      KeyGoesFromABoundServer(d);
      ReadsDoNotWipe(d, READ + [Empty(0, Ended)] + [Check(0, true)] + [Accept(0)], kinds);
    } else {
      forall steps, step | WhileWiping(d, steps, kinds)
        ensures TakesKeyLastAfter(d, steps, step)
      {
        KeyGoesLast(d, steps, kinds, step);
      }
    }
  }

  /** In such runs, when the key goes every entry ever admitted was acknowledged or is in a complete archive. */
  lemma KeyGoesWithAllAccounted(d: Digests, steps: seq<Step>, kinds: set<Kind>, step: Step, id: string)
    requires WhileWiping(d, steps, kinds) && KeepsKeySafe(kinds)
    requires Exec(d, steps).key && !Apply(d, Exec(d, steps), step).key && id in Exec(d, steps).truth
    ensures var s := Exec(d, steps); (id in s.dropped && Acked(s.truth[id])) || InArchives(s.archives, s.truth[id])
  {
    KeyGoesLast(d, steps, kinds, step);
    EvidenceIsConserved(d, steps, id);
  }
}
