/** The declaration of a pairing: the receipts and, read after them, the tenants
    whose entries the journal shows. When it accounts for every tenant whose
    entries or receipt the server has. */
module CustodyDeclaration {
  import opened Common
  import opened Journal
  import opened Receipts
  import opened Custody
  import opened CustodyOverlap

  datatype Declaration = Declaration(receipts: seq<Receipt>, heldEntries: nat, heldTenants: seq<string>)

  ghost predicate Tenanted(entries: seq<Entry>, tenant: string) {
    exists e :: e in entries && e.tenant == tenant
  }

  ghost predicate NoRepeats(xs: seq<string>) {
    forall i, j | 0 <= i < j < |xs| :: xs[i] != xs[j]
  }

  /** guardPriorCustody, with the receipts as they were read before it takes the journal lock: each tenant the open
      store lists, once. */
  method GuardPriorCustody(log: Log, receipts: seq<Receipt>) returns (declared: Declaration)
    ensures declared.receipts == receipts && declared.heldEntries == |Shown(log)| && NoRepeats(declared.heldTenants)
    ensures forall t :: t in declared.heldTenants <==> Tenanted(Shown(log), t)
    ensures !log.Denied? ==> forall t :: t in declared.heldTenants <==> Tenanted(Held(log), t)
  {
    var tenants: seq<string> := [];
    if log.Missing? { return Declaration(receipts, 0, []); }
    var held := Shown(log);
    for i := 0 to |held|
      invariant NoRepeats(tenants)
      invariant forall t :: t in tenants <==> Tenanted(held[..i], t)
    {
      assert held[..i + 1] == held[..i] + [held[i]];
      if held[i].tenant !in tenants { tenants := tenants + [held[i].tenant]; }
    }
    assert held[..|held|] == held;
    declared := Declaration(receipts, |held|, tenants);
  }

  /** Two logs a pairing cannot tell apart. */
  ghost predicate SameView(a: Log, b: Log) {
    Shown(a) == Shown(b) && (a.Denied? <==> b.Denied?)
  }

  ghost predicate Declares(log: Log) {
    forall t :: Tenanted(Held(log), t) ==> Tenanted(Shown(log), t)
  }

  function Longest(entries: seq<Entry>): nat {
    if entries == [] then 0
    else
      var rest := Longest(entries[1..]);
      if |entries[0].tenant| > rest then |entries[0].tenant| else rest
  }

  lemma {:induction false} LongestBounds(entries: seq<Entry>, e: Entry)
    requires e in entries
    ensures |e.tenant| <= Longest(entries)
  {
    if e != entries[0] {
      assert entries == [entries[0]] + entries[1..];
      LongestBounds(entries[1..], e);
    }
  }

  /** The declaration covers every held tenant, for all logs that look alike, exactly when the log is not denied: behind
      the damage there may be one more tenant. */
  lemma DeclarationCompleteExactly(log: Log)
    ensures (forall other | SameView(other, log) && WellFormed(other) :: Declares(other)) <==> !log.Denied?
  {
    if log.Denied? {
      var tenant: string := seq(Longest(log.shown) + 1, _ => 'x');
      var hidden := Entry("hidden", tenant, "", [], 0);
      var other := Denied(log.shown, log.shown + [hidden]);
      assert SameView(other, log) && WellFormed(other);
      assert hidden in Held(other) && Tenanted(Held(other), tenant);
      forall e | e in log.shown
        ensures e.tenant != tenant
      {
        LongestBounds(log.shown, e);
      }
      assert !Declares(other);
    }
  }

  /** A server is paired and admits a command. */
  function PairedRun(e: Entry): seq<Step> {
    READ + [Accept(0)] + [Clear(0)] + [Admit(e)]
  }

  ghost predicate Holds(s: State, e: Entry) {
    s.log == Readable([e]) && s.receipts == [] && s.archives == map[] && s.pairings == map[]
  }

  lemma FirstPairing()
    ensures Cleared(Accepted(FRESH, 0), 0) == INITIAL.(bound := true, key := true)
  {
  }

  lemma FirstAdmission(d: Digests, e: Entry)
    ensures var t := Apply(d, INITIAL.(bound := true, key := true), Admit(e)); Holds(t, e) && t.bound
  {
    assert [] + [e] == [e];
  }

  lemma PairedRunEnds(d: Digests, e: Entry)
    ensures Exec(d, READ + [Accept(0)] + [Clear(0)]) == INITIAL.(bound := true, key := true)
    ensures var s := Exec(d, PairedRun(e)); Holds(s, e) && s.bound
  {
    DeclaresNothing(d);
    ExecSnoc(d, READ, Accept(0));
    ExecSnoc(d, READ + [Accept(0)], Clear(0));
    FirstPairing();
    ExecSnoc(d, READ + [Accept(0)] + [Clear(0)], Admit(e));
    FirstAdmission(d, e);
  }

  /** The log of that server is damaged, and it is revoked. */
  function DamagedRun(e: Entry): seq<Step> {
    PairedRun(e) + [Damage(0)] + [Revoke] + [Look(1)]
  }

  lemma DamagedRunEnds(d: Digests, e: Entry)
    ensures var s := Exec(d, DamagedRun(e)); s.log == Denied([], [e]) && 1 in s.pairings && s.pairings[1] == Looked([])
  {
    PairedRunEnds(d, e);
    ExecSnoc(d, PairedRun(e), Damage(0));
    ExecSnoc(d, PairedRun(e) + [Damage(0)], Revoke);
    ExecSnoc(d, PairedRun(e) + [Damage(0)] + [Revoke], Look(1));
  }

  /** In such a run the next pairing goes ahead and its declaration hides the held tenant. */
  lemma HeldTenantIsHidden(d: Digests, e: Entry)
    ensures var s := Exec(d, DamagedRun(e)); var t := Declaring(s, 1, true);
      e in Held(s.log) && !Declares(s.log) && 1 in t.pairings && t.pairings[1] == Presented([], {}, false)
  {
    DamagedRunEnds(d, e);
    var s := Exec(d, DamagedRun(e));
    assert Tenanted(Held(s.log), e.tenant) && !Tenanted(Shown(s.log), e.tenant);
    assert Tenants([]) == {};
  }

  // ---------------------------------------------------------------- which tenants are accounted for

  ghost predicate Receipted(receipts: seq<Receipt>, tenant: string) {
    exists r :: r in receipts && r.tenant == tenant
  }

  /** Every tenant with an entry or a receipt on the server is in the declaration of pairing `p`. */
  ghost predicate Accounts(s: State, p: nat)
    requires p in s.pairings && s.pairings[p].Presented?
  {
    forall t | Tenanted(Held(s.log), t) || Receipted(s.receipts, t) ::
      t in s.pairings[p].tenants || Receipted(s.pairings[p].declared, t)
  }

  ghost predicate IsReading(s: State, p: nat) {
    p in s.pairings && s.pairings[p].Looked?
  }

  /** The first read showed a receipt of the tenant, or the second shows an entry. */
  ghost predicate SeenBy(s: State, p: nat, tenant: string)
    requires IsReading(s, p)
  {
    Tenanted(Shown(s.log), tenant) || Receipted(s.pairings[p].declared, tenant)
  }

  /** In every run, a pairing that read the receipts at step `i` and reads the journal now accounts for every tenant
      exactly when it sees those hidden by damage by a receipt, and those whose receipt was stored in between and is
      there by either read. */
  lemma DeclarationAccountsExactly(d: Digests, steps: seq<Step>, i: nat, p: nat)
    requires IsReading(Exec(d, steps), p) && LastLook(d, steps, i, p)
    ensures var s := Exec(d, steps);
      Accounts(Declaring(s, p, true), p) <==>
        && (s.log.Denied? ==> forall e | e in Held(s.log) :: SeenBy(s, p, e.tenant))
        && (forall r | r in StoredSince(d, steps, i) && r in s.receipts :: SeenBy(s, p, r.tenant))
  {
    var s, t := Exec(d, steps), Declaring(Exec(d, steps), p, true);
    var j := PairingLooked(d, steps, p);
    LastLookIsUnique(d, steps, i, j, p);
    StoredSinceAccounts(d, steps, i);
    AccountsIff(s, p, StoredSince(d, steps, i));
  }

  lemma AccountsIff(s: State, p: nat, more: seq<Receipt>)
    requires IsReading(s, p) && Made(s.receipts, s.pairings[p].declared, more)
    ensures Accounts(Declaring(s, p, true), p) <==>
      && (s.log.Denied? ==> forall e | e in Held(s.log) :: SeenBy(s, p, e.tenant))
      && (forall r | r in more && r in s.receipts :: SeenBy(s, p, r.tenant))
  {
    var t, declared := Declaring(s, p, true), s.pairings[p].declared;
    assert forall tenant :: tenant in Tenants(Shown(s.log)) <==> Tenanted(Shown(s.log), tenant);
    if Accounts(t, p) {
      forall e | e in Held(s.log)
        ensures SeenBy(s, p, e.tenant)
      {
        assert Tenanted(Held(t.log), e.tenant);
      }
      forall r | r in more && r in s.receipts
        ensures SeenBy(s, p, r.tenant)
      {
        assert Receipted(t.receipts, r.tenant);
      }
    }
  }

  ghost predicate ReadingStepAt(d: Digests, steps: seq<Step>, kinds: set<Kind>, i: nat, p: nat) {
    i < |steps| && IsReading(Exec(d, steps[..i]), p) ==> KindOf(steps[i]) in kinds + PAIRING
  }

  /** Between the two reads of a pairing only parts of pairings and steps of these kinds come. */
  ghost predicate WhileReading(d: Digests, steps: seq<Step>, kinds: set<Kind>) {
    forall i: nat, p: nat :: ReadingStepAt(d, steps, kinds, i, p)
  }

  lemma ReadingBefore(d: Digests, s: State, step: Step, p: nat)
    requires IsReading(Apply(d, s, step), p) && !(step == Look(p) && !s.bound)
    ensures IsReading(s, p)
  {
    if KindOf(step) !in PAIRING { OthersLeavePairings(d, s, step); }
  }

  lemma {:induction false} ReadingSince(d: Digests, steps: seq<Step>, i: nat, p: nat, j: nat)
    requires LastLook(d, steps, i, p) && IsReading(Exec(d, steps), p) && i < j <= |steps|
    ensures IsReading(Exec(d, steps[..j]), p)
    decreases |steps| - j
  {
    if j == |steps| {
      assert steps[..j] == steps;
    } else {
      ReadingSince(d, steps, i, p, j + 1);
      assert !LooksAt(d, steps, j, p) && steps[..j + 1] == steps[..j] + [steps[j]];
      ExecSnoc(d, steps[..j], steps[j]);
      ReadingBefore(d, Exec(d, steps[..j]), steps[j], p);
    }
  }

  lemma NoneStoredWhileReading(d: Digests, steps: seq<Step>, kinds: set<Kind>, i: nat, p: nat)
    requires WhileReading(d, steps, kinds) && HandingOff !in kinds && LastLook(d, steps, i, p) && IsReading(Exec(d, steps), p)
    ensures StoredSince(d, steps, i) == []
  {
    forall j | i <= j < |steps|
      ensures !steps[j].Handoff?
    {
      if i < j {
        ReadingSince(d, steps, i, p, j);
        assert ReadingStepAt(d, steps, kinds, j, p);
      }
    }
    NoHandoffStoresNone(d, steps, i);
  }

  /** If pairing `p` reads a journal that is not denied now, it accounts for every tenant. */
  ghost predicate AccountsAfter(d: Digests, steps: seq<Step>, p: nat) {
    var s := Exec(d, steps); IsReading(s, p) && !s.log.Denied? ==> Accounts(Declaring(s, p, true), p)
  }

  lemma DeclarationAccounts(d: Digests, steps: seq<Step>, kinds: set<Kind>, p: nat)
    requires WhileReading(d, steps, kinds) && HandingOff !in kinds
    ensures AccountsAfter(d, steps, p)
  {
    if IsReading(Exec(d, steps), p) {
      var i := PairingLooked(d, steps, p);
      NoneStoredWhileReading(d, steps, kinds, i, p);
      DeclarationAccountsExactly(d, steps, i, p);
    }
  }

  /** The paired server is revoked, and the next pairing reads the receipts. */
  function RevokedRun(e: Entry): seq<Step> {
    PairedRun(e) + [Revoke] + [Look(1)]
  }

  lemma RevokedRunEnds(d: Digests, e: Entry)
    ensures var s := Exec(d, RevokedRun(e));
      s.log == Readable([e]) && s.receipts == [] && s.archives == map[] && s.pairings == map[1 := Looked([])]
  {
    PairedRunEnds(d, e);
    ExecSnoc(d, PairedRun(e), Revoke);
    ExecSnoc(d, PairedRun(e) + [Revoke], Look(1));
  }

  /** A handoff between the two reads takes the entries from the second and stores the receipt after the first. */
  lemma NeitherReadShowsIt(d: Digests, e: Entry, h: Step)
    requires Full(h) && h.confirmation.tenant == e.tenant
    ensures Tenanted(Held(Exec(d, RevokedRun(e)).log), e.tenant)
    ensures !AccountsAfter(d, RevokedRun(e) + [h], 1)
  {
    var s := Exec(d, RevokedRun(e));
    RevokedRunEnds(d, e);
    assert e in Held(s.log);
    ExecSnoc(d, RevokedRun(e), h);
    FullHandsOff(d, s, h);
    OnlyOneTenant(e);
    var t := Exec(d, RevokedRun(e) + [h]);
    StoredEnds(s.receipts, NewReceipt(d, s.log, h.confirmation, h.stop.removedAt));
    assert Receipted(t.receipts, e.tenant);
    assert Tenants([]) == {};
  }

  lemma OnlyOneTenant(e: Entry)
    ensures HandedOff([e], e.tenant) == Missing
  {
  }

  lemma ReadingWithHandOff(d: Digests, e: Entry, h: Step, kinds: set<Kind>)
    requires h.Handoff? && HandingOff in kinds
    ensures WhileReading(d, RevokedRun(e) + [h], kinds)
  {
    var steps := RevokedRun(e) + [h];
    PairedRunEnds(d, e);
    assert steps[..4] == READ + [Accept(0)] + [Clear(0)] && steps[..5] == PairedRun(e);
    forall i: nat, p: nat
      ensures ReadingStepAt(d, steps, kinds, i, p)
    {
      assert i < |steps| && i != 4 && i != 5 ==> KindOf(steps[i]) in kinds + PAIRING;
    }
  }

  /** "A declaration made from a journal that is not denied accounts for every tenant" holds for all runs in which,
      between the two reads, only parts of pairings and steps of the given kinds come, exactly when a handoff is not
      among these. */
  lemma DeclarationKindsExactly(d: Digests, e: Entry, h: Step, kinds: set<Kind>)
    requires Full(h) && h.confirmation.tenant == e.tenant
    ensures (forall steps, p | WhileReading(d, steps, kinds) :: AccountsAfter(d, steps, p)) <==> HandingOff !in kinds
  {
    if HandingOff in kinds {
      NeitherReadShowsIt(d, e, h);
      ReadingWithHandOff(d, e, h, kinds);
    } else {
      forall steps, p | WhileReading(d, steps, kinds)
        ensures AccountsAfter(d, steps, p)
      {
        DeclarationAccounts(d, steps, kinds, p);
      }
    }
  }
}
