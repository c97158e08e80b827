/** The one-time challenges of the wallet device confirmation and of the local
    device proof: a capped table of nonces, purged of expired entries on issue
    and consumed on first use, right or wrong. */
module DeviceChallenges {
  import opened Common
  import opened DeviceMessage

  /** The wallet keeps a challenge strictly before its deadline, the device proof up to and including it. */
  datatype Policy = Policy(capacity: nat, atDeadline: bool)

  const WALLET := Policy(128, false)
  const DEVICE_PROOF := Policy(64, true)

  datatype Entry<C> = Entry(challenge: C, deadline: int)

  predicate Live<C>(p: Policy, e: Entry<C>, now: int) {
    now < e.deadline || (p.atDeadline && now == e.deadline)
  }

  function Purged<C>(p: Policy, pending: map<string, Entry<C>>, now: int): map<string, Entry<C>> {
    map nonce | nonce in pending && Live(p, pending[nonce], now) :: pending[nonce]
  }

  function Issued<C>(p: Policy, pending: map<string, Entry<C>>, nonce: string, e: Entry<C>, now: int): map<string, Entry<C>> {
    var kept := Purged(p, pending, now);
    if |kept| >= p.capacity then kept else kept[nonce := e]
  }

  /** The table under its mutex. */
  class ChallengeTable<C(==)> {
    const policy: Policy
    var pending: map<string, Entry<C>>

    constructor (policy: Policy)
      ensures this.policy == policy && pending == map[]
    {
      this.policy := policy;
      pending := map[];
    }

    /** The purge loop, the cap and the insertion of challenge(). */
    method Issue(nonce: string, e: Entry<C>, now: int) returns (ok: bool)
      modifies this
      ensures pending == Issued(policy, old(pending), nonce, e, now)
      ensures ok <==> |Purged(policy, old(pending), now)| < policy.capacity
    {
      var kept := pending;
      var rest := pending.Keys;
      while rest != {}
        invariant rest <= pending.Keys && rest <= kept.Keys <= pending.Keys && pending == old(pending)
        invariant forall n | n in kept :: kept[n] == pending[n]
        invariant forall n | n in pending && n !in rest :: n in kept <==> Live(policy, pending[n], now)
        decreases rest
      {
        var n :| n in rest;
        if !Live(policy, pending[n], now) { kept := kept - {n}; }
        rest := rest - {n};
      }
      assert kept == Purged(policy, old(pending), now);
      ok := |kept| < policy.capacity;
      pending := if ok then kept[nonce := e] else kept;
    }

    /** The lookup and delete at the head of verify(): whatever comes next, the nonce is spent. */
    method Take(nonce: string) returns (found: Option<Entry<C>>)
      modifies this
      ensures found == if nonce in old(pending) then Some(old(pending)[nonce]) else None
      ensures pending == old(pending) - {nonce}
    {
      found := if nonce in pending then Some(pending[nonce]) else None;
      pending := pending - {nonce};
    }
  }

  // ---------------------------------------------------------------- every run of issues and uses

  datatype Event<C> = Gave(nonce: string, entry: Entry<C>, now: int) | Used(nonce: string, accepted: bool, now: int)

  datatype State<C> = State(pending: map<string, Entry<C>>, history: seq<Event<C>>)

  /** A use presents some nonce; `right` says which challenges its proof and binding fit. */
  datatype Step<!C> = Give(nonce: string, entry: Entry<C>, now: int) | Use(nonce: string, right: C -> bool, now: int)

  predicate NonceGiven<C>(h: seq<Event<C>>, nonce: string) {
    exists i | 0 <= i < |h| :: h[i].Gave? && h[i].nonce == nonce
  }

  function Apply<C>(p: Policy, s: State<C>, step: Step<C>): State<C> {
    match step
    case Give(nonce, e, now) =>
      // A 128-bit server nonce is never drawn twice.
      if NonceGiven(s.history, nonce) then s
      else
        var ok := |Purged(p, s.pending, now)| < p.capacity;
        State(Issued(p, s.pending, nonce, e, now), if ok then s.history + [Gave(nonce, e, now)] else s.history)
    case Use(nonce, right, now) =>
      var accepted := nonce in s.pending && Live(p, s.pending[nonce], now) && right(s.pending[nonce].challenge);
      State(s.pending - {nonce}, s.history + [Used(nonce, accepted, now)])
  }

  function Exec<C>(p: Policy, steps: seq<Step<C>>): State<C> {
    if steps == [] then State(map[], []) else Apply(p, Exec(p, steps[..|steps| - 1]), steps[|steps| - 1])
  }

  ghost predicate GaveAt<C>(h: seq<Event<C>>, i: nat, nonce: string) {
    i < |h| && h[i].Gave? && h[i].nonce == nonce
  }

  ghost predicate UsedAt<C>(h: seq<Event<C>>, k: nat, nonce: string) {
    k < |h| && h[k].Used? && h[k].nonce == nonce
  }

  /** The use at `k` spends the challenge given at `i`: nobody used that nonce in between. */
  ghost predicate Spends<C>(p: Policy, h: seq<Event<C>>, i: nat, k: nat) {
    i < k < |h| && h[k].Used? && GaveAt(h, i, h[k].nonce) && Live(p, h[i].entry, h[k].now)
    && forall j: nat | i < j < k :: !UsedAt(h, j, h[k].nonce)
  }

  /** A pending nonce was given once and not used since. */
  ghost predicate Fresh<C>(h: seq<Event<C>>, nonce: string, e: Entry<C>) {
    exists i: nat :: GaveAt(h, i, nonce) && h[i].entry == e && forall j: nat | i < j :: !UsedAt(h, j, nonce)
  }

  ghost predicate PendingFresh<C>(s: State<C>) {
    forall nonce | nonce in s.pending :: Fresh(s.history, nonce, s.pending[nonce])
  }

  ghost predicate GivenOnce<C>(h: seq<Event<C>>) {
    forall i: nat, j: nat, nonce | GaveAt(h, i, nonce) && GaveAt(h, j, nonce) :: i == j
  }

  ghost predicate AcceptedSpend<C>(p: Policy, h: seq<Event<C>>) {
    forall k: nat | k < |h| && h[k].Used? && h[k].accepted :: exists i: nat :: Spends(p, h, i, k)
  }

  ghost predicate Inv<C>(p: Policy, s: State<C>) {
    |s.pending| <= p.capacity && PendingFresh(s) && GivenOnce(s.history) && AcceptedSpend(p, s.history)
  }

  lemma EventsAfter<C>(h: seq<Event<C>>, e: Event<C>)
    ensures forall i: nat, nonce {:trigger GaveAt(h + [e], i, nonce)} ::
              GaveAt(h + [e], i, nonce) <==> GaveAt(h, i, nonce) || (i == |h| && e.Gave? && e.nonce == nonce)
    ensures forall i: nat, nonce {:trigger UsedAt(h + [e], i, nonce)} ::
              UsedAt(h + [e], i, nonce) <==> UsedAt(h, i, nonce) || (i == |h| && e.Used? && e.nonce == nonce)
  {
  }

  lemma FreshSurvives<C>(h: seq<Event<C>>, e: Event<C>, nonce: string, entry: Entry<C>)
    requires Fresh(h, nonce, entry) && !(e.Used? && e.nonce == nonce)
    ensures Fresh(h + [e], nonce, entry)
  {
    EventsAfter(h, e);
    var i: nat :| GaveAt(h, i, nonce) && h[i].entry == entry && forall j: nat | i < j :: !UsedAt(h, j, nonce);
    assert GaveAt(h + [e], i, nonce);
  }

  lemma SpendsSurvives<C>(p: Policy, h: seq<Event<C>>, e: Event<C>, i: nat, k: nat)
    requires Spends(p, h, i, k)
    ensures Spends(p, h + [e], i, k)
  {
    EventsAfter(h, e);
  }

  lemma AcceptedSurvive<C>(p: Policy, h: seq<Event<C>>, e: Event<C>)
    requires AcceptedSpend(p, h)
    requires e.Used? && e.accepted ==> exists i: nat :: Spends(p, h + [e], i, |h|)
    ensures AcceptedSpend(p, h + [e])
  {
    var h' := h + [e];
    forall k: nat | k < |h'| && h'[k].Used? && h'[k].accepted
      ensures exists i: nat :: Spends(p, h', i, k)
    {
      if k < |h| {
        assert h[k] == h'[k];
        var i: nat :| Spends(p, h, i, k);
        SpendsSurvives(p, h, e, i, k);
      }
    }
  }

  lemma GivenOnceSurvives<C>(h: seq<Event<C>>, e: Event<C>)
    requires GivenOnce(h) && (e.Gave? ==> forall i: nat :: !GaveAt(h, i, e.nonce))
    ensures GivenOnce(h + [e])
  {
    EventsAfter(h, e);
  }

  lemma GiveKeepsPending<C>(p: Policy, s: State<C>, step: Step<C>)
    requires PendingFresh(s) && step.Give? && !NonceGiven(s.history, step.nonce) && |Purged(p, s.pending, step.now)| < p.capacity
    ensures PendingFresh(Apply(p, s, step))
  {
    var s', e := Apply(p, s, step), Gave(step.nonce, step.entry, step.now);
    EventsAfter(s.history, e);
    forall nonce | nonce in s'.pending
      ensures Fresh(s'.history, nonce, s'.pending[nonce])
    {
      if nonce == step.nonce {
        assert GaveAt(s'.history, |s.history|, nonce);
      } else {
        FreshSurvives(s.history, e, nonce, s.pending[nonce]);
      }
    }
  }

  lemma GiveKeeps<C>(p: Policy, s: State<C>, step: Step<C>)
    requires Inv(p, s) && step.Give?
    ensures Inv(p, Apply(p, s, step))
  {
    var kept := Purged(p, s.pending, step.now);
    SubsetCard(kept.Keys, s.pending.Keys);
    if !NonceGiven(s.history, step.nonce) && |kept| < p.capacity {
      var e := Gave(step.nonce, step.entry, step.now);
      GiveKeepsPending(p, s, step);
      GivenOnceSurvives(s.history, e);
      AcceptedSurvive(p, s.history, e);
    }
  }

  /** An accepted use spends the challenge its nonce was pending for. */
  lemma UseSpends<C>(p: Policy, s: State<C>, e: Event<C>)
    requires e.Used? && e.nonce in s.pending && Fresh(s.history, e.nonce, s.pending[e.nonce]) && Live(p, s.pending[e.nonce], e.now)
    ensures exists i: nat :: Spends(p, s.history + [e], i, |s.history|)
  {
    EventsAfter(s.history, e);
    var i: nat :| GaveAt(s.history, i, e.nonce) && s.history[i].entry == s.pending[e.nonce]
      && forall j: nat | i < j :: !UsedAt(s.history, j, e.nonce);
    assert Spends(p, s.history + [e], i, |s.history|);
  }

  lemma UseKeepsPending<C>(s: State<C>, e: Event<C>)
    requires PendingFresh(s) && e.Used?
    ensures PendingFresh(State(s.pending - {e.nonce}, s.history + [e]))
  {
    forall nonce | nonce in s.pending && nonce != e.nonce
      ensures Fresh(s.history + [e], nonce, s.pending[nonce])
    {
      FreshSurvives(s.history, e, nonce, s.pending[nonce]);
    }
  }

  lemma UseKeeps<C>(p: Policy, s: State<C>, step: Step<C>)
    requires Inv(p, s) && step.Use?
    ensures Inv(p, Apply(p, s, step))
  {
    var accepted := step.nonce in s.pending && Live(p, s.pending[step.nonce], step.now) && step.right(s.pending[step.nonce].challenge);
    var e := Used(step.nonce, accepted, step.now);
    SubsetCard((s.pending - {step.nonce}).Keys, s.pending.Keys);
    UseKeepsPending(s, e);
    GivenOnceSurvives(s.history, e);
    if accepted { UseSpends(p, s, e); }
    AcceptedSurvive(p, s.history, e);
  }

  /** After every run the table is within its capacity and every pending nonce is unused. */
  lemma {:induction false} InvHolds<C>(p: Policy, steps: seq<Step<C>>)
    ensures Inv(p, Exec(p, steps))
  {
    if steps != [] {
      var last := steps[|steps| - 1];
      InvHolds(p, steps[..|steps| - 1]);
      if last.Give? { GiveKeeps(p, Exec(p, steps[..|steps| - 1]), last); } else { UseKeeps(p, Exec(p, steps[..|steps| - 1]), last); }
    }
  }

  /** The two tables as configured: 128 wallet challenges and 64 device proofs at most. */
  lemma TablesAreSmall<C>(wallet: seq<Step<C>>, proofs: seq<Step<C>>)
    ensures |Exec(WALLET, wallet).pending| <= 128 && |Exec(DEVICE_PROOF, proofs).pending| <= 64
  {
    InvHolds(WALLET, wallet);
    InvHolds(DEVICE_PROOF, proofs);
  }

  /** In every run an accepted use spends a live challenge that was given once and not presented before, and no nonce
      is accepted twice. */
  lemma {:induction false} ChallengesAreSingleUse<C>(p: Policy, steps: seq<Step<C>>, k: nat, k': nat)
    requires var h := Exec(p, steps).history;
      k < |h| && k' < |h| && h[k].Used? && h[k].accepted && h[k'].Used? && h[k'].accepted && h[k].nonce == h[k'].nonce
    ensures k == k' && exists i: nat :: Spends(p, Exec(p, steps).history, i, k)
  {
    InvHolds(p, steps);
    var h := Exec(p, steps).history;
    var i: nat :| Spends(p, h, i, k);
    var i': nat :| Spends(p, h, i', k');
    assert GaveAt(h, i, h[k].nonce) && GaveAt(h, i', h[k].nonce);
    assert UsedAt(h, k, h[k].nonce) && UsedAt(h, k', h[k].nonce);
  }

  /** Once a given nonce was presented, rightly or wrongly, no later use of it is accepted. */
  lemma FirstUseSpends<C>(p: Policy, steps: seq<Step<C>>, i: nat, k: nat, later: nat)
    requires var h := Exec(p, steps).history;
      later < |h| && h[later].Used? && i < k < later && GaveAt(h, i, h[later].nonce) && UsedAt(h, k, h[later].nonce)
    ensures !Exec(p, steps).history[later].accepted
  {
    InvHolds(p, steps);
  }

  // ---------------------------------------------------------------- what a wallet reveal accepts

  /** What the request itself proves at reveal time. */
  datatype Binding = Binding(origin: string, owner: string, tenant: string, provider: string, item: string, snapshot: string,
                             reasonDigest: string, sessionDigest: string, displayName: string, clientNonce: string)

  /** The comparison in verify(); `mac` is the keyed MAC under the device secret. */
  predicate RevealAccepts(mac: string -> string, c: Challenge, b: Binding, proof: string) {
    && c.origin == b.origin && c.owner == b.owner && c.tenant == b.tenant && c.provider == b.provider
    && c.sessionDigest == b.sessionDigest && c.item == b.item && c.snapshot == b.snapshot
    && c.reasonDigest == b.reasonDigest && c.displayName == b.displayName && c.clientNonce == b.clientNonce
    && proof == mac(RevealTranscript(c))
  }

  /** With a collision-free MAC, a proof made for any transcript is accepted only if that was the reveal transcript of
      this very challenge; no challenge or result proof, and no proof for another challenge, passes. */
  lemma AcceptedProofIsThisReveal(mac: string -> string, c: Challenge, b: Binding, made: Challenge, action: string, extra: seq<string>)
    requires forall x, y :: mac(x) == mac(y) ==> x == y
    requires RevealAccepts(mac, c, b, mac(Transcript(made, action, extra)))
    ensures made == c && action == "reveal" && extra == ["POST", "/api/v1/wallet/" + c.item + "/reveal"]
  {
    TranscriptInjective(made, c, action, "reveal", extra, ["POST", "/api/v1/wallet/" + c.item + "/reveal"]);
  }
}
