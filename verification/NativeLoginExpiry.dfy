/** When a redemption takes effect. A statement compares expiry with the now() of
    its own transaction; if it waits for a row lock it lands later. How much later
    than the expiry is exactly how long statements may wait. */
module NativeLoginExpiry {
  import opened Common
  import opened NativeLoginTable
  import opened NativeLogin

  ghost predicate LagsAt(c: Codec, clock: int, steps: seq<Step>, d: nat, i: nat) {
    i < |steps| && steps[i].Redeem? ==> steps[i].now >= Exec(c, clock, steps[..i]).clock - d
  }

  /** Every redeeming statement takes effect at most `d` after its transaction began. */
  ghost predicate LagWithin(c: Codec, clock: int, steps: seq<Step>, d: nat) {
    forall i: nat :: LagsAt(c, clock, steps, d, i)
  }

  /** Every redemption takes effect less than `g` after its row expired. */
  ghost predicate LandsWithin(c: Codec, h: seq<Event>, g: nat) {
    forall i: nat, j: nat, k: nat | Spends(c, h, i, j, k) :: h[k].landed < h[i].at + LIFETIME + g
  }

  ghost predicate LandsSoon(h: seq<Event>, d: nat) {
    forall k: nat | k < |h| && h[k].Redeemed? :: h[k].landed <= h[k].at + d
  }

  lemma LagOfPrefix(c: Codec, clock: int, steps: seq<Step>, d: nat, n: nat)
    requires LagWithin(c, clock, steps, d) && n <= |steps|
    ensures LagWithin(c, clock, steps[..n], d)
  {
    forall i: nat
      ensures LagsAt(c, clock, steps[..n], d, i)
    {
      assert LagsAt(c, clock, steps, d, i);
      if i < n { assert steps[..n][..i] == steps[..i]; }
    }
  }

  lemma StepLandsSoon(c: Codec, s: State, step: Step, d: nat)
    requires LandsSoon(s.history, d) && (step.Redeem? ==> step.now >= s.clock - d)
    ensures LandsSoon(Apply(c, s, step).history, d)
  {
    var h' := Apply(c, s, step).history;
    assert |h'| <= |s.history| + 1 && forall k: nat | k < |s.history| :: h'[k] == s.history[k];
  }

  lemma {:induction false} RedemptionsLandSoon(c: Codec, clock: int, steps: seq<Step>, d: nat)
    requires LagWithin(c, clock, steps, d)
    ensures LandsSoon(Exec(c, clock, steps).history, d)
  {
    if steps != [] {
      var n := |steps| - 1;
      assert LagsAt(c, clock, steps, d, n);
      LagOfPrefix(c, clock, steps, d, n);
      RedemptionsLandSoon(c, clock, steps[..n], d);
      StepLandsSoon(c, Exec(c, clock, steps[..n]), steps[n], d);
    }
  }

  // ---------------------------------------------------------------- a run that lands late

  /** One login attempt of a client and the browser that completes it. */
  datatype Login = Login(id: string, client: string, challenge: string, verifier: string, ticket: string, state: string,
                         transfer: Transfer, member: Option<Membership>)

  predicate Usable(c: Codec, l: Login) {
    && ValidStart(l.challenge, 63690) && ValidExchange(l.ticket, l.verifier, l.state)
    && c.sha(l.verifier) == c.decode(l.challenge) && ActiveMembership(l.transfer.claims, l.member)
  }

  function Opening(l: Login): seq<Step> {
    [Begin(0, l.id, l.client, l.challenge, 63690, l.state), Acquire(0), CountGlobal(0), CountClient(0), Commit(0)]
  }

  /** Start and handoff at time zero, then a redemption that began one tick before the expiry and waited `d`. */
  function LateRun(l: Login, d: nat): seq<Step> {
    Opening(l) + [HandOff(0, l.id, l.ticket, l.transfer, l.member)] + [Tick(LIFETIME - 1 + d)] + [Redeem(LIFETIME - 1, l.id, l.ticket, l.verifier, l.state)]
  }

  function LateRow(c: Codec, l: Login): Row {
    Row(l.client, c.decode(l.challenge), 63690, l.state, None, None, LIFETIME, None)
  }

  lemma ExecSnoc(c: Codec, clock: int, steps: seq<Step>, step: Step)
    ensures Exec(c, clock, steps + [step]) == Apply(c, Exec(c, clock, steps), step)
  {
    assert (steps + [step])[..|steps|] == steps;
  }

  lemma ExecFive(c: Codec, clock: int, e: seq<Step>)
    requires |e| == 5
    ensures Exec(c, clock, e) == Apply(c, Apply(c, Apply(c, Apply(c, Apply(c, Init(clock), e[0]), e[1]), e[2]), e[3]), e[4])
  {
    assert e[..5] == e && e[..0] == [];
    forall i: nat | i < 5
      ensures e[..i + 1] == e[..i] + [e[i]]
    {
    }
    ExecSnoc(c, clock, e[..0], e[0]);
    ExecSnoc(c, clock, e[..1], e[1]);
    ExecSnoc(c, clock, e[..2], e[2]);
    ExecSnoc(c, clock, e[..3], e[3]);
    ExecSnoc(c, clock, e[..4], e[4]);
  }

  /** The opening transaction alone at time zero, in a phase. */
  function Opened(l: Login, phase: Phase): State {
    State(0, map[], map[0 := Tx(0, l.id, l.client, l.challenge, 63690, l.state, phase)], if phase == Waiting then None else Some(0), [])
  }

  lemma OpeningAdmits(c: Codec, l: Login)
    requires Usable(c, l)
    ensures Apply(c, Init(0), Opening(l)[0]) == Opened(l, Waiting)
    ensures Apply(c, Opened(l, Waiting), Acquire(0)) == Opened(l, Locked)
    ensures Apply(c, Opened(l, Locked), CountGlobal(0)) == Opened(l, UnderGlobalCap)
    ensures Apply(c, Opened(l, UnderGlobalCap), CountClient(0)) == Opened(l, Admitted)
  {
    var none: Table := map[];
    assert ActiveIds(none, 0) == {} && ClientIds(none, l.client, 0) == {};
  }

  lemma StartCommits(c: Codec, l: Login)
    requires Usable(c, l)
    ensures var s := Exec(c, 0, Opening(l));
      && s.clock == 0 && s.rows == map[l.id := LateRow(c, l)]
      && s.history == [Started(l.id, l.client, l.challenge, 63690, l.state, 0)]
  {
    ExecFive(c, 0, Opening(l));
    OpeningAdmits(c, l);
    assert Exec(c, 0, Opening(l)) == Apply(c, Opened(l, Admitted), Commit(0));
  }

  lemma HandedOffRow(c: Codec, l: Login)
    requires Usable(c, l)
    ensures var s := Exec(c, 0, Opening(l) + [HandOff(0, l.id, l.ticket, l.transfer, l.member)]);
      && s.clock == 0 && s.rows == map[l.id := LateRow(c, l).(ticketHash := Some(c.sha(l.ticket)), transfer := Some(l.transfer))]
      && s.history == [Started(l.id, l.client, l.challenge, 63690, l.state, 0), HandedOff(l.id, l.ticket, l.transfer, 63690, l.state, 0)]
  {
    StartCommits(c, l);
    ExecSnoc(c, 0, Opening(l), HandOff(0, l.id, l.ticket, l.transfer, l.member));
  }

  lemma ThenWaits(c: Codec, l: Login, d: nat)
    requires Usable(c, l)
    ensures var s, t := Exec(c, 0, Opening(l) + [HandOff(0, l.id, l.ticket, l.transfer, l.member)]),
                        Exec(c, 0, Opening(l) + [HandOff(0, l.id, l.ticket, l.transfer, l.member)] + [Tick(LIFETIME - 1 + d)]);
      t == s.(clock := LIFETIME - 1 + d)
  {
    HandedOffRow(c, l);
    ExecSnoc(c, 0, Opening(l) + [HandOff(0, l.id, l.ticket, l.transfer, l.member)], Tick(LIFETIME - 1 + d));
  }

  lemma LateRunLands(c: Codec, l: Login, d: nat)
    requires Usable(c, l)
    ensures Exec(c, 0, LateRun(l, d)).history ==
      [Started(l.id, l.client, l.challenge, 63690, l.state, 0), HandedOff(l.id, l.ticket, l.transfer, 63690, l.state, 0),
       Redeemed(l.id, l.ticket, l.verifier, l.transfer, LIFETIME - 1, LIFETIME - 1 + d)]
  {
    HandedOffRow(c, l);
    ThenWaits(c, l, d);
    ExecSnoc(c, 0, Opening(l) + [HandOff(0, l.id, l.ticket, l.transfer, l.member)] + [Tick(LIFETIME - 1 + d)], Redeem(LIFETIME - 1, l.id, l.ticket, l.verifier, l.state));
  }

  lemma LateRunLags(c: Codec, l: Login, d: nat)
    requires Usable(c, l)
    ensures LagWithin(c, 0, LateRun(l, d), d)
  {
    var steps := LateRun(l, d);
    var before := steps[..7];
    assert before == Opening(l) + [HandOff(0, l.id, l.ticket, l.transfer, l.member)] + [Tick(LIFETIME - 1 + d)];
    ThenWaits(c, l, d);
    forall i: nat
      ensures LagsAt(c, 0, steps, d, i)
    {
      if i < 7 { assert !steps[i].Redeem?; }
    }
  }

  lemma LateRunSpends(c: Codec, l: Login, d: nat)
    requires Usable(c, l)
    ensures Spends(c, Exec(c, 0, LateRun(l, d)).history, 0, 1, 2)
  {
    LateRunLands(c, l, d);
  }

  /** For all runs whose redeeming statements wait at most `d`, every redemption takes effect less than `g` after its
      row expired exactly when d <= g. In particular it is before the expiry exactly when no statement waits. */
  lemma LandsInTimeExactly(c: Codec, l: Login, d: nat, g: nat)
    requires Usable(c, l)
    ensures (forall clock, steps | LagWithin(c, clock, steps, d) :: LandsWithin(c, Exec(c, clock, steps).history, g)) <==> d <= g
  {
    if d <= g {
      forall clock, steps | LagWithin(c, clock, steps, d)
        ensures LandsWithin(c, Exec(c, clock, steps).history, g)
      {
        RedemptionsLandSoon(c, clock, steps, d);
      }
    } else {
      LateRunLags(c, l, d);
      LateRunLands(c, l, d);
      LateRunSpends(c, l, d);
      assert !LandsWithin(c, Exec(c, 0, LateRun(l, d)).history, g);
    }
  }

  // ---------------------------------------------------------------- such a login exists

  const TEXT: string := seq(43, _ => 'A')
  const PERSON := Claims("person", "tenant")
  const EXAMPLE := Login("id", "client", TEXT, TEXT, TEXT, TEXT, Transfer(PERSON, 0, 0), Some(Membership("tenant", "person", "active", "cloud", "person")))

  /** Texts stand for their own digests. */
  function Transparent(): Codec {
    Codec(x => x, x => x)
  }

  lemma ExampleIsUsable()
    ensures CollisionFree(Transparent()) && Usable(Transparent(), EXAMPLE)
  {
    FilterAll(TEXT, c => c != '\r' && c != '\n');
    assert forall i | 0 <= i < |TEXT| :: IsBase64Url(TEXT[i]);
  }

  /** A concrete run in which a login is redeemed an hour after its row expired. */
  lemma RedeemedAnHourLate()
    ensures var h := Exec(Transparent(), 0, LateRun(EXAMPLE, 3_600_000_000)).history;
      |h| == 3 && h[0].Started? && h[2].Redeemed? && h[2].landed == h[0].at + LIFETIME + 3_600_000_000 - 1
  {
    ExampleIsUsable();
    LateRunLands(Transparent(), EXAMPLE, 3_600_000_000);
  }
}
