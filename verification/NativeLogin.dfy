/** Every interleaving of start, handoff and redeem.  `Apply` performs one atomic
    database step of some request; a run is any list of steps.  A statement
    carries the `now()` of its own transaction, which may be older than the
    clock when it takes effect. */
module NativeLogin {
  import opened Common
  import opened NativeLoginTable

  /** SHA-256 (hex) and the base64url decoding of a verifier challenge. */
  datatype Codec = Codec(sha: string -> string, decode: string -> string)

  /** The cryptographic abstraction: distinct inputs have distinct digests. */
  ghost predicate CollisionFree(c: Codec) {
    forall x, y :: c.sha(x) == c.sha(y) ==> x == y
  }

  datatype Phase = Waiting | Locked | UnderGlobalCap | Admitted

  /** A `start` transaction: its own now(), the row it wants to insert, and how far it is. */
  datatype Tx = Tx(now: int, id: string, clientKey: string, challenge: string, port: int, state: string, phase: Phase)

  /** A redemption has the time of its own transaction and the clock at which it took effect. */
  datatype Event =
    | Started(id: string, clientKey: string, challenge: string, port: int, state: string, at: int)
    | HandedOff(id: string, ticket: string, transfer: Transfer, port: int, state: string, at: int)
    | Redeemed(id: string, ticket: string, verifier: string, transfer: Transfer, at: int, landed: int)
    | Issued(redemption: nat, transfer: Transfer)

  datatype State = State(clock: int, rows: Table, txs: map<nat, Tx>, lock: Option<nat>, history: seq<Event>)

  datatype Step =
    | Tick(d: nat)
    | Purge(now: int, ids: set<string>)
    | Begin(tx: nat, id: string, clientKey: string, challenge: string, port: int, state: string)
    | Acquire(tx: nat)
    | CountGlobal(tx: nat)
    | CountClient(tx: nat)
    | Commit(tx: nat)
    | Abort(tx: nat)
    | HandOff(now: int, id: string, ticket: string, transfer: Transfer, member: Option<Membership>)
    | Redeem(now: int, id: string, ticket: string, verifier: string, state: string)
    | Issue(redemption: nat, member: Option<Membership>)

  function Init(clock: int): State {
    State(clock, map[], map[], None, [])
  }

  predicate StartedIn(h: seq<Event>, id: string) {
    exists i | 0 <= i < |h| :: h[i].Started? && h[i].id == id
  }

  predicate TicketIn(h: seq<Event>, ticket: string) {
    exists i | 0 <= i < |h| :: h[i].HandedOff? && h[i].ticket == ticket
  }

  predicate IssuedIn(h: seq<Event>, redemption: nat) {
    exists i | 0 <= i < |h| :: h[i].Issued? && h[i].redemption == redemption
  }

  /** A 256-bit random identifier never repeats one that is in use or was used. */
  predicate FreshId(s: State, id: string) {
    !StartedIn(s.history, id) && forall t | t in s.txs :: s.txs[t].id != id
  }

  /** Rolls a transaction back and releases the advisory lock if it holds it. */
  function Rollback(s: State, t: nat): State {
    s.(txs := s.txs - {t}, lock := if s.lock == Some(t) then None else s.lock)
  }

  predicate InPhase(s: State, t: nat, phase: Phase) {
    t in s.txs && s.txs[t].phase == phase
  }

  function Advance(s: State, t: nat, phase: Phase): State
    requires t in s.txs
  {
    s.(txs := s.txs[t := s.txs[t].(phase := phase)])
  }

  function Apply(c: Codec, s: State, step: Step): State {
    match step
    case Tick(d) => s.(clock := s.clock + d)
    case Purge(now, ids) =>
      if now <= s.clock && |ids| <= PURGE_LIMIT && (forall id | id in ids :: id in s.rows && s.rows[id].expires < now)
      then s.(rows := s.rows - ids) else s
    case Begin(t, id, clientKey, challenge, port, state) =>
      if t !in s.txs && FreshId(s, id) && ValidStart(challenge, port)
      then s.(txs := s.txs[t := Tx(s.clock, id, clientKey, challenge, port, state, Waiting)]) else s
    case Acquire(t) =>
      if InPhase(s, t, Waiting) && s.lock.None? then Advance(s, t, Locked).(lock := Some(t)) else s
    case CountGlobal(t) =>
      if !InPhase(s, t, Locked) then s
      else if |ActiveIds(s.rows, s.txs[t].now)| >= GLOBAL_CAP then Rollback(s, t)
      else Advance(s, t, UnderGlobalCap)
    case CountClient(t) =>
      if !InPhase(s, t, UnderGlobalCap) then s
      else if |ClientIds(s.rows, s.txs[t].clientKey, s.txs[t].now)| >= CLIENT_CAP then Rollback(s, t)
      else Advance(s, t, Admitted)
    case Commit(t) =>
      if !InPhase(s, t, Admitted) then s
      else
        var x := s.txs[t];
        Rollback(s, t).(
          rows := s.rows[x.id := Row(x.clientKey, c.decode(x.challenge), x.port, x.state, None, None, x.now + LIFETIME, None)],
          history := s.history + [Started(x.id, x.clientKey, x.challenge, x.port, x.state, x.now)])
    case Abort(t) => Rollback(s, t)
    case HandOff(now, id, ticket, transfer, member) =>
      if now <= s.clock && Ticketable(s.rows, now, id) && !TicketIn(s.history, ticket) && ActiveMembership(transfer.claims, member)
      then s.(rows := Ticketed(s.rows, now, id, c.sha(ticket), transfer),
              history := s.history + [HandedOff(id, ticket, transfer, s.rows[id].port, s.rows[id].state, now)])
      else s
    case Redeem(now, id, ticket, verifier, state) =>
      if now <= s.clock && ValidExchange(ticket, verifier, state) && id in s.rows
         && Redeemable(s.rows[id], now, c.sha(ticket), c.sha(verifier), state)
      then s.(rows := Consumed(s.rows, now, c.sha(ticket), c.sha(verifier), state),
              history := s.history + [Redeemed(id, ticket, verifier, s.rows[id].transfer.value, now, s.clock)])
      else s
    case Issue(r, member) =>
      if r < |s.history| && s.history[r].Redeemed? && !IssuedIn(s.history, r)
         && ActiveMembership(s.history[r].transfer.claims, member)
      then s.(history := s.history + [Issued(r, s.history[r].transfer)]) else s
  }

  function Exec(c: Codec, clock: int, steps: seq<Step>): State {
    if steps == [] then Init(clock) else Apply(c, Exec(c, clock, steps[..|steps| - 1]), steps[|steps| - 1])
  }

  // ---------------------------------------------------------------- admission caps

  /** Both caps hold now, and the one transaction past a count still has the room it counted. */
  ghost predicate Capped(s: State) {
    && |ActiveIds(s.rows, s.clock)| <= GLOBAL_CAP
    && (forall key :: |ClientIds(s.rows, key, s.clock)| <= CLIENT_CAP)
    && (s.lock.Some? ==> s.lock.value in s.txs)
    && (forall t | t in s.txs ::
          && s.txs[t].now <= s.clock
          && (s.txs[t].phase != Waiting <==> s.lock == Some(t))
          && (s.txs[t].phase in {UnderGlobalCap, Admitted} ==> |ActiveIds(s.rows, s.txs[t].now)| < GLOBAL_CAP)
          && (s.txs[t].phase == Admitted ==> |ClientIds(s.rows, s.txs[t].clientKey, s.txs[t].now)| < CLIENT_CAP))
  }

  /** `small` activates nothing that `big` does not: rows keep their owner and expiry and are only removed or consumed. */
  ghost predicate Shrinks(small: Table, big: Table) {
    forall id | id in small :: id in big && small[id].clientKey == big[id].clientKey && small[id].expires == big[id].expires
      && (small[id].consumed.None? ==> big[id].consumed.None?)
  }

  lemma ShrinkCounts(small: Table, big: Table, late: int, early: int)
    requires Shrinks(small, big) && early <= late
    ensures |ActiveIds(small, late)| <= |ActiveIds(big, early)|
    ensures forall key :: |ClientIds(small, key, late)| <= |ClientIds(big, key, early)|
  {
    SubsetCard(ActiveIds(small, late), ActiveIds(big, early));
    forall key ensures |ClientIds(small, key, late)| <= |ClientIds(big, key, early)| {
      SubsetCard(ClientIds(small, key, late), ClientIds(big, key, early));
    }
  }

  /** Any step that inserts nothing and moves no transaction keeps the caps. */
  lemma QuietStepKeepsCaps(s: State, s': State)
    requires Capped(s) && Shrinks(s'.rows, s.rows) && s.clock <= s'.clock && s'.txs == s.txs && s'.lock == s.lock
    ensures Capped(s')
  {
    ShrinkCounts(s'.rows, s.rows, s'.clock, s.clock);
    forall t | t in s.txs ensures |ActiveIds(s'.rows, s.txs[t].now)| <= |ActiveIds(s.rows, s.txs[t].now)|
      && |ClientIds(s'.rows, s.txs[t].clientKey, s.txs[t].now)| <= |ClientIds(s.rows, s.txs[t].clientKey, s.txs[t].now)|
    {
      ShrinkCounts(s'.rows, s.rows, s.txs[t].now, s.txs[t].now);
    }
  }

  /** The count a transaction made with its old now() covers every row unexpired at the later clock. */
  lemma CommitKeepsCaps(c: Codec, s: State, t: nat)
    requires Capped(s)
    ensures Capped(Apply(c, s, Commit(t)))
  {
    if InPhase(s, t, Admitted) {
      var s', x := Apply(c, s, Commit(t)), s.txs[t];
      ShrinkCounts(s.rows, s.rows, s.clock, x.now);
      SubsetCard(ActiveIds(s'.rows, s.clock), ActiveIds(s.rows, s.clock) + {x.id});
      forall key ensures |ClientIds(s'.rows, key, s.clock)| <= CLIENT_CAP {
        if key == x.clientKey {
          SubsetCard(ClientIds(s'.rows, key, s.clock), ClientIds(s.rows, key, s.clock) + {x.id});
        } else {
          SubsetCard(ClientIds(s'.rows, key, s.clock), ClientIds(s.rows, key, s.clock));
        }
      }
    }
  }

  lemma RollbackKeepsCaps(s: State, t: nat)
    requires Capped(s)
    ensures Capped(Rollback(s, t))
  {
  }

  /** Moving the lock holder on, once the count it just made allows it. */
  lemma AdvanceKeepsCaps(s: State, t: nat, phase: Phase)
    requires Capped(s) && t in s.txs && s.lock == Some(t) && phase != Waiting
    requires phase != Locked ==> |ActiveIds(s.rows, s.txs[t].now)| < GLOBAL_CAP
    requires phase == Admitted ==> |ClientIds(s.rows, s.txs[t].clientKey, s.txs[t].now)| < CLIENT_CAP
    ensures Capped(Advance(s, t, phase))
  {
  }

  lemma AdmissionKeepsCaps(c: Codec, s: State, step: Step)
    requires Capped(s) && (step.Begin? || step.Acquire? || step.CountGlobal? || step.CountClient? || step.Abort?)
    ensures Capped(Apply(c, s, step))
  {
    match step
    case Begin(_, _, _, _, _, _) =>
    case Acquire(t) =>
    case CountGlobal(t) =>
      if InPhase(s, t, Locked) {
        if |ActiveIds(s.rows, s.txs[t].now)| >= GLOBAL_CAP { RollbackKeepsCaps(s, t); }
        else { AdvanceKeepsCaps(s, t, UnderGlobalCap); }
      }
    case CountClient(t) =>
      if InPhase(s, t, UnderGlobalCap) {
        if |ClientIds(s.rows, s.txs[t].clientKey, s.txs[t].now)| >= CLIENT_CAP { RollbackKeepsCaps(s, t); }
        else { AdvanceKeepsCaps(s, t, Admitted); }
      }
    case Abort(t) => RollbackKeepsCaps(s, t);
  }

  /** The clock, the purge, handoffs, redemptions and issuances insert nothing. */
  lemma QuietSteps(c: Codec, s: State, step: Step)
    requires step.Tick? || step.Purge? || step.HandOff? || step.Redeem? || step.Issue?
    ensures var s' := Apply(c, s, step); Shrinks(s'.rows, s.rows) && s.clock <= s'.clock && s'.txs == s.txs && s'.lock == s.lock
  {
  }

  lemma StepKeepsCaps(c: Codec, s: State, step: Step)
    requires Capped(s)
    ensures Capped(Apply(c, s, step))
  {
    if step.Commit? {
      CommitKeepsCaps(c, s, step.tx);
    } else if step.Begin? || step.Acquire? || step.CountGlobal? || step.CountClient? || step.Abort? {
      AdmissionKeepsCaps(c, s, step);
    } else {
      QuietSteps(c, s, step);
      QuietStepKeepsCaps(s, Apply(c, s, step));
    }
  }

  /** In every reachable table at most 10000 rows are unexpired, and at most 8 unexpired
      unconsumed rows belong to one client. */
  lemma {:induction false} CapsHold(c: Codec, clock: int, steps: seq<Step>)
    ensures Capped(Exec(c, clock, steps))
  {
    if steps != [] {
      CapsHold(c, clock, steps[..|steps| - 1]);
      StepKeepsCaps(c, Exec(c, clock, steps[..|steps| - 1]), steps[|steps| - 1]);
    }
  }

  // ---------------------------------------------------------------- provenance of sessions

  ghost predicate StartAt(h: seq<Event>, i: nat, id: string) {
    i < |h| && h[i].Started? && h[i].id == id
  }

  ghost predicate HandoffAt(h: seq<Event>, j: nat, id: string) {
    j < |h| && h[j].HandedOff? && h[j].id == id
  }

  ghost predicate RedeemAt(h: seq<Event>, k: nat, id: string) {
    k < |h| && h[k].Redeemed? && h[k].id == id
  }

  /** Identifiers, tickets, redemptions and issuances are never repeated. */
  ghost predicate Unique(h: seq<Event>) {
    && (forall i: nat, j: nat, id | StartAt(h, i, id) && StartAt(h, j, id) :: i == j)
    && (forall i: nat, j: nat, id | HandoffAt(h, i, id) && HandoffAt(h, j, id) :: i == j)
    && (forall i: nat, j: nat, id | RedeemAt(h, i, id) && RedeemAt(h, j, id) :: i == j)
    && (forall i: nat, j: nat | i < |h| && j < |h| && h[i].HandedOff? && h[j].HandedOff? && h[i].ticket == h[j].ticket :: i == j)
    && (forall i: nat, j: nat | i < |h| && j < |h| && h[i].Issued? && h[j].Issued? && h[i].redemption == h[j].redemption :: i == j)
  }

  /** Handoff `j` belongs to start `i` of the same row: it came later and before that row expired, and it
      redirected to the loopback port and state of that start. */
  ghost predicate Follows(h: seq<Event>, i: nat, j: nat) {
    && i < j < |h| && h[i].Started? && HandoffAt(h, j, h[i].id)
    && h[j].port == h[i].port && 63690 <= h[j].port <= 63694 && h[j].state == h[i].state
    && h[j].at < h[i].at + LIFETIME
  }

  /** Redemption `k` spends handoff `j` of start `i`: same ticket and claims, before expiry, and the verifier's
      hash is the challenge of that start. */
  ghost predicate Spends(c: Codec, h: seq<Event>, i: nat, j: nat, k: nat) {
    && Follows(h, i, j) && j < k && RedeemAt(h, k, h[i].id)
    && h[k].ticket == h[j].ticket && h[k].transfer == h[j].transfer
    && c.sha(h[k].verifier) == c.decode(h[i].challenge)
    && h[k].at < h[i].at + LIFETIME
  }

  ghost predicate Linked(c: Codec, h: seq<Event>) {
    && (forall j: nat | j < |h| && h[j].HandedOff? :: exists i: nat :: Follows(h, i, j))
    && (forall k: nat | k < |h| && h[k].Redeemed? :: exists i: nat, j: nat :: Spends(c, h, i, j, k))
    && (forall l: nat | l < |h| && h[l].Issued? ::
          h[l].redemption < l && h[h[l].redemption].Redeemed? && h[l].transfer == h[h[l].redemption].transfer)
  }

  ghost predicate Wrote(c: Codec, start: Event, row: Row)
    requires start.Started?
  {
    && row.port == start.port && row.state == start.state && row.verifierHash == c.decode(start.challenge)
    && row.expires == start.at + LIFETIME
  }

  /** A stored row is what its one start and its one handoff, if any, wrote. */
  ghost predicate Backed(c: Codec, h: seq<Event>, id: string, row: Row) {
    && 63690 <= row.port <= 63694
    && (exists i: nat :: StartAt(h, i, id) && Wrote(c, h[i], row))
    && (row.ticketHash.None? <==> row.transfer.None?)
    && (row.ticketHash.None? ==> forall j: nat :: !HandoffAt(h, j, id))
    && (row.ticketHash.Some? ==>
          exists j: nat :: HandoffAt(h, j, id) && c.sha(h[j].ticket) == row.ticketHash.value && h[j].transfer == row.transfer.value)
    && (row.consumed.None? ==> forall k: nat :: !RedeemAt(h, k, id))
  }

  ghost predicate RowsBacked(c: Codec, h: seq<Event>, rows: Table) {
    forall id | id in rows :: Backed(c, h, id, rows[id])
  }

  /** Open transactions hold ids that nothing started yet, one each. */
  ghost predicate TxsUnstarted(h: seq<Event>, txs: map<nat, Tx>) {
    && (forall t | t in txs :: !StartedIn(h, txs[t].id) && 63690 <= txs[t].port <= 63694)
    && (forall t, u | t in txs && u in txs && txs[t].id == txs[u].id :: t == u)
  }

  ghost predicate Traced(c: Codec, s: State) {
    Unique(s.history) && Linked(c, s.history) && RowsBacked(c, s.history, s.rows) && TxsUnstarted(s.history, s.txs)
  }

  lemma EventsAfter(h: seq<Event>, e: Event)
    ensures forall i: nat, id {:trigger StartAt(h + [e], i, id)} ::
              StartAt(h + [e], i, id) <==> StartAt(h, i, id) || (i == |h| && e.Started? && e.id == id)
    ensures forall i: nat, id {:trigger HandoffAt(h + [e], i, id)} ::
              HandoffAt(h + [e], i, id) <==> HandoffAt(h, i, id) || (i == |h| && e.HandedOff? && e.id == id)
    ensures forall i: nat, id {:trigger RedeemAt(h + [e], i, id)} ::
              RedeemAt(h + [e], i, id) <==> RedeemAt(h, i, id) || (i == |h| && e.Redeemed? && e.id == id)
  {
  }

  /** The event repeats nothing that must not repeat. */
  ghost predicate Novel(h: seq<Event>, e: Event) {
    match e
    case Started(id, _, _, _, _, _) => !StartedIn(h, id)
    case HandedOff(id, ticket, _, _, _, _) => !TicketIn(h, ticket) && forall j: nat :: !HandoffAt(h, j, id)
    case Redeemed(id, _, _, _, _, _) => forall k: nat :: !RedeemAt(h, k, id)
    case Issued(r, _) => !IssuedIn(h, r)
  }

  lemma UniqueAfter(h: seq<Event>, e: Event)
    requires Unique(h) && Novel(h, e)
    ensures Unique(h + [e])
  {
    EventsAfter(h, e);
    forall i: nat | i < |h| ensures e.Started? ==> !StartAt(h, i, e.id) {}
  }

  /** The newest event is linked to the events it builds on. */
  ghost predicate LinkedLast(c: Codec, h: seq<Event>)
    requires h != []
  {
    var l := |h| - 1;
    match h[l]
    case Started(_, _, _, _, _, _) => true
    case HandedOff(_, _, _, _, _, _) => exists i: nat :: Follows(h, i, l)
    case Redeemed(_, _, _, _, _, _) => exists i: nat, j: nat :: Spends(c, h, i, j, l)
    case Issued(r, transfer) => r < l && h[r].Redeemed? && transfer == h[r].transfer
  }

  /** Appending a linked event leaves every earlier link in place. */
  lemma LinkedAfter(c: Codec, h: seq<Event>, e: Event)
    requires Linked(c, h) && LinkedLast(c, h + [e])
    ensures Linked(c, h + [e])
  {
    var h' := h + [e];
    forall j: nat | j < |h'| && h'[j].HandedOff? ensures exists i: nat :: Follows(h', i, j) {
      if j < |h| {
        var i: nat :| Follows(h, i, j);
        assert Follows(h', i, j);
      }
    }
    forall k: nat | k < |h'| && h'[k].Redeemed? ensures exists i: nat, j: nat :: Spends(c, h', i, j, k) {
      if k < |h| {
        var i: nat, j: nat :| Spends(c, h, i, j, k);
        assert Follows(h', i, j) && Spends(c, h', i, j, k);
      }
    }
  }

  /** A row stays backed while nobody hands it off or redeems it. */
  lemma RowSurvives(c: Codec, h: seq<Event>, e: Event, id: string, row: Row)
    requires Backed(c, h, id, row)
    requires !(e.HandedOff? && e.id == id) && !(e.Redeemed? && e.id == id)
    ensures Backed(c, h + [e], id, row)
  {
    var h' := h + [e];
    EventsAfter(h, e);
    var i: nat :| StartAt(h, i, id) && Wrote(c, h[i], row);
    assert StartAt(h', i, id);
    if row.ticketHash.Some? {
      var j: nat :| HandoffAt(h, j, id) && c.sha(h[j].ticket) == row.ticketHash.value && h[j].transfer == row.transfer.value;
      assert HandoffAt(h', j, id);
    }
  }

  /** Only a started row is ever handed off or redeemed. */
  lemma TouchedIsStarted(c: Codec, h: seq<Event>)
    requires Linked(c, h)
    ensures forall j: nat, id | HandoffAt(h, j, id) || RedeemAt(h, j, id) :: StartedIn(h, id)
  {
  }

  /** Rows that the step leaves alone stay backed, and open transactions stay unstarted. */
  lemma BystandersSurvive(c: Codec, s: State, s': State, e: Event)
    requires Traced(c, s) && s'.history == s.history + [e] && s'.txs.Keys <= s.txs.Keys
    requires forall t | t in s'.txs :: s'.txs[t] == s.txs[t] && (e.Started? ==> e.id != s.txs[t].id)
    ensures forall id | id in s.rows && !(e.HandedOff? && e.id == id) && !(e.Redeemed? && e.id == id) ::
              Backed(c, s'.history, id, s.rows[id])
    ensures forall t | t in s'.txs :: !StartedIn(s'.history, s'.txs[t].id)
  {
    forall id | id in s.rows && !(e.HandedOff? && e.id == id) && !(e.Redeemed? && e.id == id)
      ensures Backed(c, s'.history, id, s.rows[id])
    {
      RowSurvives(c, s.history, e, id, s.rows[id]);
    }
    forall t | t in s'.txs ensures !StartedIn(s'.history, s'.txs[t].id) {
      assert !StartedIn(s.history, s.txs[t].id);
    }
  }

  lemma CommitKeepsTrace(c: Codec, s: State, t: nat)
    requires Traced(c, s)
    ensures Traced(c, Apply(c, s, Commit(t)))
  {
    if InPhase(s, t, Admitted) {
      var s', x, h := Apply(c, s, Commit(t)), s.txs[t], s.history;
      var e := Started(x.id, x.clientKey, x.challenge, x.port, x.state, x.now);
      LinkedAfter(c, h, e);
      UniqueAfter(h, e);
      TouchedIsStarted(c, h);
      EventsAfter(h, e);
      BystandersSurvive(c, s, s', e);
      assert StartAt(s'.history, |h|, x.id) && Wrote(c, s'.history[|h|], s'.rows[x.id]);
      assert Backed(c, s'.history, x.id, s'.rows[x.id]);
    }
  }

  lemma OneRowKeepsRows(c: Codec, h: seq<Event>, rows: Table, e: Event, id: string, row: Row)
    requires RowsBacked(c, h, rows) && (e.HandedOff? || e.Redeemed?) && e.id == id && Backed(c, h + [e], id, row)
    ensures RowsBacked(c, h + [e], rows[id := row])
  {
    forall other | other in rows && other != id
      ensures Backed(c, h + [e], other, rows[other])
    {
      RowSurvives(c, h, e, other, rows[other]);
    }
  }

  lemma TxsStayUnstarted(h: seq<Event>, txs: map<nat, Tx>, e: Event)
    requires TxsUnstarted(h, txs) && !e.Started?
    ensures TxsUnstarted(h + [e], txs)
  {
  }

  /** An event on one row that leaves it backed, and itself linked and novel, keeps the whole trace. */
  lemma OneRowKeepsTrace(c: Codec, s: State, e: Event, id: string, row: Row)
    requires Traced(c, s) && (e.HandedOff? || e.Redeemed?) && e.id == id
    requires Unique(s.history + [e]) && Linked(c, s.history + [e]) && Backed(c, s.history + [e], id, row)
    ensures Traced(c, s.(rows := s.rows[id := row], history := s.history + [e]))
  {
    OneRowKeepsRows(c, s.history, s.rows, e, id, row);
    TxsStayUnstarted(s.history, s.txs, e);
  }

  lemma HandOffLinks(c: Codec, h: seq<Event>, e: Event, id: string, row: Row)
    requires Linked(c, h) && Backed(c, h, id, row)
    requires e.HandedOff? && e.id == id && e.port == row.port && e.state == row.state && e.at < row.expires
    ensures Linked(c, h + [e])
  {
    EventsAfter(h, e);
    var i: nat :| StartAt(h, i, id) && Wrote(c, h[i], row);
    assert HandoffAt(h + [e], |h|, id) && Follows(h + [e], i, |h|);
    LinkedAfter(c, h, e);
  }

  lemma HandedRowBacked(c: Codec, h: seq<Event>, e: Event, id: string, row: Row)
    requires Backed(c, h, id, row) && e.HandedOff? && e.id == id
    ensures Backed(c, h + [e], id, row.(ticketHash := Some(c.sha(e.ticket)), transfer := Some(e.transfer)))
  {
    EventsAfter(h, e);
    var i: nat :| StartAt(h, i, id) && Wrote(c, h[i], row);
    assert StartAt(h + [e], i, id) && HandoffAt(h + [e], |h|, id);
  }

  lemma HandOffKeepsTrace(c: Codec, s: State, step: Step)
    requires Traced(c, s) && step.HandOff?
    ensures Traced(c, Apply(c, s, step))
  {
    var s', h, id := Apply(c, s, step), s.history, step.id;
    if s' != s {
      var row := s.rows[id];
      var e := HandedOff(id, step.ticket, step.transfer, row.port, row.state, step.now);
      UniqueAfter(h, e);
      HandOffLinks(c, h, e, id, row);
      HandedRowBacked(c, h, e, id, row);
      OneRowKeepsTrace(c, s, e, id, row.(ticketHash := Some(c.sha(e.ticket)), transfer := Some(e.transfer)));
    }
  }

  /** A ticket hash names one row: the conditional UPDATE of a redemption consumes that row and no other. */
  lemma OneRowPerTicket(c: Codec, s: State, id1: string, id2: string)
    requires CollisionFree(c) && Traced(c, s) && id1 in s.rows && id2 in s.rows
    requires s.rows[id1].ticketHash.Some? && s.rows[id1].ticketHash == s.rows[id2].ticketHash
    ensures id1 == id2
  {
  }

  /** What a redeemable row proves about the history: the start and the handoff it spends. */
  lemma RedemptionSpends(c: Codec, s: State, step: Step) returns (i: nat, j: nat)
    requires CollisionFree(c) && Traced(c, s) && step.Redeem? && step.id in s.rows
    requires Redeemable(s.rows[step.id], step.now, c.sha(step.ticket), c.sha(step.verifier), step.state)
    ensures var row := s.rows[step.id];
      Spends(c, s.history + [Redeemed(step.id, step.ticket, step.verifier, row.transfer.value, step.now, s.clock)], i, j, |s.history|)
  {
    var id, row, h := step.id, s.rows[step.id], s.history;
    i :| StartAt(h, i, id) && Wrote(c, h[i], row);
    j :| HandoffAt(h, j, id) && c.sha(h[j].ticket) == row.ticketHash.value && h[j].transfer == row.transfer.value;
    var i': nat :| Follows(h, i', j);
    assert StartAt(h, i', id) && h[j].ticket == step.ticket;
    var h' := h + [Redeemed(id, step.ticket, step.verifier, row.transfer.value, step.now, s.clock)];
    assert Follows(h', i, j) && RedeemAt(h', |h|, id);
  }

  lemma ConsumesOneRow(c: Codec, s: State, step: Step)
    requires CollisionFree(c) && Traced(c, s) && step.Redeem? && step.id in s.rows
    requires Redeemable(s.rows[step.id], step.now, c.sha(step.ticket), c.sha(step.verifier), step.state)
    ensures Consumed(s.rows, step.now, c.sha(step.ticket), c.sha(step.verifier), step.state)
         == s.rows[step.id := s.rows[step.id].(consumed := Some(step.now))]
  {
    forall id | id in s.rows && s.rows[id].ticketHash == s.rows[step.id].ticketHash ensures id == step.id {
      OneRowPerTicket(c, s, id, step.id);
    }
  }

  lemma RedeemKeepsHistory(c: Codec, s: State, step: Step)
    requires CollisionFree(c) && Traced(c, s) && step.Redeem? && step.id in s.rows
    requires Redeemable(s.rows[step.id], step.now, c.sha(step.ticket), c.sha(step.verifier), step.state)
    ensures var h' := s.history + [Redeemed(step.id, step.ticket, step.verifier, s.rows[step.id].transfer.value, step.now, s.clock)];
      Unique(h') && Linked(c, h')
  {
    var e := Redeemed(step.id, step.ticket, step.verifier, s.rows[step.id].transfer.value, step.now, s.clock);
    var i, j := RedemptionSpends(c, s, step);
    LinkedAfter(c, s.history, e);
    UniqueAfter(s.history, e);
  }

  lemma RedeemKeepsTrace(c: Codec, s: State, step: Step)
    requires CollisionFree(c) && Traced(c, s) && step.Redeem?
    ensures Traced(c, Apply(c, s, step))
  {
    var s' := Apply(c, s, step);
    if s' != s {
      var e := Redeemed(step.id, step.ticket, step.verifier, s.rows[step.id].transfer.value, step.now, s.clock);
      RedeemKeepsHistory(c, s, step);
      ConsumesOneRow(c, s, step);
      ConsumedRowBacked(c, s.history, e, step.id, s.rows[step.id]);
      OneRowKeepsTrace(c, s, e, step.id, s.rows[step.id].(consumed := Some(step.now)));
    }
  }

  lemma ConsumedRowBacked(c: Codec, h: seq<Event>, e: Event, id: string, row: Row)
    requires Backed(c, h, id, row) && row.ticketHash.Some? && e.Redeemed? && e.id == id
    ensures Backed(c, h + [e], id, row.(consumed := Some(e.at)))
  {
    EventsAfter(h, e);
    var i: nat :| StartAt(h, i, id) && Wrote(c, h[i], row);
    var j: nat :| HandoffAt(h, j, id) && c.sha(h[j].ticket) == row.ticketHash.value && h[j].transfer == row.transfer.value;
    assert StartAt(h + [e], i, id) && HandoffAt(h + [e], j, id);
  }

  lemma IssueKeepsTrace(c: Codec, s: State, step: Step)
    requires Traced(c, s) && step.Issue?
    ensures Traced(c, Apply(c, s, step))
  {
    var s', h := Apply(c, s, step), s.history;
    if s' != s {
      var e := Issued(step.redemption, h[step.redemption].transfer);
      LinkedAfter(c, h, e);
      UniqueAfter(h, e);
      BystandersSurvive(c, s, s', e);
    }
  }

  /** Steps of open transactions, the clock and the purge write no history. */
  lemma LocalKeepsTrace(c: Codec, s: State, step: Step)
    requires Traced(c, s) && !step.Commit? && !step.HandOff? && !step.Redeem? && !step.Issue? && !step.Begin?
    ensures Traced(c, Apply(c, s, step))
  {
  }

  lemma BeginKeepsTrace(c: Codec, s: State, step: Step)
    requires Traced(c, s) && step.Begin?
    ensures Traced(c, Apply(c, s, step))
  {
  }

  lemma StepKeepsTrace(c: Codec, s: State, step: Step)
    requires CollisionFree(c) && Traced(c, s)
    ensures Traced(c, Apply(c, s, step))
  {
    match step
    case Commit(t) => CommitKeepsTrace(c, s, t);
    case HandOff(_, _, _, _, _) => HandOffKeepsTrace(c, s, step);
    case Redeem(_, _, _, _, _) => RedeemKeepsTrace(c, s, step);
    case Issue(_, _) => IssueKeepsTrace(c, s, step);
    case Begin(_, _, _, _, _, _) => BeginKeepsTrace(c, s, step);
    case _ => LocalKeepsTrace(c, s, step);
  }

  lemma {:induction false} TraceHolds(c: Codec, clock: int, steps: seq<Step>)
    requires CollisionFree(c)
    ensures Traced(c, Exec(c, clock, steps))
  {
    if steps != [] {
      TraceHolds(c, clock, steps[..|steps| - 1]);
      StepKeepsTrace(c, Exec(c, clock, steps[..|steps| - 1]), steps[|steps| - 1]);
    }
  }

  /** Every issued session spends exactly one handoff of exactly one start: the verifier's hash is that start's
      challenge, the claims are that handoff's, and the redemption's own time is before that row expired. */
  lemma {:induction false} SessionsAreTraced(c: Codec, clock: int, steps: seq<Step>, l: nat)
    requires CollisionFree(c)
    requires var h := Exec(c, clock, steps).history; l < |h| && h[l].Issued?
    ensures var h := Exec(c, clock, steps).history; var k := h[l].redemption;
      exists i: nat, j: nat ::
        && Spends(c, h, i, j, k) && k < l && h[l].transfer == h[j].transfer
        && (forall i': nat, j': nat | Spends(c, h, i', j', k) :: i' == i && j' == j)
  {
    TraceHolds(c, clock, steps);
    var h := Exec(c, clock, steps).history;
    var k := h[l].redemption;
    var i: nat, j: nat :| Spends(c, h, i, j, k);
    forall i': nat, j': nat | Spends(c, h, i', j', k) ensures i' == i && j' == j {
      assert StartAt(h, i, h[k].id) && StartAt(h, i', h[k].id);
      assert HandoffAt(h, j, h[k].id) && HandoffAt(h, j', h[k].id);
    }
  }

  /** No row, and so no start, yields two sessions. */
  lemma {:induction false} OneSessionPerStart(c: Codec, clock: int, steps: seq<Step>, l1: nat, l2: nat)
    requires CollisionFree(c)
    requires var h := Exec(c, clock, steps).history;
      l1 < |h| && l2 < |h| && h[l1].Issued? && h[l2].Issued? && h[l1].redemption < |h| && h[l2].redemption < |h|
      && h[h[l1].redemption].Redeemed? && h[h[l2].redemption].Redeemed?
      && h[h[l1].redemption].id == h[h[l2].redemption].id
    ensures l1 == l2
  {
    TraceHolds(c, clock, steps);
    var h := Exec(c, clock, steps).history;
    assert RedeemAt(h, h[l1].redemption, h[h[l1].redemption].id) && RedeemAt(h, h[l2].redemption, h[h[l1].redemption].id);
  }
}
