/** Custody of a server's command evidence across tenants: handoffs, revoked
    Guards' decommissions, pairings, disk damage and crashes, as steps on what is
    on disk. An operation that stops early (an error or a crash) is a step that
    names how far it came. A handoff holds the journal lock throughout and is one
    step. A pairing reads the receipts before it takes the lock and releases it
    before it is accepted, and a decommission releases it between its parts, so
    those are steps of their own and anything may happen in between. */
module Custody {
  import opened Common
  import opened Journal
  import opened Receipts
  import Lines

  /** An archive file: complete and synced, or anything less. */
  datatype Archive = Incomplete | Complete(tenant: string, handoff: string, entries: seq<Entry>)

  /** The hash of an archive's encoding and of a text. */
  datatype Digests = Digests(archive: Archive -> string, sha: string -> string)

  datatype Confirmation = Confirmation(tenant: string, handoff: string)

  /** What the control plane said about the confirmation. Asking needs a host key, which is made if missing. */
  datatype Verdict = NoKey | Refused | Verified

  /** How far a handoff came. `left` is what an interrupted overwrite of the log did not reach, `removedAt` the time in
      the receipt. */
  datatype HandoffStop = Opened | Created | Archived | Wrecked(left: Entry -> bool) | Removed | Finished(removedAt: int)

  /** How far the journal part of a decommission came. */
  datatype EmptyStop = Unavailable | Torn(left: Entry -> bool) | Ended

  /** A pairing that has read the receipts, and one that has also read the journal and so presents its declaration. */
  datatype Pairing =
    | Looked(declared: seq<Receipt>)
    | Presented(declared: seq<Receipt>, tenants: set<string>, accepted: bool)

  /** A decommission that left no journal, before and after it looked for receipts. */
  datatype Wiping = Emptied | Decided(destroy: bool)

  /** What the journal lost for a tenant in one handoff. */
  datatype Removal = Removal(tenant: string, handoff: string, entries: seq<Entry>)

  /** `truth` holds every entry ever admitted as the Guard recorded it, `dropped` the commands removed as
      acknowledged, `declared` the receipts that accepted pairings presented, `removals` what handoffs removed. */
  datatype State = State(log: Log, archives: map<string, Archive>, receipts: seq<Receipt>, key: bool, bound: bool,
                         pairings: map<nat, Pairing>, wipes: map<nat, Wiping>,
                         truth: map<string, Entry>, dropped: set<string>, declared: set<Receipt>, removals: set<Removal>)

  const INITIAL := State(Missing, map[], [], false, false, map[], map[], map[], {}, {}, {})

  /** `sawBound` is what a handoff's own check of the binding saw, possibly before a pairing succeeded. */
  datatype Step =
    | Admit(entry: Entry)
    | Record(id: string, update: Update)
    | Rewrite
    | Damage(shown: nat)
    | Revoke
    | Handoff(confirmation: Confirmation, sawBound: bool, verdict: Verdict, path: string, stop: HandoffStop)
    | Empty(process: nat, end: EmptyStop)
    | Check(process: nat, readable: bool)
    | Wipe(process: nat, done: bool)
    | Look(process: nat)
    | Declare(process: nat, keyed: bool)
    | Accept(process: nat)
    | Clear(process: nat)
    | Abandon(process: nat)

  function AckedIds(entries: seq<Entry>): set<string> {
    set e | e in entries && Acked(e) :: e.id
  }

  function Ids(entries: seq<Entry>): seq<string> {
    seq(|entries|, i requires 0 <= i < |entries| => entries[i].id)
  }

  function ReceiptFor(d: Digests, a: Archive, removed: nat, removedAt: int): Receipt
    requires a.Complete?
  {
    Receipt(a.tenant, a.handoff, removed, Lines.CommandsDigest(d.sha, Ids(a.entries)), d.archive(a), removedAt)
  }

  /** Opening a missing log creates it. */
  function Open(log: Log): Log {
    if log.Missing? then Readable([]) else log
  }

  // ---------------------------------------------------------------- the handoff

  function ArchiveOf(log: Log, c: Confirmation): Archive {
    Complete(c.tenant, c.handoff, Of(Held(log), c.tenant))
  }

  predicate Survives(id: string, after: seq<Entry>) {
    exists x | x in after :: x.id == id
  }

  /** The tenant's entries that the rewritten log no longer holds. */
  function Vanished(before: seq<Entry>, after: seq<Entry>, tenant: string): seq<Entry> {
    Filter(before, (e: Entry) => e.tenant == tenant && !Survives(e.id, after))
  }

  datatype Reach = Nothing | Keyed | Reached(stop: HandoffStop)

  /** How far the handoff gets: the bound check, the control plane's verdict and the denied journal end it before
      anything is removed, an existing archive file before it is replaced, a blank tenant before the removal. */
  function Reaches(s: State, c: Confirmation, sawBound: bool, verdict: Verdict, path: string, stop: HandoffStop): Reach {
    if sawBound || verdict.NoKey? then Nothing
    else if verdict.Refused? || s.log.Denied? then Keyed
    else if stop.Opened? || path in s.archives then Reached(Opened)
    else if stop.Created? then Reached(Created)
    else if stop.Archived? || TrimSpace(c.tenant) == "" || (stop.Wrecked? && Others(Held(s.log), c.tenant) != []) then Reached(Archived)
    else Reached(stop)
  }

  predicate Removes(reach: Reach) {
    reach.Reached? && (reach.stop.Removed? || reach.stop.Finished?)
  }

  predicate Stores(reach: Reach) {
    reach.Reached? && reach.stop.Finished?
  }

  /** An interrupted overwrite starts with the header, so nothing of the log can be read afterwards. */
  function HandedLog(log: Log, tenant: string, reach: Reach): Log {
    if !reach.Reached? then log
    else if Removes(reach) then HandedOff(Held(log), tenant)
    else if reach.stop.Wrecked? then Denied([], Filter(Held(log), reach.stop.left))
    else Open(log)
  }

  function HandedArchives(archives: map<string, Archive>, path: string, a: Archive, reach: Reach): map<string, Archive> {
    if !reach.Reached? || reach.stop.Opened? then archives
    else archives[path := if reach.stop.Created? then Incomplete else a]
  }

  function HandedReceipts(d: Digests, receipts: seq<Receipt>, a: Archive, removed: nat, reach: Reach): seq<Receipt>
    requires a.Complete?
  {
    if Stores(reach) then Stored(receipts, ReceiptFor(d, a, removed, reach.stop.removedAt)) else receipts
  }

  function RemovalOf(log: Log, c: Confirmation): Removal {
    Removal(c.tenant, c.handoff, Vanished(Held(log), Held(HandedOff(Held(log), c.tenant)), c.tenant))
  }

  /** The effects of runAgentHandoff on disk. It ends a binding that it did not see. */
  function Handed(d: Digests, s: State, c: Confirmation, path: string, reach: Reach): State {
    var removal, archive := RemovalOf(s.log, c), ArchiveOf(s.log, c);
    s.(log := HandedLog(s.log, c.tenant, reach),
       archives := HandedArchives(s.archives, path, archive, reach),
       receipts := HandedReceipts(d, s.receipts, archive, |removal.entries|, reach),
       key := s.key || !reach.Nothing?,
       bound := s.bound && !reach.Reached?,
       dropped := if Removes(reach) then s.dropped + AckedIds(Others(Held(s.log), c.tenant)) else s.dropped,
       removals := if Removes(reach) then s.removals + {removal} else s.removals)
  }

  // ---------------------------------------------------------------- the other operations

  function Emptying(s: State, process: nat, end: EmptyStop): State {
    if s.bound || end.Unavailable? || s.log.Denied? then s
    else match end
      case Torn(left) =>
        if Pending(Held(s.log)) != [] then s
        else s.(log := Denied([], Filter(Held(s.log), left)), dropped := s.dropped + AckedIds(Held(s.log)))
      case Ended =>
        s.(log := Decommissioned(Held(s.log)), dropped := s.dropped + AckedIds(Held(s.log)),
           wipes := if Pending(Held(s.log)) == [] then s.wipes[process := Emptied] else s.wipes)
      case Unavailable => s
  }

  /** The key stays if the receipts cannot be read or one waits. */
  function Checking(s: State, process: nat, readable: bool): State {
    if process in s.wipes && s.wipes[process].Emptied? then s.(wipes := s.wipes[process := Decided(readable && s.receipts == [])]) else s
  }

  function Wiped(s: State, process: nat, done: bool): State {
    if process in s.wipes && s.wipes[process].Decided?
    then s.(key := s.key && !(s.wipes[process].destroy && done), bound := false, wipes := s.wipes - {process})
    else s
  }

  function Looking(s: State, process: nat): State {
    if s.bound then s else s.(pairings := s.pairings[process := Looked(s.receipts)])
  }

  function Tenants(entries: seq<Entry>): set<string> {
    set e | e in entries :: e.tenant
  }

  /** The declaration has the receipts as they were read before and the tenants the journal shows now. */
  function Declaring(s: State, process: nat, keyed: bool): State {
    if process !in s.pairings || !s.pairings[process].Looked? then s
    else if !keyed then s.(pairings := s.pairings - {process})
    else s.(pairings := s.pairings[process := Presented(s.pairings[process].declared, Tenants(Shown(s.log)), false)], key := true)
  }

  function Accepted(s: State, process: nat): State {
    if process !in s.pairings || !s.pairings[process].Presented? then s
    else s.(bound := true, pairings := s.pairings[process := s.pairings[process].(accepted := true)],
            declared := s.declared + set r | r in s.pairings[process].declared)
  }

  predicate Clears(s: State, process: nat) {
    process in s.pairings && s.pairings[process].Presented? && s.pairings[process].accepted
  }

  function Cleared(s: State, process: nat): State {
    if Clears(s, process) then s.(receipts := [], pairings := s.pairings - {process}) else s
  }

  function Recorded(s: State, id: string, u: Update): State
    requires id in s.truth && s.log.Readable?
  {
    s.(log := Readable(UpdatedIn(s.log.entries, id, u)), truth := s.truth[id := Updated(s.truth[id], u)])
  }

  /** A damaged log shows the entries in front of the damage. */
  function Damaged(log: Log, shown: nat): Log {
    if log.Missing? then log else Denied(Held(log)[..if shown < |Held(log)| then shown else |Held(log)|], Held(log))
  }

  ghost function Apply(d: Digests, s: State, step: Step): State {
    match step
    case Admit(e) =>
      if s.bound && !s.log.Denied? && e.id !in s.truth then s.(log := Readable(Held(s.log) + [e]), truth := s.truth[e.id := e]) else s
    case Record(id, u) => if s.log.Readable? && id in s.truth && InLog(s.log, id) then Recorded(s, id, u) else s
    case Rewrite =>
      if s.log.Readable? then s.(log := Readable(Compact(s.log.entries)), dropped := s.dropped + AckedIds(s.log.entries)) else s
    case Damage(shown) => s.(log := Damaged(s.log, shown))
    case Revoke => s.(bound := false)
    case Handoff(c, sawBound, verdict, path, stop) => Handed(d, s, c, path, Reaches(s, c, sawBound, verdict, path, stop))
    case Empty(process, end) => Emptying(s, process, end)
    case Check(process, readable) => Checking(s, process, readable)
    case Wipe(process, done) => Wiped(s, process, done)
    case Look(process) => Looking(s, process)
    case Declare(process, keyed) => Declaring(s, process, keyed)
    case Accept(process) => Accepted(s, process)
    case Clear(process) => Cleared(s, process)
    case Abandon(process) => s.(pairings := s.pairings - {process})
  }

  ghost function Exec(d: Digests, steps: seq<Step>): State {
    if steps == [] then INITIAL else Apply(d, Exec(d, steps[..|steps| - 1]), steps[|steps| - 1])
  }

  // ---------------------------------------------------------------- conservation

  ghost predicate InLog(log: Log, id: string) {
    exists e :: e in Held(log) && e.id == id
  }

  /** A complete archive holds this entry with all its evidence. */
  ghost predicate Preserves(a: Archive, t: Entry) {
    a.Complete? && exists e :: e in a.entries && e.id == t.id && Same(e, t)
  }

  ghost predicate InArchives(archives: map<string, Archive>, t: Entry) {
    exists p :: p in archives && Preserves(archives[p], t)
  }

  /** An admitted entry is in the journal, was dropped as acknowledged, or is in a complete archive. */
  ghost predicate Kept(s: State, id: string)
    requires id in s.truth
  {
    InLog(s.log, id) || (id in s.dropped && Acked(s.truth[id])) || InArchives(s.archives, s.truth[id])
  }

  /** A denied log shows a prefix of what it holds. */
  ghost predicate WellFormed(log: Log) {
    log.Denied? ==> log.shown <= log.entries
  }

  ghost predicate LogIsTrue(s: State) {
    UniqueIds(Held(s.log)) && forall e | e in Held(s.log) :: e.id in s.truth && Same(e, s.truth[e.id])
  }

  ghost predicate Conserved(s: State) {
    forall id | id in s.truth :: s.truth[id].id == id && Kept(s, id)
  }

  ghost predicate DescribedBy(d: Digests, a: Archive, m: Removal, r: Receipt) {
    a == Complete(m.tenant, m.handoff, m.entries) && r == ReceiptFor(d, a, |m.entries|, r.removedAt)
  }

  /** The receipt is that of a removal whose entries, exactly, are in a complete archive. */
  ghost predicate Described(d: Digests, archives: map<string, Archive>, removals: set<Removal>, r: Receipt) {
    exists p, m :: p in archives && m in removals && DescribedBy(d, archives[p], m, r)
  }

  ghost predicate ReceiptsDescribe(d: Digests, archives: map<string, Archive>, removals: set<Removal>, receipts: seq<Receipt>) {
    forall r | r in receipts :: Described(d, archives, removals, r)
  }

  ghost predicate Inv(d: Digests, s: State) {
    && LogIsTrue(s) && Conserved(s) && WellFormed(s.log)
    && ReceiptsDescribe(d, s.archives, s.removals, s.receipts) && Unrelated(s.receipts)
  }

  // ---------------------------------------------------------------- the running Guard

  lemma AdmitKeeps(d: Digests, s: State, e: Entry)
    requires Inv(d, s) && e.id !in s.truth
    ensures LogIsTrue(Apply(d, s, Admit(e))) && Conserved(Apply(d, s, Admit(e)))
  {
  }

  lemma UpdatedInHolds(entries: seq<Entry>, id: string, u: Update)
    requires UniqueIds(entries)
    ensures UniqueIds(UpdatedIn(entries, id, u))
    ensures forall e | e in entries :: (if e.id == id then Updated(e, u) else e) in UpdatedIn(entries, id, u)
    ensures forall x | x in UpdatedIn(entries, id, u) :: exists e :: e in entries && x == if e.id == id then Updated(e, u) else e
  {
    var after := UpdatedIn(entries, id, u);
    forall e | e in entries
      ensures (if e.id == id then Updated(e, u) else e) in after
    {
      var i :| 0 <= i < |entries| && entries[i] == e;
      assert after[i] == if e.id == id then Updated(e, u) else e;
    }
    forall x | x in after
      ensures exists e :: e in entries && x == if e.id == id then Updated(e, u) else e
    {
      var i :| 0 <= i < |after| && after[i] == x;
      assert entries[i] in entries;
    }
  }

  lemma RecordKeepsLog(s: State, id: string, u: Update)
    requires LogIsTrue(s) && id in s.truth && s.log.Readable?
    ensures LogIsTrue(Recorded(s, id, u))
  {
    var s' := Recorded(s, id, u);
    UpdatedInHolds(s.log.entries, id, u);
    forall x | x in Held(s'.log)
      ensures x.id in s'.truth && Same(x, s'.truth[x.id])
    {
      var e :| e in s.log.entries && x == if e.id == id then Updated(e, u) else e;
      if e.id == id { UpdateKeepsSame(e, s.truth[id], u); }
    }
  }

  lemma RecordStaysInLog(s: State, id: string, u: Update, other: string)
    requires LogIsTrue(s) && id in s.truth && s.log.Readable? && InLog(s.log, other)
    ensures InLog(Recorded(s, id, u).log, other)
  {
    UpdatedInHolds(s.log.entries, id, u);
    var e :| e in Held(s.log) && e.id == other;
    var x := if e.id == id then Updated(e, u) else e;
    assert x in Held(Recorded(s, id, u).log) && x.id == other;
  }

  lemma RecordConserves(s: State, id: string, u: Update)
    requires LogIsTrue(s) && Conserved(s) && id in s.truth && s.log.Readable? && InLog(s.log, id)
    ensures Conserved(Recorded(s, id, u))
  {
    var s' := Recorded(s, id, u);
    forall other | other in s'.truth
      ensures s'.truth[other].id == other && Kept(s', other)
    {
      assert Kept(s, other);
      if InLog(s.log, other) { RecordStaysInLog(s, id, u, other); }
    }
  }

  /** A rewrite that keeps every pending entry stripped and drops acknowledged ones conserves everything. */
  lemma RewriteKeeps(s: State, s': State, gone: Entry -> bool)
    requires LogIsTrue(s) && Conserved(s) && s'.truth == s.truth && UniqueIds(Held(s'.log))
    requires forall x :: x in Held(s'.log) <==> exists e :: e in Held(s.log) && !gone(e) && !Acked(e) && x == Strip(e)
    requires s'.dropped >= s.dropped && forall e | e in Held(s.log) && !gone(e) && Acked(e) :: e.id in s'.dropped
    requires forall p | p in s.archives :: p in s'.archives && s'.archives[p] == s.archives[p]
    requires forall e | e in Held(s.log) && gone(e) :: InArchives(s'.archives, s.truth[e.id])
    ensures LogIsTrue(s') && Conserved(s')
  {
    forall x | x in Held(s'.log)
      ensures x.id in s'.truth && Same(x, s'.truth[x.id])
    {
      var e :| e in Held(s.log) && !gone(e) && !Acked(e) && x == Strip(e);
      StripKeeps(e);
    }
    forall id | id in s'.truth
      ensures Kept(s', id)
    {
      assert Kept(s, id);
      if InLog(s.log, id) {
        var e :| e in Held(s.log) && e.id == id;
        SameAcked(e, s.truth[id]);
        if !gone(e) && !Acked(e) { assert Strip(e) in Held(s'.log) && Strip(e).id == id; }
      } else if InArchives(s.archives, s.truth[id]) {
        ArchivesStay(s.archives, s'.archives, s.truth[id]);
      }
    }
  }

  lemma ArchivesStay(before: map<string, Archive>, after: map<string, Archive>, t: Entry)
    requires forall p | p in before :: p in after && after[p] == before[p]
    requires InArchives(before, t)
    ensures InArchives(after, t)
  {
  }

  lemma RewriteStepKeeps(d: Digests, s: State)
    requires Inv(d, s)
    ensures LogIsTrue(Apply(d, s, Rewrite)) && Conserved(Apply(d, s, Rewrite))
  {
    var s' := Apply(d, s, Rewrite);
    if s.log.Readable? {
      CompactKeepsUnique(s.log.entries);
      forall x
        ensures x in Held(s'.log) <==> exists e :: e in Held(s.log) && !Acked(e) && x == Strip(e)
      {
        CompactMembers(s.log.entries, x);
      }
      RewriteKeeps(s, s', e => false);
    }
  }

  // ---------------------------------------------------------------- handoffs

  lemma NewArchivePreserves(s: State, c: Confirmation, archives: map<string, Archive>, path: string, e: Entry)
    requires LogIsTrue(s) && Conserved(s) && e in Held(s.log) && e.tenant == c.tenant && path in archives && archives[path] == ArchiveOf(s.log, c)
    ensures InArchives(archives, s.truth[e.id])
  {
    assert e in Of(Held(s.log), c.tenant);
    assert Preserves(archives[path], s.truth[e.id]);
  }

  /** Adding an archive, complete or not, takes nothing away. */
  lemma ArchivingKeeps(s: State, s': State, path: string, a: Archive)
    requires LogIsTrue(s) && Conserved(s) && path !in s.archives
    requires s'.truth == s.truth && s'.dropped == s.dropped && Held(s'.log) == Held(s.log) && s'.archives == s.archives[path := a]
    ensures LogIsTrue(s') && Conserved(s')
  {
    forall id | id in s'.truth
      ensures Kept(s', id)
    {
      assert Kept(s, id);
      if InLog(s.log, id) {
        assert InLog(s'.log, id);
      } else if InArchives(s.archives, s.truth[id]) {
        ArchivesStay(s.archives, s'.archives, s.truth[id]);
      }
    }
  }

  /** Removing an archived tenant's entries conserves everything. */
  lemma EmptyingKeeps(s: State, s': State, c: Confirmation, path: string)
    requires LogIsTrue(s) && Conserved(s) && path in s.archives && s.archives[path] == ArchiveOf(s.log, c)
    requires s'.truth == s.truth && s'.archives == s.archives && s'.log == HandedOff(Held(s.log), c.tenant)
    requires s'.dropped == s.dropped + AckedIds(Others(Held(s.log), c.tenant))
    ensures LogIsTrue(s') && Conserved(s')
  {
    var entries := Held(s.log);
    FilterKeepsUnique(entries, (e: Entry) => e.tenant != c.tenant);
    CompactKeepsUnique(Others(entries, c.tenant));
    forall x
      ensures x in Held(s'.log) <==> exists e :: e in entries && e.tenant != c.tenant && !Acked(e) && x == Strip(e)
    {
      HandedOffHolds(entries, c.tenant, x);
    }
    forall e | e in entries && e.tenant == c.tenant
      ensures InArchives(s'.archives, s.truth[e.id])
    {
      NewArchivePreserves(s, c, s.archives, path, e);
    }
    forall e | e in entries && e.tenant != c.tenant && Acked(e)
      ensures e.id in s'.dropped
    {
      assert e in Others(entries, c.tenant);
    }
    RewriteKeeps(s, s', (e: Entry) => e.tenant == c.tenant);
  }

  /** An interrupted overwrite destroys only what is archived or acknowledged. */
  lemma WreckKeeps(s: State, s': State, left: Entry -> bool)
    requires LogIsTrue(s) && Conserved(s) && s'.truth == s.truth && s'.archives == s.archives && s'.dropped >= s.dropped
    requires Held(s'.log) == Filter(Held(s.log), left)
    requires forall e | e in Held(s.log) :: (Acked(e) && e.id in s'.dropped) || InArchives(s.archives, s.truth[e.id])
    ensures LogIsTrue(s') && Conserved(s')
  {
    FilterKeepsUnique(Held(s.log), left);
    forall id | id in s'.truth
      ensures Kept(s', id)
    {
      assert Kept(s, id);
      if InLog(s.log, id) {
        var e :| e in Held(s.log) && e.id == id;
        SameAcked(e, s.truth[id]);
      }
    }
  }

  /** A reach past the archive's creation had no such file before it. */
  ghost predicate Fits(s: State, c: Confirmation, path: string, reach: Reach) {
    && (reach.Reached? && !reach.stop.Opened? ==> path !in s.archives)
    && (reach.Reached? && reach.stop.Wrecked? ==> Others(Held(s.log), c.tenant) == [])
  }

  /** The disk once the archive is complete and nothing else was touched. */
  ghost function Archiving(s: State, c: Confirmation, path: string): State {
    s.(log := Open(s.log), archives := s.archives[path := ArchiveOf(s.log, c)])
  }

  lemma WreckedHandoffKeeps(s: State, s': State, c: Confirmation, path: string, left: Entry -> bool)
    requires LogIsTrue(s) && Conserved(s) && path !in s.archives && Others(Held(s.log), c.tenant) == []
    requires s'.truth == s.truth && s'.dropped == s.dropped && s'.archives == s.archives[path := ArchiveOf(s.log, c)]
    requires Held(s'.log) == Filter(Held(s.log), left)
    ensures LogIsTrue(s') && Conserved(s')
  {
    var archived := Archiving(s, c, path);
    ArchivingKeeps(s, archived, path, ArchiveOf(s.log, c));
    forall e | e in Held(archived.log)
      ensures InArchives(archived.archives, archived.truth[e.id])
    {
      assert e !in Others(Held(s.log), c.tenant);
      NewArchivePreserves(archived, c, archived.archives, path, e);
    }
    WreckKeeps(archived, s', left);
  }

  lemma HandoffKeepsEvidence(d: Digests, s: State, c: Confirmation, path: string, reach: Reach)
    requires LogIsTrue(s) && Conserved(s) && Fits(s, c, path, reach)
    ensures LogIsTrue(Handed(d, s, c, path, reach)) && Conserved(Handed(d, s, c, path, reach))
  {
    var s' := Handed(d, s, c, path, reach);
    if !reach.Reached? || reach.stop.Opened? {
      SameEvidence(s, s');
    } else if Removes(reach) {
      var archived := Archiving(s, c, path);
      ArchivingKeeps(s, archived, path, ArchiveOf(s.log, c));
      EmptyingKeeps(archived, s', c, path);
    } else if reach.stop.Wrecked? {
      WreckedHandoffKeeps(s, s', c, path, reach.stop.left);
    } else {
      ArchivingKeeps(s, s', path, if reach.stop.Created? then Incomplete else ArchiveOf(s.log, c));
    }
  }

  lemma SameEvidence(s: State, s': State)
    requires LogIsTrue(s) && Conserved(s)
    requires s'.truth == s.truth && s'.archives == s.archives && s'.dropped == s.dropped && Held(s'.log) == Held(s.log)
    ensures LogIsTrue(s') && Conserved(s')
  {
    forall id | id in s'.truth
      ensures Kept(s', id)
    {
      assert Kept(s, id);
      if InLog(s.log, id) { assert InLog(s'.log, id); }
    }
  }

  lemma DecommissionKeepsEvidence(s: State, process: nat, end: EmptyStop)
    requires LogIsTrue(s) && Conserved(s)
    ensures LogIsTrue(Emptying(s, process, end)) && Conserved(Emptying(s, process, end))
  {
    var s', entries := Emptying(s, process, end), Held(s.log);
    if s.bound || end.Unavailable? || s.log.Denied? || (end.Torn? && Pending(entries) != []) {
    } else if end.Torn? {
      forall e | e in entries
        ensures Acked(e) && e.id in s'.dropped
      {
        assert e !in Pending(entries);
      }
      WreckKeeps(s, s', end.left);
    } else {
      FilterKeepsUnique(entries, e => !Acked(e));
      CompactKeepsUnique(Pending(entries));
      forall x
        ensures x in Held(s'.log) <==> exists e :: e in entries && !Acked(e) && x == Strip(e)
      {
        DecommissionedHolds(entries, x);
      }
      RewriteKeeps(s, s', e => false);
    }
  }

  // ---------------------------------------------------------------- receipts

  /** What vanishes for the tenant is exactly what was archived: all its entries, and no entry twice. */
  lemma VanishedIsArchived(entries: seq<Entry>, tenant: string)
    requires UniqueIds(entries)
    ensures Vanished(entries, Held(HandedOff(entries, tenant)), tenant) == Of(entries, tenant)
  {
    var after := Held(HandedOff(entries, tenant));
    forall e | e in entries && e.tenant == tenant
      ensures !Survives(e.id, after)
    {
      forall x | x in after
        ensures x.id != e.id
      {
        HandedOffHolds(entries, tenant, x);
        var y :| y in entries && y.tenant != tenant && !Acked(y) && x == Strip(y);
        var i :| 0 <= i < |entries| && entries[i] == e;
        var j :| 0 <= j < |entries| && entries[j] == y;
      }
    }
    FilterAgrees(entries, (e: Entry) => e.tenant == tenant && !Survives(e.id, after), (e: Entry) => e.tenant == tenant);
  }

  lemma StoredComesFrom(receipts: seq<Receipt>, receipt: Receipt, r: Receipt)
    requires r in Stored(receipts, receipt) && r != receipt
    ensures r in receipts
  {
  }

  lemma DescribedLater(d: Digests, before: map<string, Archive>, after: map<string, Archive>, removals: set<Removal>, more: set<Removal>, r: Receipt)
    requires Described(d, before, removals, r) && removals <= more && forall p | p in before :: p in after && after[p] == before[p]
    ensures Described(d, after, more, r)
  {
    var p, m :| p in before && m in removals && DescribedBy(d, before[p], m, r);
    assert p in after && m in more && DescribedBy(d, after[p], m, r);
  }

  lemma DescribeLater(d: Digests, before: map<string, Archive>, after: map<string, Archive>, removals: set<Removal>, more: set<Removal>, receipts: seq<Receipt>)
    requires ReceiptsDescribe(d, before, removals, receipts) && removals <= more && forall p | p in before :: p in after && after[p] == before[p]
    ensures ReceiptsDescribe(d, after, more, receipts)
  {
    forall r | r in receipts
      ensures Described(d, after, more, r)
    {
      DescribedLater(d, before, after, removals, more, r);
    }
  }

  lemma ReceiptKept(d: Digests, archives: map<string, Archive>, removals: set<Removal>, receipts: seq<Receipt>, path: string, a: Archive, m: Removal, at: int)
    requires ReceiptsDescribe(d, archives, removals, receipts) && path !in archives && a == Complete(m.tenant, m.handoff, m.entries)
    ensures ReceiptsDescribe(d, archives[path := a], removals + {m}, Stored(receipts, ReceiptFor(d, a, |m.entries|, at)))
  {
    var newest, after, more := ReceiptFor(d, a, |m.entries|, at), archives[path := a], removals + {m};
    DescribeLater(d, archives, after, removals, more, receipts);
    forall r | r in Stored(receipts, newest)
      ensures Described(d, after, more, r)
    {
      if r == newest {
        assert path in after && m in more && DescribedBy(d, after[path], m, r);
      } else {
        StoredComesFrom(receipts, newest, r);
      }
    }
  }

  lemma HandoffKeepsArchives(s: State, c: Confirmation, path: string, reach: Reach, a: Archive)
    requires Fits(s, c, path, reach)
    ensures forall p | p in s.archives :: p in HandedArchives(s.archives, path, a, reach) && HandedArchives(s.archives, path, a, reach)[p] == s.archives[p]
  {
  }

  lemma HandoffKeepsReceipts(d: Digests, s: State, c: Confirmation, path: string, reach: Reach)
    requires ReceiptsDescribe(d, s.archives, s.removals, s.receipts) && Unrelated(s.receipts) && UniqueIds(Held(s.log)) && Fits(s, c, path, reach)
    ensures var s' := Handed(d, s, c, path, reach); ReceiptsDescribe(d, s'.archives, s'.removals, s'.receipts) && Unrelated(s'.receipts)
  {
    var s', a, m := Handed(d, s, c, path, reach), ArchiveOf(s.log, c), RemovalOf(s.log, c);
    VanishedIsArchived(Held(s.log), c.tenant);
    if Stores(reach) {
      ReceiptKept(d, s.archives, s.removals, s.receipts, path, a, m, reach.stop.removedAt);
      StoreKeepsUnrelated(s.receipts, ReceiptFor(d, a, |m.entries|, reach.stop.removedAt));
    } else {
      HandoffKeepsArchives(s, c, path, reach, a);
      DescribeLater(d, s.archives, s'.archives, s.removals, s'.removals, s.receipts);
    }
  }

  // ---------------------------------------------------------------- every run

  /** A step that touches neither evidence, nor archives, nor receipts, nor the log. */
  ghost predicate Aside(step: Step) {
    step.Revoke? || step.Check? || step.Wipe? || step.Look? || step.Declare? || step.Accept? || step.Abandon?
  }

  lemma AsideKeepsInv(d: Digests, s: State, step: Step)
    requires Inv(d, s) && Aside(step)
    ensures Inv(d, Apply(d, s, step))
  {
    SameEvidence(s, Apply(d, s, step));
  }

  lemma EmptyKeepsInv(d: Digests, s: State, process: nat, end: EmptyStop)
    requires Inv(d, s)
    ensures Inv(d, Emptying(s, process, end))
  {
    DecommissionKeepsEvidence(s, process, end);
  }

  lemma ClearKeepsInv(d: Digests, s: State, process: nat)
    requires Inv(d, s)
    ensures Inv(d, Cleared(s, process))
  {
    SameEvidence(s, Cleared(s, process));
  }

  lemma DamageKeepsInv(d: Digests, s: State, shown: nat)
    requires Inv(d, s)
    ensures Inv(d, s.(log := Damaged(s.log, shown)))
  {
    SameEvidence(s, s.(log := Damaged(s.log, shown)));
  }

  lemma GuardKeepsInv(d: Digests, s: State, step: Step)
    requires Inv(d, s) && (step.Admit? || step.Record? || step.Rewrite?)
    ensures Inv(d, Apply(d, s, step))
  {
    match step
    case Admit(e) => if e.id !in s.truth { AdmitKeeps(d, s, e); }
    case Record(id, u) =>
      if Apply(d, s, step) != s {
        RecordKeepsLog(s, id, u);
        RecordConserves(s, id, u);
      }
    case Rewrite => RewriteStepKeeps(d, s);
  }

  lemma HandoffKeepsInv(d: Digests, s: State, h: Step)
    requires Inv(d, s) && h.Handoff?
    ensures Inv(d, Apply(d, s, h))
  {
    var reach := Reaches(s, h.confirmation, h.sawBound, h.verdict, h.path, h.stop);
    HandoffKeepsEvidence(d, s, h.confirmation, h.path, reach);
    HandoffKeepsReceipts(d, s, h.confirmation, h.path, reach);
  }

  lemma StepKeepsInv(d: Digests, s: State, step: Step)
    requires Inv(d, s)
    ensures Inv(d, Apply(d, s, step))
  {
    if step.Handoff? {
      HandoffKeepsInv(d, s, step);
    } else if step.Empty? {
      EmptyKeepsInv(d, s, step.process, step.end);
    } else if step.Admit? || step.Record? || step.Rewrite? {
      GuardKeepsInv(d, s, step);
    } else if step.Clear? {
      ClearKeepsInv(d, s, step.process);
    } else if step.Damage? {
      DamageKeepsInv(d, s, step.shown);
    } else {
      AsideKeepsInv(d, s, step);
    }
  }

  lemma {:induction false} InvHolds(d: Digests, steps: seq<Step>)
    ensures Inv(d, Exec(d, steps))
  {
    if steps != [] {
      InvHolds(d, steps[..|steps| - 1]);
      StepKeepsInv(d, Exec(d, steps[..|steps| - 1]), steps[|steps| - 1]);
    }
  }

  /** At every crash point of every run, each entry ever admitted is still in the journal with all evidence the control
      plane has not acknowledged, or was acknowledged as a whole, or is in a completely written archive. */
  lemma EvidenceIsConserved(d: Digests, steps: seq<Step>, id: string)
    requires id in Exec(d, steps).truth
    ensures var s := Exec(d, steps);
      || (exists e :: e in Held(s.log) && e.id == id && Same(e, s.truth[id]))
      || (id in s.dropped && Acked(s.truth[id]))
      || InArchives(s.archives, s.truth[id])
  {
    InvHolds(d, steps);
    var s := Exec(d, steps);
    assert Kept(s, id);
  }

  /** In every run each stored receipt is that of a removal: its count and digests are those of the entries that left
      the journal in that handoff, and a complete archive holds exactly these. */
  lemma ReceiptsDescribeRemovals(d: Digests, steps: seq<Step>, r: Receipt)
    requires r in Exec(d, steps).receipts
    ensures Described(d, Exec(d, steps).archives, Exec(d, steps).removals, r)
  {
    InvHolds(d, steps);
  }

  /** A handoff that emptied the journal archived exactly what it removed: the tenant's entries as they were, all of
      them and nothing else, and none of them is left. */
  lemma HandoffArchivesWhatItRemoves(d: Digests, steps: seq<Step>, h: Step)
    requires h.Handoff? && Removes(Reaches(Exec(d, steps), h.confirmation, h.sawBound, h.verdict, h.path, h.stop))
    ensures var s, s', c := Exec(d, steps), Apply(d, Exec(d, steps), h), h.confirmation;
      && s'.archives == s.archives[h.path := Complete(c.tenant, c.handoff, Of(Held(s.log), c.tenant))]
      && Removal(c.tenant, c.handoff, Of(Held(s.log), c.tenant)) in s'.removals
      && (forall e | e in Held(s.log) :: e.tenant == c.tenant <==> e in s'.archives[h.path].entries)
      && (forall x | x in Held(s'.log) :: x.tenant != c.tenant)
  {
    var s, s', c := Exec(d, steps), Apply(d, Exec(d, steps), h), h.confirmation;
    InvHolds(d, steps);
    VanishedIsArchived(Held(s.log), c.tenant);
    forall x | x in Held(s'.log)
      ensures x.tenant != c.tenant
    {
      HandedOffHolds(Held(s.log), c.tenant, x);
    }
  }
}
