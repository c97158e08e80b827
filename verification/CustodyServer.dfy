/** The operations on one server's disk as the commands perform them, proved
    against the steps that runs are made of. */
module CustodyServer {
  import opened Common
  import opened Journal
  import opened Receipts
  import opened Custody
  import opened CustodyDeclaration

  function LogAfter(log: Log, tenant: string, stop: HandoffStop): Log {
    if stop.Archived? || TrimSpace(tenant) == "" then log
    else if !stop.Wrecked? then HandedOff(Held(log), tenant)
    else if Others(Held(log), tenant) == [] then Denied([], Filter(Held(log), stop.left))
    else log
  }

  /** The handoff goes on to its archive: nothing refused it and no such file exists. */
  predicate Proceeds(s: State, verdict: Verdict, path: string, stop: HandoffStop) {
    !s.bound && verdict.Verified? && !s.log.Denied? && path !in s.archives && !stop.Opened? && !stop.Created?
  }

  /** What is left when it does not. */
  function Early(s: State, verdict: Verdict, path: string, stop: HandoffStop): State {
    if s.bound || verdict.NoKey? then s
    else if verdict.Refused? || s.log.Denied? then s.(key := true)
    else if stop.Opened? || path in s.archives then s.(key := true, bound := false, log := Open(s.log))
    else s.(key := true, bound := false, log := Open(s.log), archives := s.archives[path := Incomplete])
  }

  predicate Takes(c: Confirmation, stop: HandoffStop) {
    !stop.Archived? && TrimSpace(c.tenant) != "" && !stop.Wrecked?
  }

  function ReceiptsAfter(d: Digests, s: State, c: Confirmation, stop: HandoffStop): seq<Receipt> {
    if Takes(c, stop) && stop.Finished? then Stored(s.receipts, ReceiptFor(d, ArchiveOf(s.log, c), |RemovalOf(s.log, c).entries|, stop.removedAt))
    else s.receipts
  }

  function DroppedAfter(s: State, c: Confirmation, stop: HandoffStop): set<string> {
    if Takes(c, stop) then s.dropped + AckedIds(Others(Held(s.log), c.tenant)) else s.dropped
  }

  function RemovalsAfter(s: State, c: Confirmation, stop: HandoffStop): set<Removal> {
    if Takes(c, stop) then s.removals + {RemovalOf(s.log, c)} else s.removals
  }

  /** What is left when it does, by its parts: the archive, the journal, the receipt. */
  function Far(d: Digests, s: State, c: Confirmation, path: string, stop: HandoffStop): State {
    s.(log := LogAfter(s.log, c.tenant, stop), archives := s.archives[path := ArchiveOf(s.log, c)], receipts := ReceiptsAfter(d, s, c, stop),
       dropped := DroppedAfter(s, c, stop), removals := RemovalsAfter(s, c, stop))
  }

  lemma EarlyIsHanded(d: Digests, s: State, c: Confirmation, verdict: Verdict, path: string, stop: HandoffStop)
    requires !Proceeds(s, verdict, path, stop)
    ensures var reach := Reaches(s, c, s.bound, verdict, path, stop);
      Handed(d, s, c, path, reach) == Early(s, verdict, path, stop) && !Stores(reach)
  {
  }

  lemma FarReaches(s: State, c: Confirmation, path: string, stop: HandoffStop)
    requires !s.log.Denied? && path !in s.archives && !stop.Opened? && !stop.Created?
    ensures var reach := Reaches(s, c, false, Verified, path, stop);
      && reach.Reached? && !reach.stop.Opened? && !reach.stop.Created?
      && (Removes(reach) <==> Takes(c, stop)) && (Stores(reach) <==> Takes(c, stop) && stop.Finished?) && (Stores(reach) ==> reach.stop == stop)
      && HandedLog(s.log, c.tenant, reach) == LogAfter(Open(s.log), c.tenant, stop)
  {
  }

  /** The parts make up the whole, also from a log that had to be created. */
  lemma FarIsHanded(d: Digests, s: State, ready: State, c: Confirmation, path: string, stop: HandoffStop)
    requires Proceeds(s, Verified, path, stop) && ready == s.(key := true, bound := false, log := Open(s.log))
    ensures var reach := Reaches(s, c, false, Verified, path, stop);
      Handed(d, s, c, path, reach) == Far(d, ready, c, path, stop) && (Stores(reach) <==> Takes(c, stop) && stop.Finished?)
  {
    FarReaches(s, c, path, stop);
  }

  class Server {
    var log: Log
    var archives: map<string, Archive>
    var receipts: seq<Receipt>
    var key: bool
    var bound: bool
    var pairings: map<nat, Pairing>
    var wipes: map<nat, Wiping>
    ghost var truth: map<string, Entry>
    ghost var dropped: set<string>
    ghost var declared: set<Receipt>
    ghost var removals: set<Removal>

    ghost function Value(): State
      reads this
    {
      State(log, archives, receipts, key, bound, pairings, wipes, truth, dropped, declared, removals)
    }

    constructor ()
      ensures Value() == INITIAL
    {
      log, archives, receipts, key, bound := Missing, map[], [], false, false;
      pairings, wipes := map[], map[];
      truth, dropped, declared, removals := map[], {}, {}, {};
    }

    /** The archive file: created exclusively, then written and synced as a whole. */
    method WriteArchive(path: string, archive: Archive, stop: HandoffStop) returns (ok: bool)
      modifies this`archives
      ensures ok <==> path !in old(archives) && !stop.Created?
      ensures archives == if path in old(archives) then old(archives) else old(archives)[path := if ok then archive else Incomplete]
    {
      if path in archives { return false; }
      archives := archives[path := Incomplete];
      if stop.Created? { return false; }
      archives := archives[path := archive];
      ok := true;
    }

    /** store.HandOff: how many of the tenant's entries it removed. It may be interrupted while it overwrites a log that
        nothing else needs, which then shows nothing. */
    method HandOff(c: Confirmation, stop: HandoffStop) returns (removed: Option<nat>)
      modifies this`log, this`dropped, this`removals
      ensures removed.Some? <==> !stop.Archived? && TrimSpace(c.tenant) != "" && !stop.Wrecked?
      ensures log == LogAfter(old(log), c.tenant, stop)
      ensures removed.Some? ==> removed.value == |RemovalOf(old(log), c).entries|
      ensures removed.Some? ==> dropped == old(dropped) + AckedIds(Others(Held(old(log)), c.tenant)) && removals == old(removals) + {RemovalOf(old(log), c)}
      ensures removed.None? ==> dropped == old(dropped) && removals == old(removals)
    {
      if stop.Archived? || TrimSpace(c.tenant) == "" { return None; }
      var entries := Held(log);
      if stop.Wrecked? {
        if Others(entries, c.tenant) == [] { log := Denied([], Filter(entries, stop.left)); }
        return None;
      }
      removed := Some(|RemovalOf(log, c).entries|);
      dropped, removals := dropped + AckedIds(Others(entries, c.tenant)), removals + {RemovalOf(log, c)};
      log := HandedOff(entries, c.tenant);
    }

    /** The checks, and the creation of the archive file when the write does not follow. */
    method Prepare(verdict: Verdict, path: string, stop: HandoffStop) returns (go: bool)
      modifies this
      ensures go <==> Proceeds(old(Value()), verdict, path, stop)
      ensures Value() == if go then old(Value()).(key := true, bound := false, log := Open(old(log))) else Early(old(Value()), verdict, path, stop)
    {
      if bound || verdict.NoKey? { return false; }
      key := true;
      if verdict.Refused? || log.Denied? { return false; }
      log, bound := Open(log), false;
      if stop.Opened? || path in archives { return false; }
      if stop.Created? {
        var _ := WriteArchive(path, Incomplete, stop);
        return false;
      }
      go := true;
    }

    /** The destructive half: archive, then removal, then receipt, each only after the one before. */
    method Transfer(d: Digests, c: Confirmation, path: string, stop: HandoffStop) returns (ok: bool)
      requires log.Readable? && path !in archives && !stop.Opened? && !stop.Created?
      modifies this`log, this`archives, this`receipts, this`dropped, this`removals
      ensures ok <==> Takes(c, stop) && stop.Finished?
      ensures log == LogAfter(old(log), c.tenant, stop) && archives == old(archives)[path := ArchiveOf(old(log), c)]
      ensures receipts == ReceiptsAfter(d, old(Value()), c, stop)
      ensures dropped == DroppedAfter(old(Value()), c, stop) && removals == RemovalsAfter(old(Value()), c, stop)
    {
      var archive := ArchiveOf(log, c);
      var _ := WriteArchive(path, archive, stop);
      var removed := HandOff(c, stop);
      if removed.Some? { ok := StoreReceipt(archive, removed.value, d, stop); } else { ok := false; }
    }

    /** The receipt, after everything else. */
    method StoreReceipt(archive: Archive, removed: nat, d: Digests, stop: HandoffStop) returns (ok: bool)
      requires archive.Complete?
      modifies this`receipts
      ensures ok <==> stop.Finished?
      ensures receipts == if ok then Stored(old(receipts), ReceiptFor(d, archive, removed, stop.removedAt)) else old(receipts)
    {
      if !stop.Finished? { return false; }
      receipts := StoreHandoffReceipt(receipts, ReceiptFor(d, archive, removed, stop.removedAt));
      ok := true;
    }

    /** runAgentHandoff. It succeeds exactly when it got to its end. */
    method RunAgentHandoff(d: Digests, c: Confirmation, verdict: Verdict, path: string, stop: HandoffStop) returns (ok: bool)
      modifies this
      ensures Value() == Handed(d, old(Value()), c, path, Reaches(old(Value()), c, old(bound), verdict, path, stop))
      ensures ok <==> Stores(Reaches(old(Value()), c, old(bound), verdict, path, stop))
    {
      ghost var s := Value();
      var go := Prepare(verdict, path, stop);
      if !go {
        EarlyIsHanded(d, s, c, verdict, path, stop);
        return false;
      }
      FarIsHanded(d, s, Value(), c, path, stop);
      ok := Transfer(d, c, path, stop);
    }

    /** decommissionRevokedGuard: the journal goes first, then it looks for receipts, and the key goes only if it found
        neither. */
    method DecommissionRevokedGuard(process: nat, end: EmptyStop, readable: bool, done: bool)
      requires process !in wipes
      modifies this
      ensures Value() == Wiped(Checking(Emptying(old(Value()), process, end), process, readable), process, done)
      ensures old(key) && !key ==> Held(log) == [] && receipts == []
    {
      if bound || end.Unavailable? || log.Denied? { return; }
      var entries := Held(log);
      var kept := Pending(entries);
      if end.Torn? {
        if kept == [] {
          dropped := dropped + AckedIds(entries);
          log := Denied([], Filter(entries, end.left));
        }
        return;
      }
      dropped := dropped + AckedIds(entries);
      log := if kept == [] then Missing else Readable(Compact(kept));
      if kept != [] { return; }
      var keepKey := !readable || receipts != [];
      if !keepKey && done { key := false; }
      assert wipes[process := Emptied][process := Decided(!keepKey)] - {process} == wipes;
    }

    /** The first read of guardPriorCustody takes no lock: anything may happen before the second. */
    method LoadHandoffReceipts(process: nat) returns (ok: bool)
      modifies this`pairings
      ensures Value() == Looking(old(Value()), process)
      ensures ok <==> !bound
      ensures ok ==> process in pairings && pairings[process] == Looked(receipts)
    {
      if bound { return false; }
      pairings := pairings[process := Looked(receipts)];
      ok := true;
    }

    /** The second read, of the journal, completes the declaration with the receipts as they were at the first. */
    method Declare(process: nat, keyed: bool) returns (presented: Option<Declaration>)
      requires process in pairings && pairings[process].Looked?
      modifies this`pairings, this`key
      ensures Value() == Declaring(old(Value()), process, keyed)
      ensures presented.Some? <==> keyed
      ensures presented.Some? ==> presented.value.receipts == old(pairings)[process].declared && NoRepeats(presented.value.heldTenants)
      ensures presented.Some? ==> forall t :: t in presented.value.heldTenants <==> t in Tenants(Shown(log))
      ensures presented.Some? && !log.Denied? ==> forall t :: t in presented.value.heldTenants <==> Tenanted(Held(log), t)
    {
      var declared := pairings[process].declared;
      var declaration := GuardPriorCustody(log, declared);
      if !keyed {
        pairings := pairings - {process};
        return None;
      }
      key := true;
      pairings := pairings[process := Presented(declared, Tenants(Shown(log)), false)];
      presented := Some(declaration);
    }

    /** clearHandoffReceipts, after a successful pairing: every receipt that is there now goes, declared or not. */
    method ClearHandoffReceipts(process: nat)
      requires Clears(Value(), process)
      modifies this`receipts, this`pairings
      ensures Value() == Cleared(old(Value()), process) && receipts == []
    {
      receipts := [];
      pairings := pairings - {process};
    }
  }
}
