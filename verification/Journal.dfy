/** The Guard's command journal as the handoff and the decommission use it:
    entries with their results, what compaction strips, and what is left after a
    tenant's entries were handed off. */
module Journal {
  import opened Common

  datatype Result = Result(revision: int, payload: Option<string>, open: bool)

  /** `rest` stands for the intent, dispatch and executor fields, which nothing here changes. */
  datatype Entry = Entry(id: string, tenant: string, rest: string, results: seq<Result>, acked: int)

  /** The log file. A denied log keeps its bytes untouched but shows only what replayed cleanly. */
  datatype Log = Missing | Readable(entries: seq<Entry>) | Denied(shown: seq<Entry>, entries: seq<Entry>)

  /** The entries the file holds, readable or not. */
  function Held(log: Log): seq<Entry> {
    match log
    case Missing => []
    case Readable(entries) => entries
    case Denied(_, entries) => entries
  }

  /** What the open store lists. */
  function Shown(log: Log): seq<Entry> {
    match log
    case Missing => []
    case Readable(entries) => entries
    case Denied(shown, _) => shown
  }

  /** The latest result is final and the control plane acknowledged it. */
  predicate Acked(e: Entry) {
    e.results != [] && !e.results[|e.results| - 1].open && e.acked >= e.results[|e.results| - 1].revision
  }

  function StripResult(r: Result, acked: int): Result {
    if r.revision <= acked then r.(payload := None) else r
  }

  function StripResults(results: seq<Result>, acked: int): seq<Result> {
    seq(|results|, i requires 0 <= i < |results| => StripResult(results[i], acked))
  }

  /** Compaction drops the payloads of acknowledged revisions. */
  function Strip(e: Entry): Entry {
    e.(results := StripResults(e.results, e.acked))
  }

  /** compactLocked: acknowledged entries go, the others are rewritten stripped. */
  function Compact(entries: seq<Entry>): seq<Entry> {
    if entries == [] then []
    else if Acked(entries[0]) then Compact(entries[1..])
    else [Strip(entries[0])] + Compact(entries[1..])
  }

  function Of(entries: seq<Entry>, tenant: string): seq<Entry> {
    Filter(entries, (e: Entry) => e.tenant == tenant)
  }

  function Others(entries: seq<Entry>, tenant: string): seq<Entry> {
    Filter(entries, (e: Entry) => e.tenant != tenant)
  }

  function Pending(entries: seq<Entry>): seq<Entry> {
    Filter(entries, e => !Acked(e))
  }

  /** HandOff: the tenant's entries go; a log without other entries is destroyed, another one is compacted. */
  function HandedOff(entries: seq<Entry>, tenant: string): Log {
    if Others(entries, tenant) == [] then Missing else Readable(Compact(Others(entries, tenant)))
  }

  /** Decommission: only unacknowledged evidence is kept. */
  function Decommissioned(entries: seq<Entry>): Log {
    if Pending(entries) == [] then Missing else Readable(Compact(Pending(entries)))
  }

  // ---------------------------------------------------------------- what stripping keeps

  /** The same evidence: equal once acknowledged payloads are left aside. */
  ghost predicate Same(a: Entry, b: Entry) {
    Strip(a) == Strip(b)
  }

  lemma StripKeeps(e: Entry)
    ensures Same(Strip(e), e) && (Acked(Strip(e)) <==> Acked(e))
    ensures Strip(e).id == e.id && Strip(e).tenant == e.tenant
  {
  }

  /** A payload is lost only where the control plane acknowledged its revision. */
  lemma UnackedPayloadsSurvive(a: Entry, b: Entry, i: nat)
    requires Same(a, b) && i < |a.results| && a.results[i].revision > a.acked
    ensures |b.results| == |a.results| && b.results[i] == a.results[i] && b.acked == a.acked
  {
    assert Strip(a).results[i] == StripResult(a.results[i], a.acked);
    assert |Strip(a).results| == |Strip(b).results|;
    assert Strip(b).results[i] == StripResult(b.results[i], b.acked);
  }

  lemma SameAcked(a: Entry, b: Entry)
    requires Same(a, b)
    ensures Acked(a) <==> Acked(b)
  {
    StripKeeps(a);
    StripKeeps(b);
  }

  /** Nothing left for compaction to change. */
  ghost predicate IsCompact(e: Entry) {
    !Acked(e) && forall i | 0 <= i < |e.results| && e.results[i].revision <= e.acked :: e.results[i].payload.None?
  }

  lemma StripFixesExactly(e: Entry)
    ensures Strip(e) == e <==> forall i | 0 <= i < |e.results| && e.results[i].revision <= e.acked :: e.results[i].payload.None?
  {
  }

  lemma {:induction false} CompactNeverGrows(entries: seq<Entry>)
    ensures |Compact(entries)| <= |entries|
  {
    if entries != [] { CompactNeverGrows(entries[1..]); }
  }

  /** Compaction leaves a list byte for byte as it is exactly when every entry in it is already compact. */
  lemma {:induction false} CompactFixesExactly(entries: seq<Entry>)
    ensures Compact(entries) == entries <==> forall e | e in entries :: IsCompact(e)
  {
    if entries != [] {
      var e, rest := entries[0], entries[1..];
      assert entries == [e] + rest;
      CompactFixesExactly(rest);
      CompactNeverGrows(rest);
      StripFixesExactly(e);
      if Compact(entries) == entries {
        assert !Acked(e);
        assert Compact(entries)[0] == Strip(e) && Compact(entries)[1..] == Compact(rest);
      } else if IsCompact(e) {
        assert Compact(entries) == [e] + Compact(rest);
      } else {
        assert e in entries;
      }
    }
  }

  lemma {:induction false} CompactMembers(entries: seq<Entry>, x: Entry)
    ensures x in Compact(entries) <==> exists e :: e in entries && !Acked(e) && x == Strip(e)
  {
    if entries != [] {
      assert entries == [entries[0]] + entries[1..];
      CompactMembers(entries[1..], x);
    }
  }

  /** What compaction wrote stays as it is in every later compaction. */
  lemma CompactIsCompact(entries: seq<Entry>)
    ensures Compact(Compact(entries)) == Compact(entries)
  {
    forall x | x in Compact(entries)
      ensures IsCompact(x)
    {
      CompactMembers(entries, x);
      var e :| e in entries && !Acked(e) && x == Strip(e);
      StripKeeps(e);
      StripFixesExactly(x);
    }
    CompactFixesExactly(Compact(entries));
  }

  /** Another tenant's entries come through a handoff untouched exactly when they were compact before it. */
  lemma OthersUntouchedExactly(entries: seq<Entry>, tenant: string)
    ensures Held(HandedOff(entries, tenant)) == Others(entries, tenant) <==> forall e | e in entries && e.tenant != tenant :: IsCompact(e)
  {
    CompactFixesExactly(Others(entries, tenant));
  }

  /** A handoff does change other tenants' entries: an acknowledged one is gone afterwards. */
  lemma HandoffMayDropOthers(e: Entry, tenant: string)
    requires e.tenant != tenant && Acked(e)
    ensures Held(HandedOff([e], tenant)) == []
  {
    assert Others([e], tenant) == [e] && [e][1..] == [];
    assert Compact([e]) == Compact([]);
  }

  /** After a decommission nothing is left for a handoff to change in another tenant's entries. */
  lemma DecommissionedComesThrough(entries: seq<Entry>, tenant: string)
    ensures var kept := Held(Decommissioned(entries)); Held(HandedOff(kept, tenant)) == Others(kept, tenant)
  {
    var kept := Held(Decommissioned(entries));
    CompactIsCompact(Pending(entries));
    CompactFixesExactly(kept);
    OthersUntouchedExactly(kept, tenant);
  }

  /** What a handoff leaves: nothing of the tenant, and of every other tenant all that was not acknowledged. */
  lemma HandedOffHolds(entries: seq<Entry>, tenant: string, x: Entry)
    ensures x in Held(HandedOff(entries, tenant)) <==> exists e :: e in entries && e.tenant != tenant && !Acked(e) && x == Strip(e)
  {
    CompactMembers(Others(entries, tenant), x);
    if e :| e in entries && e.tenant != tenant && !Acked(e) && x == Strip(e) {
      assert e in Others(entries, tenant);
    }
  }

  lemma DecommissionedHolds(entries: seq<Entry>, x: Entry)
    ensures x in Held(Decommissioned(entries)) <==> exists e :: e in entries && !Acked(e) && x == Strip(e)
  {
    CompactMembers(Pending(entries), x);
    if e :| e in entries && !Acked(e) && x == Strip(e) {
      assert e in Pending(entries);
    }
  }

  // ---------------------------------------------------------------- one entry per command

  ghost predicate UniqueIds(entries: seq<Entry>) {
    forall i, j | 0 <= i < j < |entries| :: entries[i].id != entries[j].id
  }

  lemma {:induction false} FilterKeepsUnique(entries: seq<Entry>, keep: Entry -> bool)
    requires UniqueIds(entries)
    ensures UniqueIds(Filter(entries, keep))
  {
    if entries != [] {
      var rest := entries[1..];
      FilterKeepsUnique(rest, keep);
      forall e | e in Filter(rest, keep)
        ensures e.id != entries[0].id
      {
        var j :| 0 <= j < |rest| && rest[j] == e;
        assert entries[j + 1] == e;
      }
    }
  }

  lemma {:induction false} CompactKeepsUnique(entries: seq<Entry>)
    requires UniqueIds(entries)
    ensures UniqueIds(Compact(entries))
  {
    if entries != [] {
      var rest := entries[1..];
      CompactKeepsUnique(rest);
      forall x | x in Compact(rest)
        ensures x.id != entries[0].id
      {
        CompactMembers(rest, x);
        var e :| e in rest && !Acked(e) && x == Strip(e);
        var j :| 0 <= j < |rest| && rest[j] == e;
        assert entries[j + 1] == e;
      }
    }
  }

  // ---------------------------------------------------------------- what the running Guard records

  datatype Update = Report(result: Result) | Acknowledge(revision: int)

  function Updated(e: Entry, u: Update): Entry {
    match u
    case Report(result) => e.(results := e.results + [result])
    case Acknowledge(revision) => if revision > e.acked then e.(acked := revision) else e
  }

  /** Recording on a compacted copy and on the original keeps the same evidence. */
  lemma UpdateKeepsSame(a: Entry, b: Entry, u: Update)
    requires Same(a, b)
    ensures Same(Updated(a, u), Updated(b, u))
  {
    var x, y := Updated(a, u), Updated(b, u);
    assert |Strip(a).results| == |Strip(b).results|;
    forall i | 0 <= i < |x.results|
      ensures StripResult(x.results[i], x.acked) == StripResult(y.results[i], y.acked)
    {
      if i < |a.results| {
        assert Strip(a).results[i] == StripResult(a.results[i], a.acked);
        assert Strip(b).results[i] == StripResult(b.results[i], b.acked);
      }
    }
    assert Strip(x).results == Strip(y).results;
  }

  function UpdatedIn(entries: seq<Entry>, id: string, u: Update): seq<Entry> {
    seq(|entries|, i requires 0 <= i < |entries| => if entries[i].id == id then Updated(entries[i], u) else entries[i])
  }
}
