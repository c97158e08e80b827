/** Ending the enrollment of a server whose Guard never sent a heartbeat: an
    optimistic update of a revisioned record, retried at most three times while
    other writers move it. */
module EnrollmentTimeout {
  import opened Common

  datatype Server = Server(revision: int, generation: int, lifecycle: string, reason: string)

  /** What any other writer does between two calls of the projector. */
  datatype Write = Put(generation: int, lifecycle: string, reason: string) | Remove

  /** How the store answers besides its revision check: truthfully, with a conflict of another kind, or with an error. */
  datatype Fault = NoFault | OtherConflict | Error

  /** One round of the retry loop as the environment makes it: writes before the apply, its fault, writes before the
      re-read, and whether that read fails. */
  datatype Round = Round(before: seq<Write>, fault: Fault, between: seq<Write>, readFails: bool)

  const ATTEMPTS := 3

  /** awaitingGuardHeartbeat. */
  predicate Awaiting(s: Server) {
    s.lifecycle == "enrolling" && TrimSpace(s.reason) == "awaiting_guard_heartbeat"
  }

  function Written(head: Option<Server>, w: Write): Option<Server> {
    if head.None? || w.Remove? then None
    else Some(Server(head.value.revision + 1, w.generation, w.lifecycle, w.reason))
  }

  function WrittenAll(head: Option<Server>, ws: seq<Write>): Option<Server> {
    if ws == [] then head else Written(WrittenAll(head, ws[..|ws| - 1]), ws[|ws| - 1])
  }

  function TimedOut(s: Server): Server {
    s.(revision := s.revision + 1, lifecycle := "failed", reason := "guard_heartbeat_timeout")
  }

  /** ApplyServerEvent of the timeout event. */
  predicate Commits(head: Option<Server>, expected: Server, fault: Fault) {
    && fault.NoFault? && head.Some? && head.value.revision == expected.revision
    && (expected.generation == 0 || head.value.generation == expected.generation)
  }

  /** Why failEnrollment ended. */
  datatype Outcome =
    | Committed(replaced: Server)
    | NoLongerWaiting(seen: Option<Server>)
    | ThreeConflicts
    | Failed

  /** A round ends the loop or goes on with the record it re-read. */
  datatype Turn = Ended(outcome: Outcome) | Again(current: Server)

  function Once(head: Option<Server>, snapshot: Server, round: Round): (Turn, Option<Server>) {
    var now := WrittenAll(head, round.before);
    if round.fault.Error? then (Ended(Failed), now)
    else if Commits(now, snapshot, round.fault) then (Ended(Committed(now.value)), Some(TimedOut(now.value)))
    else
      var current := WrittenAll(now, round.between);
      if round.readFails then (Ended(Failed), current)
      else if current.None? || !Awaiting(current.value) then (Ended(NoLongerWaiting(current)), current)
      else (Again(current.value), current)
  }

  /** The retry loop from attempt `n` on: its end and the record it leaves. */
  function Retry(head: Option<Server>, snapshot: Server, rounds: seq<Round>, n: nat): (Outcome, Option<Server>)
    requires |rounds| == ATTEMPTS
    decreases ATTEMPTS - n
  {
    if n >= ATTEMPTS then (ThreeConflicts, head)
    else
      var (turn, left) := Once(head, snapshot, rounds[n]);
      if turn.Ended? then (turn.outcome, left) else Retry(left, turn.current, rounds, n + 1)
  }

  /** A snapshot read from the store stays behind the record or equal to it. */
  ghost predicate Behind(snapshot: Server, head: Option<Server>) {
    head.Some? ==> snapshot.revision < head.value.revision || snapshot == head.value
  }

  /** Whatever was read once, later writes only move past it. */
  lemma {:induction false} WritesKeepBehind(snapshot: Server, head: Option<Server>, ws: seq<Write>)
    requires Behind(snapshot, head)
    ensures Behind(snapshot, WrittenAll(head, ws))
  {
    if ws != [] { WritesKeepBehind(snapshot, head, ws[..|ws| - 1]); }
  }

  /** How many of the rounds from `n` on have a store that answers truthfully. */
  function Truthful(rounds: seq<Round>, n: nat): nat
    requires |rounds| == ATTEMPTS
    decreases ATTEMPTS - n
  {
    if n >= ATTEMPTS then 0 else (if rounds[n].fault.NoFault? then 1 else 0) + Truthful(rounds, n + 1)
  }

  lemma {:induction false} WritesRaise(head: Option<Server>, ws: seq<Write>)
    ensures WrittenAll(head, ws).Some? ==> head.Some? && WrittenAll(head, ws).value.revision >= head.value.revision
  {
    if ws != [] { WritesRaise(head, ws[..|ws| - 1]); }
  }

  /** What one turn means: a commit replaced a waiting record no older than the snapshot; otherwise the loop ends with a
      record that does not wait, or goes on with one that does, and a truthful conflict means another writer moved it. */
  ghost predicate TurnMeans(snapshot: Server, round: Round, turn: Turn, left: Option<Server>) {
    match turn
    case Again(current) => left == Some(current) && Awaiting(current) && current.revision >= snapshot.revision + if round.fault.NoFault? then 1 else 0
    case Ended(outcome) => OutcomeMeans(snapshot, 0, outcome, left) && !outcome.ThreeConflicts?
  }

  ghost predicate OutcomeMeans(snapshot: Server, moves: nat, outcome: Outcome, left: Option<Server>) {
    match outcome
    case Committed(replaced) => Awaiting(replaced) && replaced.revision >= snapshot.revision && left == Some(TimedOut(replaced))
    case NoLongerWaiting(_) => left.None? || !Awaiting(left.value)
    case ThreeConflicts => left.Some? && Awaiting(left.value) && left.value.revision >= snapshot.revision + moves
    case Failed => true
  }

  lemma TurnSettles(head: Option<Server>, snapshot: Server, round: Round)
    requires Awaiting(snapshot) && Behind(snapshot, head)
    ensures var (turn, left) := Once(head, snapshot, round); TurnMeans(snapshot, round, turn, left)
  {
    WritesKeepBehind(snapshot, head, round.before);
    WritesRaise(WrittenAll(head, round.before), round.between);
  }

  /** What a nil return means for the record it leaves: a committed timeout replaced a waiting record; or the record is
      gone or no longer waits; or it still waits and other writers moved it at least once per truthful attempt, three
      times when the store never failed. */
  lemma {:induction false} NilMeansSettled(head: Option<Server>, snapshot: Server, rounds: seq<Round>, n: nat)
    requires |rounds| == ATTEMPTS && Awaiting(snapshot) && Behind(snapshot, head) && (n >= ATTEMPTS ==> head == Some(snapshot))
    ensures var (outcome, left) := Retry(head, snapshot, rounds, n); OutcomeMeans(snapshot, Truthful(rounds, n), outcome, left)
    decreases ATTEMPTS - n
  {
    if n < ATTEMPTS {
      TurnSettles(head, snapshot, rounds[n]);
      var (turn, left) := Once(head, snapshot, rounds[n]);
      if turn.Again? { NilMeansSettled(left, turn.current, rounds, n + 1); }
    }
  }

  /** With a truthful store three conflicts mean that other writers moved the record at least three times. */
  lemma ThreeConflictsMeanThreeWrites(listed: Server, head: Option<Server>, rounds: seq<Round>)
    requires |rounds| == ATTEMPTS && Awaiting(listed) && Behind(listed, head) && forall i | 0 <= i < ATTEMPTS :: rounds[i].fault.NoFault?
    requires Retry(head, listed, rounds, 0).0 == ThreeConflicts
    ensures var left := Retry(head, listed, rounds, 0).1; left.Some? && Awaiting(left.value) && left.value.revision >= listed.revision + 3
  {
    NilMeansSettled(head, listed, rounds, 0);
    assert Truthful(rounds, 3) == 0 && Truthful(rounds, 2) == 1 && Truthful(rounds, 1) == 2;
  }

  /** Without other writers and faults the first apply of a current snapshot commits. */
  lemma UndisturbedCommits(snapshot: Server, rounds: seq<Round>)
    requires |rounds| == ATTEMPTS && rounds[0].before == [] && rounds[0].fault.NoFault?
    ensures Retry(Some(snapshot), snapshot, rounds, 0) == (Committed(snapshot), Some(TimedOut(snapshot)))
  {
  }

  /** The record in the store and the records that timeout events replaced. */
  class ServerRecord {
    var head: Option<Server>
    var replaced: seq<Server>

    constructor (head: Option<Server>)
      ensures this.head == head && replaced == []
    {
      this.head := head;
      replaced := [];
    }

    method Interfere(ws: seq<Write>)
      modifies this`head
      ensures head == WrittenAll(old(head), ws)
    {
      for i := 0 to |ws|
        invariant head == WrittenAll(old(head), ws[..i])
      {
        assert ws[..i + 1][..i] == ws[..i];
        head := Written(head, ws[i]);
      }
      assert ws[..|ws|] == ws;
    }

    method Apply(expected: Server, fault: Fault) returns (committed: bool)
      modifies this
      ensures committed <==> Commits(old(head), expected, fault)
      ensures committed ==> head == Some(TimedOut(old(head).value)) && replaced == old(replaced) + [old(head).value]
      ensures !committed ==> head == old(head) && replaced == old(replaced)
    {
      committed := Commits(head, expected, fault);
      if committed {
        replaced := replaced + [head.value];
        head := Some(TimedOut(head.value));
      }
    }

    /** One turn of the loop, with the other writers' steps between its calls. */
    method TryOnce(server: Server, round: Round) returns (turn: Turn)
      modifies this
      ensures (turn, head) == Once(old(head), server, round)
      ensures replaced == old(replaced) + if turn.Ended? && turn.outcome.Committed? then [turn.outcome.replaced] else []
    {
      Interfere(round.before);
      if round.fault.Error? { return Ended(Failed); }
      var before := head;
      var committed := Apply(server, round.fault);
      if committed { return Ended(Committed(before.value)); }
      Interfere(round.between);
      if round.readFails { return Ended(Failed); }
      if head.None? || !Awaiting(head.value) { return Ended(NoLongerWaiting(head)); }
      return Again(head.value);
    }

    /** failEnrollment. */
    method FailEnrollment(listed: Server, rounds: seq<Round>) returns (outcome: Outcome)
      requires |rounds| == ATTEMPTS && Awaiting(listed) && Behind(listed, head)
      modifies this
      ensures (outcome, head) == Retry(old(head), listed, rounds, 0)
      ensures replaced == old(replaced) + if outcome.Committed? then [outcome.replaced] else []
      ensures outcome.Committed? ==> Awaiting(outcome.replaced)
    {
      NilMeansSettled(head, listed, rounds, 0);
      var server := listed;
      var attempt := 0;
      while attempt < ATTEMPTS
        invariant 0 <= attempt <= ATTEMPTS && replaced == old(replaced)
        invariant Retry(old(head), listed, rounds, 0) == Retry(head, server, rounds, attempt)
      {
        var turn := TryOnce(server, rounds[attempt]);
        if turn.Ended? { return turn.outcome; }
        server := turn.current;
        attempt := attempt + 1;
      }
      return ThreeConflicts;
    }

    /** One listed server of ObserveTerminalJob. */
    method HandleListed(listed: Server, rounds: seq<Round>) returns (outcome: Option<Outcome>)
      requires |rounds| == ATTEMPTS && Behind(listed, head)
      modifies this
      ensures Handled(listed, rounds, old(head), outcome, head)
    {
      if !Awaiting(listed) { return None; }
      var o := FailEnrollment(listed, rounds);
      outcome := Some(o);
    }
  }

  datatype Job = Job(provision: bool, failed: bool, timedOut: bool, tenant: string, stack: string)

  predicate Relevant(job: Job) {
    job.provision && job.failed && job.timedOut && job.tenant != "" && TrimSpace(job.stack) != ""
  }

  /** What the projector did to one listed server. */
  ghost predicate Handled(listed: Server, rounds: seq<Round>, before: Option<Server>, outcome: Option<Outcome>, after: Option<Server>) {
    && (!Awaiting(listed) ==> outcome.None? && after == before)
    && (Awaiting(listed) ==> |rounds| == ATTEMPTS && outcome.Some? && (outcome.value, after) == Retry(before, listed, rounds, 0))
    && (outcome.Some? && outcome.value.Committed? ==> Awaiting(outcome.value.replaced))
  }

  /** ObserveTerminalJob: only the listed servers that wait are touched, in order, up to the first error. */
  method ObserveTerminalJob(job: Job, listed: seq<Server>, records: seq<ServerRecord>, scripts: seq<seq<Round>>)
    returns (outcomes: seq<Option<Outcome>>)
    requires |listed| == |records| == |scripts| && forall i | 0 <= i < |scripts| :: |scripts[i]| == ATTEMPTS
    requires forall i, j | 0 <= i < j < |records| :: records[i] != records[j]
    requires forall i | 0 <= i < |records| :: Behind(listed[i], records[i].head)
    modifies records
    ensures !Relevant(job) ==> outcomes == []
    ensures |outcomes| <= |listed|
    ensures Relevant(job) && |outcomes| < |listed| ==> outcomes != [] && outcomes[|outcomes| - 1] == Some(Failed)
    ensures forall i | 0 <= i < |outcomes| :: Handled(listed[i], scripts[i], old(records[i].head), outcomes[i], records[i].head)
    ensures forall i | |outcomes| <= i < |records| :: records[i].head == old(records[i].head)
  {
    outcomes := [];
    if !Relevant(job) { return; }
    ghost var before := seq(|records|, i requires 0 <= i < |records| => old(records[i].head));
    ghost var after: seq<Option<Server>> := [];
    for i := 0 to |listed|
      invariant |outcomes| == |after| == i
      invariant forall k | 0 <= k < i :: Handled(listed[k], scripts[k], before[k], outcomes[k], after[k]) && records[k].head == after[k]
      invariant forall k | i <= k < |records| :: records[k].head == before[k]
    {
      assert forall k | 0 <= k < |records| && k != i :: records[k] != records[i];
      var outcome := records[i].HandleListed(listed[i], scripts[i]);
      assert Handled(listed[i], scripts[i], before[i], outcome, records[i].head);
      outcomes, after := outcomes + [outcome], after + [records[i].head];
      if outcome == Some(Failed) { return; }
    }
  }
}
