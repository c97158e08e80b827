/** The journal lock: an exclusive lock on whatever file is at the lock's path when
    it is opened. A decommission removes that path after it released the lock.
    Exactly when the removal leaves the lock exclusive. */
module LockFile {
  import opened Common

  datatype Handle = Handle(inode: nat, held: bool)

  /** The file at the path, the next file to be created, and what each process has open. */
  datatype State = State(path: Option<nat>, next: nat, handles: map<nat, Handle>)

  const INITIAL := State(None, 0, map[])

  datatype Step = Open(process: nat) | Lock(process: nat) | Release(process: nat) | Remove

  predicate Holds(s: State, p: nat) {
    p in s.handles && s.handles[p].held
  }

  /** The lock belongs to the file, not to its path. */
  predicate Taken(s: State, inode: nat) {
    exists q | q in s.handles :: s.handles[q].held && s.handles[q].inode == inode
  }

  /** Opening creates a missing file; a lock that is taken fails at once and closes the file. */
  function Apply(s: State, step: Step): State {
    match step
    case Open(p) =>
      if p in s.handles then s
      else if s.path.Some? then s.(handles := s.handles[p := Handle(s.path.value, false)])
      else State(Some(s.next), s.next + 1, s.handles[p := Handle(s.next, false)])
    case Lock(p) =>
      if p !in s.handles || s.handles[p].held then s
      else if Taken(s, s.handles[p].inode) then s.(handles := s.handles - {p})
      else s.(handles := s.handles[p := s.handles[p].(held := true)])
    case Release(p) => s.(handles := s.handles - {p})
    case Remove => s.(path := None)
  }

  function After(s: State, steps: seq<Step>): State {
    if steps == [] then s else Apply(After(s, steps[..|steps| - 1]), steps[|steps| - 1])
  }

  /** At most one process holds the lock. */
  ghost predicate Exclusive(s: State) {
    forall p, q | Holds(s, p) && Holds(s, q) :: p == q
  }

  /** One holder per file, and files are numbered in the order they were created. */
  ghost predicate Inv(s: State) {
    && (s.path.Some? ==> s.path.value < s.next)
    && (forall p | p in s.handles :: s.handles[p].inode < s.next)
    && (forall p, q | Holds(s, p) && Holds(s, q) && s.handles[p].inode == s.handles[q].inode :: p == q)
  }

  lemma StepKeepsInv(s: State, step: Step)
    requires Inv(s)
    ensures Inv(Apply(s, step))
  {
  }

  lemma {:induction false} InvHolds(s: State, steps: seq<Step>)
    requires Inv(s)
    ensures Inv(After(s, steps))
  {
    if steps != [] {
      InvHolds(s, steps[..|steps| - 1]);
      StepKeepsInv(After(s, steps[..|steps| - 1]), steps[|steps| - 1]);
    }
  }

  /** Whatever is open is the file at the path. */
  ghost predicate Current(s: State) {
    forall p | p in s.handles :: s.path == Some(s.handles[p].inode)
  }

  lemma CurrentIsExclusive(s: State)
    requires Inv(s) && Current(s)
    ensures Exclusive(s)
  {
  }

  /** A removal that finds the file open by nobody keeps this, and so does every other step. */
  lemma StepKeepsCurrent(s: State, step: Step)
    requires Current(s) && (step.Remove? ==> s.handles == map[])
    ensures Current(Apply(s, step))
  {
  }

  ghost predicate QuietAt(s: State, steps: seq<Step>, i: nat) {
    i < |steps| && steps[i].Remove? ==> After(s, steps[..i]).handles == map[]
  }

  /** The path is removed only while nobody has the file open. */
  ghost predicate Quiet(s: State, steps: seq<Step>) {
    forall i: nat :: QuietAt(s, steps, i)
  }

  lemma {:induction false} QuietRunsAreExclusive(s: State, steps: seq<Step>)
    requires Inv(s) && Current(s) && Quiet(s, steps)
    ensures Current(After(s, steps)) && Exclusive(After(s, steps))
  {
    if steps != [] {
      var n := |steps| - 1;
      forall i: nat
        ensures QuietAt(s, steps[..n], i)
      {
        assert QuietAt(s, steps, i);
        if i < n { assert steps[..n][..i] == steps[..i]; }
      }
      assert QuietAt(s, steps, n);
      QuietRunsAreExclusive(s, steps[..n]);
      StepKeepsCurrent(After(s, steps[..n]), steps[n]);
    }
    InvHolds(s, steps);
    CurrentIsExclusive(After(s, steps));
  }

  ghost predicate NoRemoval(steps: seq<Step>) {
    forall step | step in steps :: !step.Remove?
  }

  lemma {:induction false} Unused(m: map<nat, Handle>) returns (q: nat)
    ensures q !in m && forall p | p in m :: p < q
    decreases |m|
  {
    if m == map[] {
      q := 0;
    } else {
      var p :| p in m;
      var rest := m - {p};
      assert |rest| < |m| by { assert rest.Keys < m.Keys; SmallerSet(rest.Keys, m.Keys); }
      var r := Unused(rest);
      q := if r > p then r else p + 1;
      assert forall x | x in m :: x == p || x in rest;
    }
  }

  lemma SmallerSet(a: set<nat>, b: set<nat>)
    requires a < b
    ensures |a| < |b|
  {
    var x :| x in b && x !in a;
    assert a <= b - {x};
    SubsetCard(a, b - {x});
  }

  /** A process that has the removed file open, and a new one, come to hold the lock both. */
  lemma TwoHold(s: State, p: nat, q: nat)
    requires Inv(s) && p in s.handles && q !in s.handles && p != q
    requires s.handles[p].held || !Taken(s, s.handles[p].inode)
    ensures var t := After(Apply(s, Remove), [] + [Lock(p)] + [Open(q)] + [Lock(q)]); Holds(t, p) && Holds(t, q)
  {
    var a := Apply(s, Remove);
    var b := Apply(a, Lock(p));
    var c := Apply(b, Open(q));
    AfterSnoc(a, [], Lock(p));
    AfterSnoc(a, [] + [Lock(p)], Open(q));
    AfterSnoc(a, [] + [Lock(p)] + [Open(q)], Lock(q));
    assert Taken(a, s.handles[p].inode) == Taken(s, s.handles[p].inode);
    assert !Taken(c, s.next);
  }

  lemma AfterSnoc(s: State, steps: seq<Step>, step: Step)
    ensures After(s, steps + [step]) == Apply(After(s, steps), step)
  {
    assert (steps + [step])[..|steps|] == steps;
  }

  /** While all open files are the one at the path, removing it keeps the lock exclusive, whatever openings, lockings
      and releases follow, exactly when nobody has it open. */
  lemma RemovalIsSafeExactly(s: State)
    requires Inv(s) && Current(s)
    ensures (forall steps | NoRemoval(steps) :: Exclusive(After(Apply(s, Remove), steps))) <==> s.handles == map[]
  {
    var removed := Apply(s, Remove);
    StepKeepsInv(s, Remove);
    if s.handles == map[] {
      forall steps | NoRemoval(steps)
        ensures Exclusive(After(removed, steps))
      {
        assert forall i: nat :: QuietAt(removed, steps, i);
        QuietRunsAreExclusive(removed, steps);
      }
    } else {
      var p :| p in s.handles && (s.handles[p].held || !Taken(s, s.handles[p].inode));
      var q := Unused(s.handles);
      TwoHold(s, p, q);
      assert NoRemoval([] + [Lock(p)] + [Open(q)] + [Lock(q)]);
    }
  }

  /** The decommission of process 0 releases the lock, a handoff takes it, the decommission removes its path, and a third
      process takes the lock as well. */
  const OVERLAP: seq<Step> := [Open(0), Lock(0), Release(0), Open(1), Lock(1)]

  lemma DecommissionUnlocksOthers()
    ensures var t := After(Apply(After(INITIAL, OVERLAP), Remove), [] + [Lock(1)] + [Open(2)] + [Lock(2)]);
      Holds(t, 1) && Holds(t, 2)
  {
    assert OVERLAP == [] + [Open(0)] + [Lock(0)] + [Release(0)] + [Open(1)] + [Lock(1)];
    AfterSnoc(INITIAL, [], Open(0));
    AfterSnoc(INITIAL, [] + [Open(0)], Lock(0));
    AfterSnoc(INITIAL, [] + [Open(0)] + [Lock(0)], Release(0));
    AfterSnoc(INITIAL, [] + [Open(0)] + [Lock(0)] + [Release(0)], Open(1));
    AfterSnoc(INITIAL, [] + [Open(0)] + [Lock(0)] + [Release(0)] + [Open(1)], Lock(1));
    InvHolds(INITIAL, OVERLAP);
    var s := After(INITIAL, OVERLAP);
    assert s.handles == map[1 := Handle(0, true)];
    TwoHold(s, 1, 2);
  }
}
