/** The private LAN bridge: an HTTPS listener that workers on the local network
    register through. Its mutex guards the recorded server, the status, the
    advertised registry origin and the state file; a failed server reports from
    its own goroutine, some time after it died. */
module LanBridge {
  import opened Common

  datatype Status = Status(enabled: bool, origin: string, pin: string, address: string, error: string)

  const IDLE := Status(false, "", "", "", "")

  /** A server is serving, closed on purpose, dead with its failure handler still
      waiting for the lock, or dead with that handler done. */
  datatype Phase = Serving | Closed | Failing(error: string) | Settled

  /** What the resolver advertises to workers: the origin and the certificate pin. */
  datatype Advert = Advert(origin: string, pin: string)

  /** Servers are numbered in the order Enable created them. */
  datatype State = State(server: Option<nat>, status: Status, advertised: Option<Advert>, file: bool, servers: seq<Phase>)

  const INITIAL := State(None, IDLE, None, false, [])

  datatype Tried = Got(value: string) | Failed(error: string)

  /** How each call inside one Enable turns out. A failed write may still have created the state file. */
  datatype Attempt = Attempt(pin: Tried, address: Tried, listen: Option<string>, refused: Option<string>,
                             mkdir: Option<string>, write: Option<string>, leftover: bool)

  /** What Restore's Stat of the state file saw. It holds no lock, so this may be outdated. */
  datatype Seen = Present | Absent | Unreadable(error: string)

  datatype Step =
    | Enable(attempt: Attempt)
    | Disable(stop: Option<string>, remove: Option<string>)
    | Restore(seen: Seen, attempt: Attempt)
    | Shutdown(stop: Option<string>)
    | ServeFails(id: nat, error: string)
    | HandleFailure(id: nat)
    | Restart

  function Origin(address: string): string {
    "https://" + address + ":5264"
  }

  /** Enable under the lock, and the error it returns. */
  function Enabled(s: State, a: Attempt): (State, Option<string>) {
    if s.status.enabled then (s, None)
    else if a.pin.Failed? then (s.(status := s.status.(error := a.pin.error)), Some(a.pin.error))
    else if a.address.Failed? then (s.(status := s.status.(error := a.address.error)), Some(a.address.error))
    else if a.listen.Some? then (s.(status := s.status.(error := a.listen.value)), a.listen)
    else if a.refused.Some? then (s.(status := s.status.(error := a.refused.value)), a.refused)
    else if a.mkdir.Some? then (s.(advertised := None), a.mkdir)
    else if a.write.Some? then (s.(advertised := None, file := s.file || a.leftover), a.write)
    else
      var origin := Origin(a.address.value);
      (State(Some(|s.servers|), Status(true, origin, a.pin.value, a.address.value, ""),
             Some(Advert(origin, a.pin.value)), true, s.servers + [Serving]), None)
  }

  /** Shutdown of a server closes its listener whether or not it reports an error in time. */
  function Close(servers: seq<Phase>, id: nat): seq<Phase> {
    if id < |servers| && servers[id].Serving? then servers[id := Closed] else servers
  }

  function Stopped(s: State): State {
    s.(server := None, advertised := None, status := IDLE,
       servers := if s.server.Some? then Close(s.servers, s.server.value) else s.servers)
  }

  /** Only a recorded server can fail to shut down. */
  predicate StopFails(s: State, stop: Option<string>) {
    s.server.Some? && stop.Some?
  }

  function Disabled(s: State, stop: Option<string>, remove: Option<string>): State {
    Stopped(s).(file := s.file && (StopFails(s, stop) || remove.Some?))
  }

  predicate Waiting(s: State, id: nat) {
    id < |s.servers| && s.servers[id].Failing?
  }

  function Reported(s: State, id: nat): State {
    if !Waiting(s, id) then s
    else
      var settled := s.(servers := s.servers[id := Settled]);
      if s.server != Some(id) then settled
      else settled.(server := None, advertised := None, status := s.status.(enabled := false, error := s.servers[id].error))
  }

  function Apply(s: State, step: Step): State {
    match step
    case Enable(a) => Enabled(s, a).0
    case Disable(stop, remove) => Disabled(s, stop, remove)
    case Restore(seen, a) => if seen.Present? then Enabled(s, a).0 else s
    case Shutdown(_) => Stopped(s)
    case ServeFails(id, error) => if id < |s.servers| && s.servers[id].Serving? then s.(servers := s.servers[id := Failing(error)]) else s
    case HandleFailure(id) => Reported(s, id)
    case Restart => INITIAL.(file := s.file)
  }

  function After(s: State, steps: seq<Step>): State {
    if steps == [] then s else Apply(After(s, steps[..|steps| - 1]), steps[|steps| - 1])
  }

  function Exec(steps: seq<Step>): State {
    After(INITIAL, steps)
  }

  // ---------------------------------------------------------------- what every step keeps

  ghost predicate Agrees(s: State) {
    && (s.status.enabled <==> s.server.Some?)
    && s.advertised == (if s.status.enabled then Some(Advert(s.status.origin, s.status.pin)) else None)
    && (s.status.enabled ==> s.file)
    && (s.server.Some? ==> s.server.value < |s.servers| && (s.servers[s.server.value].Serving? || s.servers[s.server.value].Failing?))
    && (forall i | 0 <= i < |s.servers| && s.servers[i].Serving? :: s.server == Some(i))
  }

  lemma StepKeepsAgreement(s: State, step: Step)
    requires Agrees(s)
    ensures Agrees(Apply(s, step))
  {
    var s' := Apply(s, step);
    forall i | 0 <= i < |s'.servers| && s'.servers[i].Serving?
      ensures s'.server == Some(i)
    {
      if i < |s.servers| { assert s.servers[i].Serving?; }
    }
  }

  /** In every reachable state the status, the recorded server and the advertised origin agree,
      an enabled bridge has its state file, and no server but the recorded one is serving. */
  lemma {:induction false} AgreementHolds(steps: seq<Step>)
    ensures Agrees(Exec(steps))
  {
    if steps != [] {
      AgreementHolds(steps[..|steps| - 1]);
      StepKeepsAgreement(Exec(steps[..|steps| - 1]), steps[|steps| - 1]);
    }
  }

  ghost predicate Live(s: State) {
    exists i :: 0 <= i < |s.servers| && s.servers[i].Serving?
  }

  /** "Enabled means a server is live" is exactly as true as the recorded server's
      failure handler not being still on its way to the lock. */
  lemma EnabledMeansLiveExactly(steps: seq<Step>)
    ensures var s := Exec(steps);
      (s.status.enabled <==> Live(s)) <==> !(s.server.Some? && Waiting(s, s.server.value))
  {
    AgreementHolds(steps);
    var s := Exec(steps);
    if s.server.Some? && !Waiting(s, s.server.value) { assert s.servers[s.server.value].Serving?; }
  }

  /** The window is real: a bridge can report itself enabled over a dead server. */
  lemma EnabledMayBeDead(a: Attempt, error: string)
    requires a.pin.Got? && a.address.Got? && a.listen.None? && a.refused.None? && a.mkdir.None? && a.write.None?
    ensures var s := Exec([Enable(a), ServeFails(0, error)]);
      s.status.enabled && s.advertised.Some? && !Live(s)
  {
    var steps := [Enable(a), ServeFails(0, error)];
    assert steps[..1] == [Enable(a)] && steps[..1][..0] == [];
    assert After(INITIAL, steps[..1]) == Enabled(INITIAL, a).0;
    assert Exec(steps).servers == [Failing(error)];
  }

  // ---------------------------------------------------------------- older servers cannot disturb a newer one

  ghost predicate OtherFailures(steps: seq<Step>, id: nat) {
    forall i | 0 <= i < |steps| :: (steps[i].ServeFails? || steps[i].HandleFailure?) && steps[i].id != id
  }

  /** Failures of any other servers, in any order and number, leave a recorded server and all it published alone. */
  lemma {:induction false} OlderFailuresChangeNothing(s: State, id: nat, failures: seq<Step>)
    requires s.server == Some(id) && id < |s.servers| && OtherFailures(failures, id)
    ensures var t := After(s, failures);
      && (t.server, t.status, t.advertised, t.file) == (s.server, s.status, s.advertised, s.file)
      && |t.servers| == |s.servers| && t.servers[id] == s.servers[id]
  {
    if failures != [] {
      var n := |failures| - 1;
      assert failures[n].id != id;
      OlderFailuresChangeNothing(s, id, failures[..n]);
    }
  }

  /** Once the recorded server's failure has been handled nothing is advertised, nothing serves and the bridge is off. */
  lemma HandledFailureTurnsOff(steps: seq<Step>, id: nat)
    requires Exec(steps).server == Some(id) && Waiting(Exec(steps), id)
    ensures var t := Exec(steps + [HandleFailure(id)]);
      !t.status.enabled && t.advertised.None? && t.server.None? && !Live(t) && t.file
  {
    var s, longer := Exec(steps), steps + [HandleFailure(id)];
    assert longer[..|longer| - 1] == steps;
    AgreementHolds(steps);
    StepKeepsAgreement(s, HandleFailure(id));
    assert Exec(longer) == Apply(s, HandleFailure(id));
  }

  /** A bridge that was enabled when the process went down comes back when Restore's calls succeed. */
  lemma RestoreBringsBack(steps: seq<Step>, stop: Option<string>, a: Attempt)
    requires Exec(steps).status.enabled
    requires a.pin.Got? && a.address.Got? && a.listen.None? && a.refused.None? && a.mkdir.None? && a.write.None?
    ensures var down := Apply(Apply(Exec(steps), Shutdown(stop)), Restart);
      && down.file && !Live(down)
      && var up := Apply(down, Restore(Present, a));
         up.status.enabled && Live(up) && up.advertised == Some(Advert(Origin(a.address.value), a.pin.value))
  {
    AgreementHolds(steps);
    var down := Apply(Apply(Exec(steps), Shutdown(stop)), Restart);
    assert Apply(down, Restore(Present, a)).servers[0].Serving?;
  }

  // ---------------------------------------------------------------- the object under its mutex

  class Bridge {
    var server: Option<nat>
    var status: Status
    var advertised: Option<Advert>
    var file: bool
    var servers: seq<Phase>

    ghost function Value(): State
      reads this
    {
      State(server, status, advertised, file, servers)
    }

    constructor ()
      ensures Value() == INITIAL
    {
      server, status, advertised, file, servers := None, IDLE, None, false, [];
    }

    /** An error leaves no server recorded, nothing advertised and nothing newly serving. */
    method Enable(a: Attempt) returns (result: Status, err: Option<string>)
      requires Agrees(Value())
      modifies this
      ensures (Value(), err) == Enabled(old(Value()), a)
      ensures Agrees(Value()) && result == status
      ensures err.Some? ==> !status.enabled && advertised.None? && servers == old(servers)
      ensures err.None? ==> status.enabled && file
    {
      ghost var before := Value();
      StepKeepsAgreement(before, Step.Enable(a));
      if status.enabled { return status, None; }
      if a.pin.Failed? {
        status := status.(error := a.pin.error);
        return status, Some(a.pin.error);
      }
      if a.address.Failed? {
        status := status.(error := a.address.error);
        return status, Some(a.address.error);
      }
      if a.listen.Some? {
        status := status.(error := a.listen.value);
        return status, a.listen;
      }
      var origin := Origin(a.address.value);
      if a.refused.Some? {
        status := status.(error := a.refused.value);
        return status, a.refused;
      }
      advertised := Some(Advert(origin, a.pin.value));
      if a.mkdir.Some? {
        advertised := None;
        return status, a.mkdir;
      }
      if a.write.Some? {
        file := file || a.leftover;
        advertised := None;
        return status, a.write;
      }
      file := true;
      server := Some(|servers|);
      status := Status(true, origin, a.pin.value, a.address.value, "");
      servers := servers + [Serving];
      return status, None;
    }

    method StopLocked(stop: Option<string>) returns (err: Option<string>)
      requires Agrees(Value())
      modifies this
      ensures Value() == Stopped(old(Value()))
      ensures err == if StopFails(old(Value()), stop) then stop else None
      ensures Agrees(Value()) && !status.enabled && !Live(Value())
    {
      StepKeepsAgreement(Value(), Step.Shutdown(stop));
      var stopping := server;
      server, advertised, status := None, None, IDLE;
      if stopping.None? { return None; }
      servers := Close(servers, stopping.value);
      err := stop;
    }

    /** The state file survives a failed stop, so a later Restore would enable the bridge again. */
    method Disable(stop: Option<string>, remove: Option<string>) returns (result: Status, err: Option<string>)
      requires Agrees(Value())
      modifies this
      ensures Value() == Disabled(old(Value()), stop, remove)
      ensures Agrees(Value()) && result == status == IDLE
      ensures err.None? ==> !file
    {
      err := StopLocked(stop);
      if err.Some? { return status, err; }
      if file && remove.Some? { return status, remove; }
      file := false;
      result := status;
    }

    method Restore(seen: Seen, a: Attempt) returns (err: Option<string>)
      requires Agrees(Value())
      modifies this
      ensures Value() == Apply(old(Value()), Step.Restore(seen, a)) && Agrees(Value())
      ensures seen.Absent? ==> err.None?
    {
      if seen.Absent? { return None; }
      if seen.Unreadable? { return Some(seen.error); }
      var _, e := Enable(a);
      err := e;
    }

    /** The end of the serve goroutine: `error` is None when Serve was closed on purpose. */
    method ServeEnds(id: nat, error: Option<string>)
      requires Agrees(Value())
      requires error.Some? ==> Waiting(Value(), id) && servers[id].error == error.value
      modifies this
      ensures Value() == if error.None? then old(Value()) else Reported(old(Value()), id)
      ensures Agrees(Value())
    {
      if error.None? { return; }
      StepKeepsAgreement(Value(), Step.HandleFailure(id));
      servers := servers[id := Settled];
      if server != Some(id) { return; }
      server, advertised := None, None;
      status := status.(enabled := false, error := error.value);
    }
  }
}
