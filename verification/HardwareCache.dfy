/** The hardware cache of the Guard: inventory calls start a background probe at
    most every half hour and report the last good observation for a day. */
module HardwareCache {
  import opened Common

  const REFRESH := 1_800_000_000_000 // 30 minutes in nanoseconds
  const KEEP := 86_400_000_000_000   // 24 hours

  /** `started` is None for the zero time; `good` is meaningful while `last` is set. */
  datatype Cache<H> = Cache(started: Option<int>, good: int, last: Option<H>, running: bool)

  /** A call reads the clock up to three times; a probe completes with an observation or without one. */
  datatype Event<H> = Call(checkAt: int, startAt: int, readAt: int) | Done(at: int, observed: Option<H>)

  predicate Starts<H>(c: Cache<H>, now: int) {
    !c.running && (c.started.None? || now - c.started.value >= REFRESH)
  }

  function Called<H>(c: Cache<H>, e: Event<H>): Cache<H>
    requires e.Call?
  {
    var c' := if Starts(c, e.checkAt) then c.(running := true, started := Some(e.startAt)) else c;
    if c'.last.Some? && e.readAt - c'.good > KEEP then c'.(last := None) else c'
  }

  function Finished<H>(c: Cache<H>, e: Event<H>): Cache<H>
    requires e.Done?
  {
    if e.observed.Some? then c.(running := false, last := e.observed, good := e.at) else c.(running := false)
  }

  function Step<H>(c: Cache<H>, e: Event<H>): Cache<H> {
    if e.Call? then Called(c, e) else if c.running then Finished(c, e) else c
  }

  function Exec<H>(events: seq<Event<H>>): Cache<H> {
    if events == [] then Cache(None, 0, None, false)
    else Step(Exec(events[..|events| - 1]), events[|events| - 1])
  }

  /** The object under its mutex. */
  class LocalHardware<H(==)> {
    var started: Option<int>
    var good: int
    var last: Option<H>
    var running: bool

    function State(): Cache<H>
      reads this
    {
      Cache(started, good, last, running)
    }

    constructor ()
      ensures State() == Cache(None, 0, None, false)
    {
      started, good, last, running := None, 0, None, false;
    }

    /** current(): the result is what the cache holds afterwards. */
    method Current(checkAt: int, startAt: int, readAt: int) returns (hardware: Option<H>)
      modifies this
      ensures State() == Called(old(State()), Call(checkAt, startAt, readAt))
      ensures hardware == last
    {
      if !running && (started.None? || checkAt - started.value >= REFRESH) {
        running, started := true, Some(startAt);
      }
      if last.Some? && readAt - good > KEEP { last := None; }
      hardware := last;
    }

    /** The end of the background probe. */
    method Complete(at: int, observed: Option<H>)
      requires running
      modifies this
      ensures State() == Finished(old(State()), Done(at, observed))
    {
      running := false;
      if observed.Some? { last, good := observed, at; }
    }
  }

  // ---------------------------------------------------------------- the simple specification

  function EndOf<H>(e: Event<H>): int {
    if e.Call? then e.readAt else e.at
  }

  /** Non-decreasing clock readings, one event after another, and a probe completes only while one runs. */
  ghost predicate Run<H>(events: seq<Event<H>>) {
    events == [] ||
    (var before, e := events[..|events| - 1], events[|events| - 1];
     && Run(before)
     && (e.Call? ==> e.checkAt <= e.startAt <= e.readAt)
     && (before != [] ==> EndOf(before[|before| - 1]) <= if e.Call? then e.checkAt else e.at)
     && (e.Done? ==> Exec(before).running))
  }

  /** The latest successful observation and its time. */
  function LatestGood<H>(events: seq<Event<H>>): Option<(int, H)> {
    if events == [] then None
    else
      var e := events[|events| - 1];
      if e.Done? && e.observed.Some? then Some((e.at, e.observed.value)) else LatestGood(events[..|events| - 1])
  }

  /** What a reader expects: the latest successful observation while it is at most a day old. */
  function Expected<H>(events: seq<Event<H>>, now: int): Option<H> {
    match LatestGood(events)
    case None => None
    case Some((at, hardware)) => if now - at <= KEEP then Some(hardware) else None
  }

  /** The times at which probes were started. */
  function ProbeStarts<H>(events: seq<Event<H>>): seq<int> {
    if events == [] then []
    else
      var before, e := events[..|events| - 1], events[|events| - 1];
      ProbeStarts(before) + if e.Call? && Starts(Exec(before), e.checkAt) then [e.startAt] else []
  }

  function Completions<H>(events: seq<Event<H>>): nat {
    if events == [] then 0
    else Completions(events[..|events| - 1]) + if events[|events| - 1].Done? then 1 else 0
  }

  /** What the cache holds is the latest good observation, unless that was already too old at the last event. */
  ghost predicate Remembers<H>(events: seq<Event<H>>) {
    var c := Exec(events);
    && (c.last.Some? ==> LatestGood(events) == Some((c.good, c.last.value)))
    && (c.last.None? && LatestGood(events).Some? ==> events != [] && EndOf(events[|events| - 1]) - LatestGood(events).value.0 > KEEP)
  }

  lemma {:induction false} CacheRemembers<H>(events: seq<Event<H>>)
    requires Run(events)
    ensures Remembers(events)
  {
    if events != [] {
      var before, e := events[..|events| - 1], events[|events| - 1];
      CacheRemembers(before);
    }
  }

  /** Each returned value is the expected one, for every interleaving of calls and completions. */
  lemma ReturnsExpected<H>(events: seq<Event<H>>, call: Event<H>)
    requires call.Call? && Run(events + [call])
    ensures Exec(events + [call]).last == Expected(events, call.readAt)
  {
    assert (events + [call])[..|events|] == events;
    CacheRemembers(events);
  }

  /** At most one probe runs: starts and completions never drift apart by more than the running one. */
  lemma {:induction false} OneProbeRuns<H>(events: seq<Event<H>>)
    requires Run(events)
    ensures |ProbeStarts(events)| == Completions(events) + if Exec(events).running then 1 else 0
  {
    if events != [] { OneProbeRuns(events[..|events| - 1]); }
  }

  ghost predicate Spaced(starts: seq<int>) {
    forall i | 0 <= i < |starts| - 1 :: starts[i + 1] - starts[i] >= REFRESH
  }

  lemma SpacedSnoc(starts: seq<int>, next: int)
    requires Spaced(starts) && (starts != [] ==> next - starts[|starts| - 1] >= REFRESH)
    ensures Spaced(starts + [next])
  {
  }

  /** What the cache remembers as started is the latest probe start. */
  lemma {:induction false} StartedIsLatest<H>(events: seq<Event<H>>)
    ensures var starts := ProbeStarts(events);
      Exec(events).started == if starts == [] then None else Some(starts[|starts| - 1])
  {
    if events != [] {
      var before, e := events[..|events| - 1], events[|events| - 1];
      StartedIsLatest(before);
      if !(e.Call? && Starts(Exec(before), e.checkAt)) {
        assert ProbeStarts(events) == ProbeStarts(before);
        assert Exec(events).started == Exec(before).started;
      }
    }
  }

  /** Consecutive probes start at least half an hour apart. */
  lemma {:induction false} ProbesAreSpaced<H>(events: seq<Event<H>>)
    requires Run(events)
    ensures Spaced(ProbeStarts(events))
  {
    if events != [] {
      var before, e := events[..|events| - 1], events[|events| - 1];
      ProbesAreSpaced(before);
      StartedIsLatest(before);
      if e.Call? && Starts(Exec(before), e.checkAt) {
        SpacedSnoc(ProbeStarts(before), e.startAt);
      } else {
        assert ProbeStarts(events) == ProbeStarts(before);
      }
    }
  }
}
