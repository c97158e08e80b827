/** The launch loop of a probe pass: a channel of four tokens, one goroutine per
    picked Guard. */
module ProbeSlots {
  import opened Common

  const CONCURRENT := 4

  /** The loop puts a token into the channel and spawns the goroutine of the next target; the goroutine takes a token out
      after its probe ended. `inside` are the goroutines between the two, `started` the probes in the order they began. */
  datatype Slots = Slots(tokens: nat, next: nat, inside: set<nat>, spawned: set<nat>, ended: set<nat>, started: seq<nat>)

  datatype Event = Spawn | Start(probe: nat) | End(probe: nat) | Release(probe: nat)

  /** Probes that have begun and not ended. */
  function Running(s: Slots): set<nat> {
    s.inside - s.spawned - s.ended
  }

  function Turn(s: Slots, due: nat, e: Event): Slots {
    match e
    case Spawn =>
      if s.next < due && s.tokens < CONCURRENT
      then s.(tokens := s.tokens + 1, next := s.next + 1, inside := s.inside + {s.next}, spawned := s.spawned + {s.next}) else s
    case Start(p) => if p in s.spawned then s.(spawned := s.spawned - {p}, started := s.started + [p]) else s
    case End(p) => if p in Running(s) then s.(ended := s.ended + {p}) else s
    case Release(p) => if p in s.ended && s.tokens > 0 then s.(tokens := s.tokens - 1, inside := s.inside - {p}, ended := s.ended - {p}) else s
  }

  function Turns(due: nat, events: seq<Event>): Slots {
    if events == [] then Slots(0, 0, {}, {}, {}, []) else Turn(Turns(due, events[..|events| - 1]), due, events[|events| - 1])
  }

  /** The channel holds one token per goroutine inside. */
  ghost predicate TokensMatch(s: Slots) {
    && s.tokens == |s.inside| <= CONCURRENT && s.spawned <= s.inside && s.ended <= s.inside
    && (forall p | p in s.inside :: p < s.next)
  }

  /** Every target before `next` was started once, unless its goroutine has yet to run. */
  ghost predicate StartedOnce(s: Slots) {
    && (forall p | p in s.spawned :: p < s.next)
    && (forall i, j | 0 <= i < j < |s.started| :: s.started[i] != s.started[j])
    && (forall p: nat :: p in s.started <==> p < s.next && p !in s.spawned)
  }

  lemma TurnKeepsTokens(s: Slots, due: nat, e: Event)
    requires TokensMatch(s) && s.spawned !! s.ended
    ensures TokensMatch(Turn(s, due, e)) && Turn(s, due, e).spawned !! Turn(s, due, e).ended
  {
  }

  lemma TurnKeepsStarts(s: Slots, due: nat, e: Event)
    requires StartedOnce(s)
    ensures StartedOnce(Turn(s, due, e))
  {
  }

  lemma {:induction false} SlotsHold(due: nat, events: seq<Event>)
    ensures var s := Turns(due, events); TokensMatch(s) && s.spawned !! s.ended && StartedOnce(s) && s.next <= due
  {
    if events != [] {
      SlotsHold(due, events[..|events| - 1]);
      TurnKeepsTokens(Turns(due, events[..|events| - 1]), due, events[|events| - 1]);
      TurnKeepsStarts(Turns(due, events[..|events| - 1]), due, events[|events| - 1]);
    }
  }

  /** Never more than four probes are in flight, none is started twice or beyond the picks, and once the wait group is
      empty every target the loop came to was started exactly once. */
  lemma AtMostFourInFlight(due: nat, events: seq<Event>)
    ensures var s := Turns(due, events);
      && |Running(s)| <= CONCURRENT
      && (forall i, j | 0 <= i < j < |s.started| :: s.started[i] != s.started[j])
      && (forall p | p in s.started :: p < due)
      && (s.inside == {} ==> forall p: nat :: p in s.started <==> p < s.next)
  {
    SlotsHold(due, events);
    var s := Turns(due, events);
    SubsetCard(Running(s), s.inside);
  }
}
