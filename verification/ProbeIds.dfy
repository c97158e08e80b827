/** Names of round-trip probes: one command ID per Guard identity and six-hour
    window, with the window readable after the last colon. */
module ProbeIds {
  import opened Common
  import opened Numerals

  const PERIOD := 21_600_000_000_000 // six hours in nanoseconds
  const PERIOD_SECONDS := 21_600
  const SCOPE := "kombify.guard/round-trip-probe/v1"
  const NUL := "\U{0}"

  datatype Target = Target(tenant: string, server: string, agent: string, generation: int, mtls: bool)

  /** The text that is hashed: NUL-separated, with the credential generation of an HTTPS Guard. */
  function Identity(t: Target): string {
    SCOPE + (NUL + (t.tenant + (NUL + (t.agent + if t.generation > 0 then NUL + Format(t.generation, Decimal) else ""))))
  }

  /** The start of the window in Unix seconds; `now` counts nanoseconds. */
  function Window(now: int): int {
    now / PERIOD * PERIOD_SECONDS
  }

  const KIND := "guard-probe:"

  /** `tag` is the first 24 hex digits of the hash. */
  function CommandId(tag: string -> string, t: Target, now: int): string {
    KIND + tag(Identity(t)) + ":" + Format(Window(now), ThirtySix)
  }

  /** What follows the last colon, or the whole text when there is none. */
  function AfterLastColon(id: string): string {
    if ':' !in id then id
    else if id[|id| - 1] == ':' then ""
    else AfterLastColon(id[..|id| - 1]) + [id[|id| - 1]]
  }

  lemma {:induction false} LastColonSplits(head: string, suffix: string)
    requires ':' !in suffix
    ensures AfterLastColon(head + ":" + suffix) == suffix
  {
    var id := head + ":" + suffix;
    assert id[|head|] == ':';
    if suffix != "" {
      var n := |suffix| - 1;
      LastColonSplits(head, suffix[..n]);
      assert id[..|id| - 1] == head + ":" + suffix[..n];
      assert suffix == suffix[..n] + [suffix[n]];
    }
  }

  /** The window can be read back from the command ID alone. */
  lemma WindowIsRecoverable(tag: string -> string, t: Target, now: int)
    ensures AfterLastColon(CommandId(tag, t, now)) == Format(Window(now), ThirtySix)
    ensures Read(AfterLastColon(CommandId(tag, t, now)), ThirtySix) == Window(now)
  {
    FormatInverts(Window(now), ThirtySix);
    LastColonSplits(KIND + tag(Identity(t)), Format(Window(now), ThirtySix));
  }

  // ---------------------------------------------------------------- which probes share an ID

  ghost predicate SameGuard(a: Target, b: Target) {
    && a.tenant == b.tenant && a.agent == b.agent
    && (a.generation == b.generation || (a.generation <= 0 && b.generation <= 0))
  }

  ghost predicate Plain(t: Target) {
    '\U{0}' !in t.tenant && '\U{0}' !in t.agent
  }

  function Generation(t: Target): string {
    if t.generation > 0 then NUL + Format(t.generation, Decimal) else ""
  }

  lemma IdentityInjective(a: Target, b: Target)
    requires Plain(a) && Plain(b) && Identity(a) == Identity(b)
    ensures SameGuard(a, b)
  {
    var restA, restB := NUL + (a.agent + Generation(a)), NUL + (b.agent + Generation(b));
    Cancels(SCOPE, NUL + (a.tenant + restA), NUL + (b.tenant + restB));
    Cancels(NUL, a.tenant + restA, b.tenant + restB);
    SplitsOnce('\U{0}', a.tenant, b.tenant, restA, restB);
    Cancels(NUL, a.agent + Generation(a), b.agent + Generation(b));
    SplitsOnce('\U{0}', a.agent, b.agent, Generation(a), Generation(b));
    if a.generation > 0 && b.generation > 0 {
      Cancels(NUL, Format(a.generation, Decimal), Format(b.generation, Decimal));
      FormatInverts(a.generation, Decimal);
      FormatInverts(b.generation, Decimal);
    }
  }

  lemma SameIdSameParts(x: string, y: string, v: string, w: string)
    requires ':' !in v && ':' !in w && KIND + x + ":" + v == KIND + y + ":" + w
    ensures x == y && v == w
  {
    LastColonSplits(KIND + x, v);
    LastColonSplits(KIND + y, w);
    assert KIND + x + ":" + v == (KIND + x) + (":" + v);
    assert KIND + y + ":" + w == (KIND + y) + (":" + w);
    SplitAtLength(KIND + x, KIND + y, ":" + v, ":" + w);
    Cancels(KIND, x, y);
  }

  /** Two probes share a command ID exactly when they are for one Guard identity in one window. */
  lemma CommandIdsMeetExactly(tag: string -> string, a: Target, b: Target, nowA: int, nowB: int)
    requires Plain(a) && Plain(b)
    requires forall x, y :: tag(x) == tag(y) ==> x == y
    ensures CommandId(tag, a, nowA) == CommandId(tag, b, nowB) <==> SameGuard(a, b) && nowA / PERIOD == nowB / PERIOD
  {
    if CommandId(tag, a, nowA) == CommandId(tag, b, nowB) {
      FormatInverts(Window(nowA), ThirtySix);
      FormatInverts(Window(nowB), ThirtySix);
      SameIdSameParts(tag(Identity(a)), tag(Identity(b)), Format(Window(nowA), ThirtySix), Format(Window(nowB), ThirtySix));
      IdentityInjective(a, b);
    }
  }

  // ---------------------------------------------------------------- the per-process cache

  datatype Cache = Cache(window: string, sent: set<string>)

  const EMPTY := Cache("", {})

  function Marked(c: Cache, id: string): Cache {
    if c.window != AfterLastColon(id) then Cache(AfterLastColon(id), {id}) else c.(sent := c.sent + {id})
  }

  predicate Spent(c: Cache, id: string) {
    c.window == AfterLastColon(id) && id in c.sent
  }

  function Cached(marks: seq<string>): Cache {
    if marks == [] then EMPTY else Marked(Cached(marks[..|marks| - 1]), marks[|marks| - 1])
  }

  /** Marked at some moment, with nothing of another window marked since. */
  ghost predicate InLatestStreak(marks: seq<string>, id: string) {
    exists i :: 0 <= i < |marks| && marks[i] == id && (forall j | i <= j < |marks| :: AfterLastColon(marks[j]) == AfterLastColon(id))
  }

  /** Every cached ID belongs to the cached window, and an ID is spent exactly when it is in the latest streak. */
  lemma {:induction false} CacheHoldsLatestStreak(marks: seq<string>, id: string)
    ensures forall x | x in Cached(marks).sent :: AfterLastColon(x) == Cached(marks).window
    ensures Spent(Cached(marks), id) <==> InLatestStreak(marks, id)
  {
    if marks != [] {
      var n := |marks| - 1;
      var before, last := marks[..n], marks[n];
      CacheHoldsLatestStreak(before, id);
      StreakSnoc(before, last, id);
      assert before + [last] == marks;
      assert Cached(marks) == Marked(Cached(before), last);
    }
  }

  lemma StreakSnoc(before: seq<string>, last: string, id: string)
    ensures InLatestStreak(before + [last], id) <==>
      AfterLastColon(last) == AfterLastColon(id) && (last == id || InLatestStreak(before, id))
  {
    var marks := before + [last];
    if InLatestStreak(marks, id) {
      var i :| 0 <= i < |marks| && marks[i] == id && (forall j | i <= j < |marks| :: AfterLastColon(marks[j]) == AfterLastColon(id));
      assert AfterLastColon(marks[|before|]) == AfterLastColon(id);
      if i < |before| {
        assert forall j | i <= j < |before| :: AfterLastColon(before[j]) == AfterLastColon(marks[j]);
        assert before[i] == id;
      }
    }
    if AfterLastColon(last) == AfterLastColon(id) {
      if last == id {
        assert marks[|before|] == id;
      } else if InLatestStreak(before, id) {
        var i :| 0 <= i < |before| && before[i] == id && (forall j | i <= j < |before| :: AfterLastColon(before[j]) == AfterLastColon(id));
        assert marks[i] == id;
      }
    }
  }

  /** The cache object under its mutex. Probes over mTLS have no durable ID and are never cached. */
  class SentCache {
    var window: string
    var sent: set<string>

    function Value(): Cache
      reads this
    {
      Cache(window, sent)
    }

    constructor ()
      ensures Value() == EMPTY
    {
      window, sent := "", {};
    }

    method WindowSpent(tag: string -> string, t: Target, now: int) returns (spent: bool)
      ensures spent <==> !t.mtls && Spent(Value(), CommandId(tag, t, now))
    {
      if t.mtls { return false; }
      var id := CommandId(tag, t, now);
      spent := window == AfterLastColon(id) && id in sent;
    }

    method MarkWindowSpent(tag: string -> string, t: Target, now: int)
      modifies this
      ensures Value() == if t.mtls then old(Value()) else Marked(old(Value()), CommandId(tag, t, now))
      ensures !t.mtls ==> Spent(Value(), CommandId(tag, t, now))
    {
      if t.mtls { return; }
      var id := CommandId(tag, t, now);
      if window != AfterLastColon(id) { window, sent := AfterLastColon(id), {}; }
      sent := sent + {id};
    }
  }
}
