/** The handoff receipts a server keeps for its next pairing: one per prior
    tenant, at most four, the newest last. */
module Receipts {
  import opened Common

  const MAX := 4

  /** A stored receipt: counts and digests of one completed handoff. */
  datatype Receipt = Receipt(tenant: string, handoff: string, entries: nat, commands: string, archive: string, removedAt: int)

  /** `later` replaces `r`: the same handoff, or another of the same prior tenant. */
  predicate Supersedes(later: Receipt, r: Receipt) {
    r.handoff == later.handoff || r.tenant == later.tenant
  }

  function Newest(xs: seq<Receipt>): seq<Receipt> {
    if |xs| > MAX then xs[|xs| - MAX..] else xs
  }

  function Surviving(receipts: seq<Receipt>, receipt: Receipt): seq<Receipt> {
    Filter(receipts, r => !Supersedes(receipt, r))
  }

  /** storeHandoffReceipt on the decoded list. */
  function Stored(receipts: seq<Receipt>, receipt: Receipt): seq<Receipt> {
    Newest(Surviving(receipts, receipt) + [receipt])
  }

  method StoreHandoffReceipt(receipts: seq<Receipt>, receipt: Receipt) returns (stored: seq<Receipt>)
    ensures stored == Stored(receipts, receipt)
    ensures stored != [] && stored[|stored| - 1] == receipt && |stored| <= MAX
  {
    var kept: seq<Receipt> := [];
    for i := 0 to |receipts|
      invariant kept == Surviving(receipts[..i], receipt)
    {
      assert receipts[..i + 1] == receipts[..i] + [receipts[i]];
      FilterConcat(receipts[..i], [receipts[i]], r => !Supersedes(receipt, r));
      if !Supersedes(receipt, receipts[i]) { kept := kept + [receipts[i]]; }
    }
    assert receipts[..|receipts|] == receipts;
    kept := kept + [receipt];
    stored := if |kept| > MAX then kept[|kept| - MAX..] else kept;
  }

  // ---------------------------------------------------------------- any sequence of stores

  function After(history: seq<Receipt>): seq<Receipt> {
    if history == [] then [] else Stored(After(history[..|history| - 1]), history[|history| - 1])
  }

  /** The history without every receipt that a later one superseded. */
  function Standing(history: seq<Receipt>): seq<Receipt> {
    if history == [] then []
    else Surviving(Standing(history[..|history| - 1]), history[|history| - 1]) + [history[|history| - 1]]
  }

  ghost predicate SupersededAt(history: seq<Receipt>, i: nat) {
    exists j :: i < j < |history| && i < |history| && Supersedes(history[j], history[i])
  }

  /** What stands is exactly what no later receipt superseded. */
  lemma {:induction false} StandingExactly(history: seq<Receipt>, r: Receipt)
    ensures r in Standing(history) <==> exists i: nat :: i < |history| && history[i] == r && !SupersededAt(history, i)
  {
    if history != [] {
      var n := |history| - 1;
      var before, last := history[..n], history[n];
      StandingExactly(before, r);
      assert !SupersededAt(history, n);
      forall i: nat | i < n
        ensures SupersededAt(history, i) <==> SupersededAt(before, i) || Supersedes(last, history[i])
      {
        SupersededSnoc(before, last, i);
        assert before + [last] == history;
      }
    }
  }

  lemma SupersededSnoc(before: seq<Receipt>, last: Receipt, i: nat)
    requires i < |before|
    ensures SupersededAt(before + [last], i) <==> SupersededAt(before, i) || Supersedes(last, before[i])
  {
    var history := before + [last];
    assert history[i] == before[i];
    if SupersededAt(history, i) {
      var j :| i < j < |history| && Supersedes(history[j], history[i]);
      assert j < |before| ==> history[j] == before[j];
    }
    if SupersededAt(before, i) {
      var j :| i < j < |before| && Supersedes(before[j], before[i]);
      assert history[j] == before[j];
    }
    if Supersedes(last, before[i]) { assert history[|before|] == last; }
  }

  lemma FilterSuffix(p: seq<Receipt>, xs: seq<Receipt>, keep: Receipt -> bool)
    requires Suffix(p, xs)
    ensures Suffix(Filter(p, keep), Filter(xs, keep))
  {
    var cut := |xs| - |p|;
    assert xs == xs[..cut] + p;
    FilterConcat(xs[..cut], p, keep);
  }

  lemma SuffixSnoc(p: seq<Receipt>, xs: seq<Receipt>, last: Receipt)
    requires Suffix(p, xs)
    ensures Suffix(p + [last], xs + [last]) && Suffix(Newest(p + [last]), xs + [last])
  {
  }

  ghost predicate Unrelated(xs: seq<Receipt>) {
    forall i, j | 0 <= i < j < |xs| :: xs[i].tenant != xs[j].tenant && xs[i].handoff != xs[j].handoff
  }

  lemma {:induction false} FilterKeepsUnrelated(xs: seq<Receipt>, keep: Receipt -> bool)
    requires Unrelated(xs)
    ensures Unrelated(Filter(xs, keep))
  {
    if xs != [] {
      var rest := xs[1..];
      FilterKeepsUnrelated(rest, keep);
      forall r | r in Filter(rest, keep)
        ensures r.tenant != xs[0].tenant && r.handoff != xs[0].handoff
      {
        var j :| 0 <= j < |rest| && rest[j] == r;
        assert xs[j + 1] == r;
      }
    }
  }

  lemma StoreKeepsSuffix(p: seq<Receipt>, xs: seq<Receipt>, last: Receipt)
    requires Suffix(p, xs)
    ensures Suffix(Stored(p, last), Surviving(xs, last) + [last])
  {
    FilterSuffix(p, xs, r => !Supersedes(last, r));
    SuffixSnoc(Surviving(p, last), Surviving(xs, last), last);
  }

  /** After any sequence of stores the list is a suffix of what stands in the history. */
  lemma {:induction false} ListIsStandingSuffix(history: seq<Receipt>)
    ensures Suffix(After(history), Standing(history))
  {
    if history != [] {
      ListIsStandingSuffix(history[..|history| - 1]);
      StoreKeepsSuffix(After(history[..|history| - 1]), Standing(history[..|history| - 1]), history[|history| - 1]);
    }
  }

  lemma StoredEnds(receipts: seq<Receipt>, receipt: Receipt)
    ensures var stored := Stored(receipts, receipt); 0 < |stored| <= MAX && stored[|stored| - 1] == receipt
  {
  }

  /** It holds at most four receipts of pairwise different tenants and handoffs and ends with the newest one. */
  lemma {:induction false} ListIsBounded(history: seq<Receipt>)
    ensures |After(history)| <= MAX && Unrelated(After(history))
    ensures history != [] ==> After(history) != [] && After(history)[|After(history)| - 1] == history[|history| - 1]
  {
    if history != [] {
      ListIsBounded(history[..|history| - 1]);
      StoreKeepsUnrelated(After(history[..|history| - 1]), history[|history| - 1]);
      StoredEnds(After(history[..|history| - 1]), history[|history| - 1]);
    }
  }

  lemma StoreKeepsUnrelated(receipts: seq<Receipt>, receipt: Receipt)
    requires Unrelated(receipts)
    ensures Unrelated(Stored(receipts, receipt))
  {
    FilterKeepsUnrelated(receipts, r => !Supersedes(receipt, r));
    var kept := Surviving(receipts, receipt);
    forall i | 0 <= i < |kept|
      ensures !Supersedes(receipt, kept[i])
    {
      assert kept[i] in kept;
    }
    assert Unrelated(kept + [receipt]);
  }

  /** How many of the surviving receipts the cap cuts off. */
  function Cut(kept: seq<Receipt>): nat {
    if |kept| + 1 > MAX then |kept| + 1 - MAX else 0
  }

  lemma StoredIsTail(receipts: seq<Receipt>, receipt: Receipt)
    ensures var kept := Surviving(receipts, receipt);
      Cut(kept) <= |kept| && Stored(receipts, receipt) == kept[Cut(kept)..] + [receipt]
  {
  }

  lemma UnrelatedSplit(xs: seq<Receipt>, n: nat, r: Receipt)
    requires Unrelated(xs) && n <= |xs| && r in xs[..n]
    ensures r !in xs[n..]
  {
    var i :| 0 <= i < n && xs[..n][i] == r;
    assert forall j | n <= j < |xs| :: xs[j].tenant != xs[i].tenant;
  }

  /** Storing drops an older receipt exactly when it supersedes it, or when four newer ones are kept. */
  lemma StoreDropsExactly(receipts: seq<Receipt>, receipt: Receipt, r: Receipt)
    requires Unrelated(receipts) && r in receipts && r != receipt
    ensures var kept := Surviving(receipts, receipt);
      r !in Stored(receipts, receipt) <==> Supersedes(receipt, r) || (Cut(kept) <= |kept| && r in kept[..Cut(kept)])
  {
    var kept := Surviving(receipts, receipt);
    StoredIsTail(receipts, receipt);
    FilterKeepsUnrelated(receipts, x => !Supersedes(receipt, x));
    assert kept == kept[..Cut(kept)] + kept[Cut(kept)..];
    assert Supersedes(receipt, r) <==> r !in kept;
    if r in kept[..Cut(kept)] { UnrelatedSplit(kept, Cut(kept), r); }
  }
}
