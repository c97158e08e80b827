/** Which tenant a cloud login resolves to: the chain of demo tenant, test
    tenant, organization claim, stored membership, listed organization and owner
    tenant. */
module TenantChoice {
  import opened Common
  import opened Sorting

  datatype Membership = Membership(tenant: string, provider: string, updatedAt: int)

  predicate IsOrg(tenant: string) {
    HasPrefix(TrimSpace(tenant), "org_")
  }

  /** The comparator of the stable sort: organizations first, then newest, then tenant id. */
  predicate Before(a: Membership, b: Membership) {
    if IsOrg(a.tenant) != IsOrg(b.tenant) then IsOrg(a.tenant)
    else if a.updatedAt == b.updatedAt then Leq(a.tenant, b.tenant) && a.tenant != b.tenant
    else a.updatedAt > b.updatedAt
  }

  lemma BeforeTransitive(a: Membership, b: Membership, c: Membership)
    requires Before(a, b) && Before(b, c)
    ensures Before(a, c)
  {
    if a.updatedAt == b.updatedAt == c.updatedAt && IsOrg(a.tenant) == IsOrg(b.tenant) == IsOrg(c.tenant) {
      LeqTransitive(a.tenant, b.tenant, c.tenant);
      if a.tenant == c.tenant { LeqAntisymmetric(a.tenant, b.tenant); }
    }
  }

  /** Neither comes first only when they name the same tenant, so being tied is transitive. */
  lemma TiesNameOneTenant(a: Membership, b: Membership)
    ensures !Before(a, b) && !Before(b, a) <==> a.tenant == b.tenant && a.updatedAt == b.updatedAt
  {
    LeqTotal(a.tenant, b.tenant);
  }

  /** Everything after an element does not precede it, also across elements in between. */
  lemma NotBeforeTransitive(a: Membership, b: Membership, c: Membership)
    requires !Before(b, a) && !Before(c, b)
    ensures !Before(c, a)
  {
    if Before(c, a) {
      if Before(a, b) {
        BeforeTransitive(c, a, b);
      } else {
        TiesNameOneTenant(a, b);
      }
    }
  }

  /** Stable insertion: an element goes after those it ties with. */
  function InsertMembership(m: Membership, xs: seq<Membership>): (r: seq<Membership>)
    ensures multiset(r) == multiset(xs) + multiset{m}
  {
    if xs == [] then [m]
    else if Before(m, xs[|xs| - 1]) then
      assert xs == xs[..|xs| - 1] + [xs[|xs| - 1]];
      InsertMembership(m, xs[..|xs| - 1]) + [xs[|xs| - 1]]
    else xs + [m]
  }

  function StableSort(xs: seq<Membership>): (r: seq<Membership>)
    ensures multiset(r) == multiset(xs)
  {
    if xs == [] then []
    else
      assert xs == xs[..|xs| - 1] + [xs[|xs| - 1]];
      InsertMembership(xs[|xs| - 1], StableSort(xs[..|xs| - 1]))
  }

  ghost predicate Ordered(xs: seq<Membership>) {
    forall i, j | 0 <= i < j < |xs| :: !Before(xs[j], xs[i])
  }

  lemma OrderedSnoc(xs: seq<Membership>, last: Membership)
    requires Ordered(xs) && forall m | m in xs :: !Before(last, m)
    ensures Ordered(xs + [last])
  {
  }

  lemma NothingPrecedesTheEnd(m: Membership, xs: seq<Membership>)
    requires xs != [] && Ordered(xs) && !Before(m, xs[|xs| - 1])
    ensures forall x | x in xs :: !Before(m, x)
  {
    var last := |xs| - 1;
    forall i | 0 <= i < last
      ensures !Before(m, xs[i])
    {
      NotBeforeTransitive(xs[i], xs[last], m);
    }
  }

  lemma InsertMembers(m: Membership, xs: seq<Membership>, x: Membership)
    requires x in InsertMembership(m, xs)
    ensures x == m || x in xs
  {
  }

  lemma BeforeAsymmetric(a: Membership, b: Membership)
    requires Before(a, b)
    ensures !Before(b, a)
  {
    if Before(b, a) { BeforeTransitive(a, b, a); }
  }

  lemma {:induction false} InsertKeepsOrder(m: Membership, xs: seq<Membership>)
    requires Ordered(xs)
    ensures Ordered(InsertMembership(m, xs))
  {
    if xs != [] {
      var n := |xs| - 1;
      if Before(m, xs[n]) {
        var r := InsertMembership(m, xs[..n]);
        InsertKeepsOrder(m, xs[..n]);
        BeforeAsymmetric(m, xs[n]);
        forall x | x in r
          ensures !Before(xs[n], x)
        {
          InsertMembers(m, xs[..n], x);
        }
        OrderedSnoc(r, xs[n]);
      } else {
        NothingPrecedesTheEnd(m, xs);
        OrderedSnoc(xs, m);
      }
    }
  }

  lemma {:induction false} StableSortOrders(xs: seq<Membership>)
    ensures Ordered(StableSort(xs))
  {
    if xs != [] {
      StableSortOrders(xs[..|xs| - 1]);
      InsertKeepsOrder(xs[|xs| - 1], StableSort(xs[..|xs| - 1]));
    }
  }

  /** The rows the membership rung considers.  After a successful organization lookup a cloud organization row
      counts only while that organization is still listed. */
  predicate Kept(m: Membership, listed: Option<seq<string>>) {
    || listed.None?
    || m.provider != "cloud" || !IsOrg(m.tenant)
    || exists i | 0 <= i < |listed.value| :: TrimSpace(listed.value[i]) == TrimSpace(m.tenant)
  }

  function Candidates(memberships: seq<Membership>, listed: Option<seq<string>>): seq<Membership> {
    Filter(memberships, m => Kept(m, listed))
  }

  /** preferredMembershipFromStoreFiltered on the rows the store returned. */
  function Preferred(memberships: seq<Membership>, listed: Option<seq<string>>): Option<Membership> {
    First(StableSort(Candidates(memberships, listed)))
  }

  function First(sorted: seq<Membership>): Option<Membership> {
    if sorted == [] || TrimSpace(sorted[0].tenant) == "" then None else Some(sorted[0])
  }

  lemma {:induction false} SortedHeadIsMinimum(xs: seq<Membership>)
    requires xs != []
    ensures StableSort(xs) != [] && StableSort(xs)[0] in xs
    ensures forall m | m in xs :: !Before(m, StableSort(xs)[0])
  {
    var r := StableSort(xs);
    StableSortOrders(xs);
    assert |multiset(r)| == |r| && |multiset(xs)| == |xs|;
    assert r[0] in multiset(r);
    forall m | m in xs ensures !Before(m, r[0]) {
      assert m in multiset(xs);
      var k :| 0 <= k < |r| && r[k] == m;
    }
  }

  /** The pick is a kept row that no kept row precedes. */
  lemma {:induction false} PreferredIsMinimum(memberships: seq<Membership>, listed: Option<seq<string>>)
    requires Preferred(memberships, listed).Some?
    ensures var picked := Preferred(memberships, listed).value;
      picked in memberships && Kept(picked, listed) && forall m | m in memberships && Kept(m, listed) :: !Before(m, picked)
  {
    SortedHeadIsMinimum(Candidates(memberships, listed));
  }

  /** An organization tenant wins whenever one is kept. */
  lemma {:induction false} OrganizationWins(memberships: seq<Membership>, listed: Option<seq<string>>, m: Membership)
    requires m in memberships && Kept(m, listed) && IsOrg(m.tenant)
    ensures Preferred(memberships, listed).Some? && IsOrg(Preferred(memberships, listed).value.tenant)
  {
    SortedHeadIsMinimum(Candidates(memberships, listed));
  }

  /** After a successful lookup the membership rung never picks a cloud organization that is no longer listed. */
  lemma {:induction false} StaleOrganizationNeverPicked(memberships: seq<Membership>, organizations: seq<string>)
    ensures var picked := Preferred(memberships, Some(organizations));
      picked.Some? && picked.value.provider == "cloud" && IsOrg(picked.value.tenant) ==>
        exists i | 0 <= i < |organizations| :: TrimSpace(organizations[i]) == TrimSpace(picked.value.tenant)
  {
    if Preferred(memberships, Some(organizations)).Some? { PreferredIsMinimum(memberships, Some(organizations)); }
  }

  function TenantOf(m: Option<Membership>): Option<string> {
    if m.Some? then Some(m.value.tenant) else None
  }

  /** The same rows are kept, whatever order rows and organizations arrive in. */
  lemma {:induction false} CandidatesMatch(ms: seq<Membership>, ms': seq<Membership>, listed: Option<seq<string>>, listed': Option<seq<string>>)
    requires multiset(ms) == multiset(ms') && listed.Some? == listed'.Some?
    requires listed.Some? ==> multiset(listed.value) == multiset(listed'.value)
    ensures forall m :: m in Candidates(ms, listed) <==> m in Candidates(ms', listed')
  {
    if listed.Some? { SameMembers(listed.value, listed'.value); }
    forall m ensures m in Candidates(ms, listed) <==> m in Candidates(ms', listed') {
      assert (m in ms <==> m in multiset(ms)) && (m in ms' <==> m in multiset(ms'));
      if listed.Some? {
        if i :| 0 <= i < |listed.value| && TrimSpace(listed.value[i]) == TrimSpace(m.tenant) {
          assert listed.value[i] in listed'.value;
        }
        if i :| 0 <= i < |listed'.value| && TrimSpace(listed'.value[i]) == TrimSpace(m.tenant) {
          assert listed'.value[i] in listed.value;
        }
      }
    }
  }

  /** Lists with the same members have heads that name one tenant. */
  lemma {:induction false} HeadsTie(a: seq<Membership>, b: seq<Membership>)
    requires a != [] && b != [] && forall m :: m in a <==> m in b
    ensures StableSort(a) != [] && StableSort(b) != [] && StableSort(a)[0].tenant == StableSort(b)[0].tenant
  {
    SortedHeadIsMinimum(a);
    SortedHeadIsMinimum(b);
    var x, y := StableSort(a)[0], StableSort(b)[0];
    TiesNameOneTenant(x, y);
  }

  lemma {:induction false} PreferredIgnoresOrder(ms: seq<Membership>, ms': seq<Membership>, listed: Option<seq<string>>, listed': Option<seq<string>>)
    requires multiset(ms) == multiset(ms') && listed.Some? == listed'.Some?
    requires listed.Some? ==> multiset(listed.value) == multiset(listed'.value)
    ensures TenantOf(Preferred(ms, listed)) == TenantOf(Preferred(ms', listed'))
  {
    CandidatesMatch(ms, ms', listed, listed');
    FirstIgnoresOrder(Candidates(ms, listed), Candidates(ms', listed'));
  }

  lemma FirstIgnoresOrder(a: seq<Membership>, b: seq<Membership>)
    requires forall m :: m in a <==> m in b
    ensures TenantOf(First(StableSort(a))) == TenantOf(First(StableSort(b)))
  {
    assert (a != [] ==> a[0] in b) && (b != [] ==> b[0] in a);
    if a != [] { HeadsTie(a, b); }
  }

  /** What the chain asks about the identity before it looks at memberships. */
  datatype Identity = Identity(subject: string, demoTenant: Option<string>, testTenant: Option<string>, orgClaims: seq<string>)

  function FirstClaim(values: seq<string>): string {
    if values == [] then "" else if TrimSpace(values[0]) != "" then TrimSpace(values[0]) else FirstClaim(values[1..])
  }

  /** The rungs in order, given what the membership and the organization rung offer. */
  function Rungs(id: Identity, membership: Option<string>, organization: Option<string>): Option<string> {
    var subject := TrimSpace(id.subject);
    if subject == "" then None
    else if id.demoTenant.Some? && id.demoTenant.value != "" then id.demoTenant
    else if id.testTenant.Some? then id.testTenant
    else if FirstClaim(id.orgClaims) != "" then Some(FirstClaim(id.orgClaims))
    else if membership.Some? then Some(TrimSpace(membership.value))
    else if organization.Some? then organization
    else Some("usr:" + subject)
  }

  /** The first listed organization of a sorted copy. */
  function Organization(listed: Option<seq<string>>): Option<string> {
    if listed.Some? && listed.value != [] then Some(SortedCopy(listed.value)[0]) else None
  }

  /** v2CloudTenantResolver.  `listed` is None when no lister is configured or the lookup failed, `memberships`
      is empty when the store is missing or failed. */
  function Resolve(id: Identity, memberships: seq<Membership>, listed: Option<seq<string>>): Option<string> {
    Rungs(id, TenantOf(Preferred(memberships, listed)), Organization(listed))
  }

  lemma OrganizationIgnoresOrder(listed: Option<seq<string>>, listed': Option<seq<string>>)
    requires listed.Some? == listed'.Some?
    requires listed.Some? ==> multiset(listed.value) == multiset(listed'.value)
    ensures Organization(listed) == Organization(listed')
  {
    if listed.Some? {
      SortedCopiesAgree(listed.value, listed'.value);
      assert |multiset(listed.value)| == |listed.value| && |multiset(listed'.value)| == |listed'.value|;
    }
  }

  /** The resolved tenant is the same for every permutation of the memberships and of the organizations. */
  lemma {:induction false} ResolutionIgnoresOrder(id: Identity, ms: seq<Membership>, ms': seq<Membership>, listed: Option<seq<string>>, listed': Option<seq<string>>)
    requires multiset(ms) == multiset(ms') && listed.Some? == listed'.Some?
    requires listed.Some? ==> multiset(listed.value) == multiset(listed'.value)
    ensures Resolve(id, ms, listed) == Resolve(id, ms', listed')
  {
    PreferredIgnoresOrder(ms, ms', listed, listed');
    OrganizationIgnoresOrder(listed, listed');
  }

  /** Resolution fails closed exactly on a blank subject. */
  lemma FailsOnBlankSubjectExactly(id: Identity, ms: seq<Membership>, listed: Option<seq<string>>)
    ensures Resolve(id, ms, listed).None? <==> TrimSpace(id.subject) == ""
  {
  }

  /** The demo rung takes the identity; an empty demo tenant does not. */
  predicate IsDemo(id: Identity) {
    id.demoTenant.Some? && id.demoTenant.value != ""
  }

  /** The answer is blank exactly when no rung before the organizations takes the identity and a blank one is listed, or
      when the test tenant itself is blank. */
  lemma {:induction false} BlankTenantExactly(id: Identity, ms: seq<Membership>, listed: Option<seq<string>>)
    ensures Resolve(id, ms, listed) == Some("") <==>
              && TrimSpace(id.subject) != "" && !IsDemo(id)
              && if id.testTenant.Some? then id.testTenant.value == ""
                 else FirstClaim(id.orgClaims) == "" && Preferred(ms, listed).None? && listed.Some? && "" in listed.value
  {
    if listed.Some? && listed.value != [] {
      SortedHead(listed.value);
      if "" in listed.value { LeqAntisymmetric(SortedCopy(listed.value)[0], ""); }
    }
  }

  /** A row that no kept row precedes. */
  ghost predicate Leads(ms: seq<Membership>, listed: Option<seq<string>>, m: Membership) {
    m in ms && Kept(m, listed) && forall k | k in ms && Kept(k, listed) :: !Before(k, m)
  }

  /** A membership is picked exactly when a leading row names a tenant: a blank row in the lead hides all others. */
  lemma PickedExactly(ms: seq<Membership>, listed: Option<seq<string>>)
    ensures Preferred(ms, listed).Some? <==> exists m :: Leads(ms, listed, m) && TrimSpace(m.tenant) != ""
  {
    var candidates := Candidates(ms, listed);
    if candidates != [] {
      SortedHeadIsMinimum(candidates);
      var head := StableSort(candidates)[0];
      assert Leads(ms, listed, head);
      forall m | Leads(ms, listed, m)
        ensures m.tenant == head.tenant
      {
        assert m in candidates;
        TiesNameOneTenant(m, head);
      }
    }
  }

  /** A newer row with a blank tenant hides a membership that would be picked alone. */
  lemma BlankRowHides(m: Membership, blank: Membership)
    requires !IsOrg(m.tenant) && TrimSpace(m.tenant) != "" && TrimSpace(blank.tenant) == "" && blank.updatedAt > m.updatedAt
    ensures Preferred([m], None).Some? && Preferred([m, blank], None).None?
  {
    assert Leads([m], None, m);
    PickedExactly([m], None);
    PickedExactly([m, blank], None);
    assert !IsOrg(blank.tenant);
    assert Before(blank, m) && blank in [m, blank];
  }

  lemma CandidatesStep(memberships: seq<Membership>, listed: Option<seq<string>>, i: nat)
    requires i < |memberships|
    ensures Candidates(memberships[..i + 1], listed) ==
      if Kept(memberships[i], listed) then Candidates(memberships[..i], listed) + [memberships[i]] else Candidates(memberships[..i], listed)
  {
    assert memberships[..i + 1] == memberships[..i] + [memberships[i]];
    FilterConcat(memberships[..i], [memberships[i]], m => Kept(m, listed));
  }

  method KeepMemberships(memberships: seq<Membership>, listed: Option<seq<string>>) returns (kept: seq<Membership>)
    ensures kept == Candidates(memberships, listed)
  {
    kept := [];
    for i := 0 to |memberships|
      invariant kept == Candidates(memberships[..i], listed)
    {
      CandidatesStep(memberships, listed, i);
      if Kept(memberships[i], listed) { kept := kept + [memberships[i]]; }
    }
    assert memberships[..|memberships|] == memberships;
  }

  method SortMemberships(kept: seq<Membership>) returns (sorted: seq<Membership>)
    ensures sorted == StableSort(kept) && Ordered(sorted)
  {
    sorted := [];
    for i := 0 to |kept|
      invariant sorted == StableSort(kept[..i])
    {
      assert kept[..i + 1][..i] == kept[..i];
      sorted := InsertMembership(kept[i], sorted);
    }
    assert kept[..|kept|] == kept;
    StableSortOrders(kept);
  }

  /** The filter, the stable sort of the copy and the pick, as the source's loops perform them. */
  method PickMembership(memberships: seq<Membership>, listed: Option<seq<string>>) returns (picked: Option<Membership>)
    ensures picked == Preferred(memberships, listed)
  {
    var kept := KeepMemberships(memberships, listed);
    var sorted := SortMemberships(kept);
    if sorted == [] || TrimSpace(sorted[0].tenant) == "" { return None; }
    picked := Some(sorted[0]);
  }
}
