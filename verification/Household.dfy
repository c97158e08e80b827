/** The reconciler of interrupted household commands: it reads the household
    list and decides whether the command is converged, not applied, or needs an
    operator. */
module Household {
  import opened Common
  import opened Sorting

  /** The `apps` value of a listed member as the reader decodes it.  A JSON null decodes to the empty text. */
  datatype Apps = Text(text: string) | List(apps: seq<string>) | Unreadable

  datatype Member = Member(username: string, apps: Apps)

  type Members = map<string, Member>

  datatype Operation = Project | Remove | UpdateApps

  datatype Request = Request(operation: Operation, workspace: string, username: string, appsSet: bool, apps: seq<string>)

  /** `users` is None unless the list command reported success with a user list. */
  datatype Observation = Observation(supported: bool, exitCode: int, workspace: string, users: Option<seq<Member>>)

  datatype Resolution = Escalated(reason: string) | NotApplied | Converged

  // ---------------------------------------------------------------- reading the list

  predicate Readable(users: seq<Member>) {
    && (forall i | 0 <= i < |users| :: TrimSpace(users[i].username) != "")
    && (forall i, j | 0 <= i < j < |users| :: users[i].username != users[j].username)
  }

  predicate Names(users: seq<Member>, name: string) {
    exists i | 0 <= i < |users| :: users[i].username == name
  }

  /** Each member under its own name and nobody else. */
  ghost predicate Holds(members: Members, users: seq<Member>) {
    && (forall i | 0 <= i < |users| :: users[i].username in members && members[users[i].username] == users[i])
    && (forall name | name in members :: Names(users, name))
  }

  /** The rows entered one by one, each under its own name. */
  function Listed(users: seq<Member>): Members {
    if users == [] then map[]
    else
      var last := users[|users| - 1];
      Listed(users[..|users| - 1])[last.username := last]
  }

  lemma NamesSnoc(users: seq<Member>, last: Member, name: string)
    ensures Names(users + [last], name) <==> Names(users, name) || last.username == name
  {
    var all := users + [last];
    assert all[|users|] == last;
    if i :| 0 <= i < |users| && users[i].username == name { assert all[i].username == name; }
  }

  lemma {:induction false} ListedNames(users: seq<Member>, name: string)
    ensures name in Listed(users) <==> Names(users, name)
  {
    if users != [] {
      var rest, last := users[..|users| - 1], users[|users| - 1];
      assert users == rest + [last];
      ListedNames(rest, name);
      NamesSnoc(rest, last, name);
    }
  }

  lemma ReadableSnoc(users: seq<Member>, last: Member)
    ensures Readable(users + [last]) <==> Readable(users) && TrimSpace(last.username) != "" && !Names(users, last.username)
  {
    var all := users + [last];
    assert all[..|users|] == users && all[|users|] == last;
    if Readable(all) {
      ReadablePrefix(all, |users|);
      forall i | 0 <= i < |users| ensures users[i].username != last.username {
        assert all[i].username != all[|users|].username;
      }
    }
  }

  lemma {:induction false} ListedHolds(users: seq<Member>)
    requires Readable(users)
    ensures Holds(Listed(users), users)
  {
    forall name | name in Listed(users) ensures Names(users, name) { ListedNames(users, name); }
    forall i | 0 <= i < |users| ensures users[i].username in Listed(users) && Listed(users)[users[i].username] == users[i] {
      ListedAt(users, i);
    }
  }

  lemma {:induction false} ListedAt(users: seq<Member>, i: nat)
    requires Readable(users) && i < |users|
    ensures users[i].username in Listed(users) && Listed(users)[users[i].username] == users[i]
  {
    var n := |users| - 1;
    if i < n {
      assert users[i].username != users[n].username;
      ListedAt(users[..n], i);
    }
  }

  /** parseHouseholdList on the decoded rows: unreadable exactly when a name is blank or repeated. */
  method ParseHouseholdList(users: seq<Member>) returns (members: Members, ok: bool)
    ensures ok <==> Readable(users)
    ensures ok ==> members == Listed(users) && Holds(members, users)
  {
    members := map[];
    for i := 0 to |users|
      invariant Readable(users[..i]) && members == Listed(users[..i])
    {
      var member := users[i];
      assert users[..i + 1] == users[..i] + [member];
      ListedNames(users[..i], member.username);
      ReadableSnoc(users[..i], member);
      if member.username in members || TrimSpace(member.username) == "" {
        ok := false;
        ReadablePrefix(users, i + 1);
        return;
      }
      members := members[member.username := member];
    }
    assert users[..|users|] == users;
    ListedHolds(users);
    ok := true;
  }

  lemma ReadablePrefix(users: seq<Member>, n: nat)
    requires n <= |users|
    ensures Readable(users) ==> Readable(users[..n])
  {
  }

  // ---------------------------------------------------------------- the decision

  predicate AppsMatch(observed: Apps, appsSet: bool, desired: seq<string>) {
    match observed
    case Text(text) => text == "all" && !appsSet
    case List(apps) => appsSet && SortedCopy(apps) == SortedCopy(desired)
    case Unreadable => false
  }

  function Decide(members: Members, request: Request): Resolution {
    var username := TrimSpace(request.username);
    if request.operation.Project? then NotApplied
    else if username == "" then Escalated("household_command_member_not_recorded")
    else
      var present := username in members;
      var converged := if request.operation.UpdateApps?
                       then present && AppsMatch(members[username].apps, request.appsSet, request.apps)
                       else !present;
      if converged then Converged else NotApplied
  }

  /** reconcileHousehold; `clean` is filepath.Clean and `seen` is None when the list could not be read at all. */
  function Reconcile(clean: string -> string, seen: Option<Observation>, request: Request): Resolution {
    if seen.None? || !seen.value.supported || seen.value.exitCode != 0 || seen.value.workspace == ""
    then Escalated("household_list_unavailable")
    else if clean(TrimSpace(request.workspace)) != seen.value.workspace then Escalated("household_command_workspace_not_observed")
    else if seen.value.users.None? || !Readable(seen.value.users.value) then Escalated("household_list_unreadable")
    else Decide(Listed(seen.value.users.value), request)
  }

  // ---------------------------------------------------------------- what the command does

  function Grant(request: Request): Apps {
    if request.appsSet then List(request.apps) else Text("all")
  }

  /** A removal deletes the member; an app update sets the whole grant of a present member. */
  function Run(members: Members, request: Request): Members {
    var username := TrimSpace(request.username);
    match request.operation
    case Project => members
    case Remove => members - {username}
    case UpdateApps =>
      if username in members then members[username := members[username].(apps := Grant(request))] else members
  }

  /** Grants are the same when they list the same apps, in any order. */
  ghost predicate SameApps(a: Apps, b: Apps) {
    match (a, b)
    case (Text(x), Text(y)) => x == y
    case (List(x), List(y)) => multiset(x) == multiset(y)
    case (Unreadable, Unreadable) => true
    case _ => false
  }

  ghost predicate SameHousehold(a: Members, b: Members) {
    a.Keys == b.Keys && forall name | name in a :: a[name].username == b[name].username && SameApps(a[name].apps, b[name].apps)
  }

  /** Sorted equality of the app lists is equality of the grants. */
  lemma AppsMatchIsSameGrant(observed: Apps, request: Request)
    ensures AppsMatch(observed, request.appsSet, request.apps) <==> SameApps(Grant(request), observed)
  {
    if observed.List? { SortedCopiesAgree(observed.apps, request.apps); }
  }

  lemma NobodyIsBlank(users: seq<Member>)
    requires Readable(users)
    ensures "" !in Listed(users)
  {
    ListedNames(users, "");
    assert TrimSpace("") == "";
  }

  /** An app update of a present member changes nothing exactly when the grant is already the requested one. */
  lemma UpdateChangesNothing(members: Members, request: Request)
    requires request.operation.UpdateApps? && TrimSpace(request.username) in members
    ensures SameHousehold(Run(members, request), members) <==> AppsMatch(members[TrimSpace(request.username)].apps, request.appsSet, request.apps)
  {
    var username := TrimSpace(request.username);
    AppsMatchIsSameGrant(members[username].apps, request);
    var after := Run(members, request);
    assert SameApps(after[username].apps, members[username].apps) <==> SameApps(Grant(request), members[username].apps);
  }

  /** "Converged exactly when running the command would change nothing" holds, on every readable list, exactly for
      removals and app updates that name a member, and for an update only when that member is there. A projection, a
      command without a recorded member and an update of an absent member change nothing and are never converged. */
  lemma ConvergedMeansNoChangeExactly(users: seq<Member>, request: Request)
    requires Readable(users)
    ensures var members, username := Listed(users), TrimSpace(request.username);
      (Decide(members, request) == Converged <==> SameHousehold(Run(members, request), members)) <==>
      !request.operation.Project? && username != "" && (request.operation.Remove? || username in members)
  {
    var members, username := Listed(users), TrimSpace(request.username);
    NobodyIsBlank(users);
    if request.operation.UpdateApps? && username in members {
      UpdateChangesNothing(members, request);
    } else if request.operation.Remove? {
      assert username in members ==> username !in Run(members, request);
      assert username !in members ==> Run(members, request) == members;
    }
  }

  /** A not-applied removal or app update converges after one re-issue exactly when it is a removal or its member
      is present: an app update of an absent member stays not applied. */
  lemma ReissueConvergesExactly(members: Members, request: Request)
    requires !request.operation.Project? && TrimSpace(request.username) != ""
    requires Decide(members, request) == NotApplied
    ensures Decide(Run(members, request), request) == Converged <==>
              request.operation.Remove? || TrimSpace(request.username) in members
  {
  }

  /** The whole reconciliation of a readable list in the command's own workspace settles as the decision does, and
      never claims that a projection converged. */
  lemma ReadableListDecides(clean: string -> string, seen: Observation, request: Request)
    requires seen.supported && seen.exitCode == 0 && seen.workspace != "" && clean(TrimSpace(request.workspace)) == seen.workspace
    requires seen.users.Some? && Readable(seen.users.value)
    ensures exists members :: Holds(members, seen.users.value) && Reconcile(clean, Some(seen), request) == Decide(members, request)
    ensures request.operation.Project? ==> Reconcile(clean, Some(seen), request) == NotApplied
  {
    ListedHolds(seen.users.value);
  }
}
