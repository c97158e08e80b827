/** Newline-joined text (strings.Join with "\n"), when it determines its parts,
    and two things built on it: the digest of a set of command IDs and the local
    device proof message. */
module Lines {
  import opened Common
  import opened Sorting

  function Join(parts: seq<string>): string {
    if parts == [] then "" else if |parts| == 1 then parts[0] else parts[0] + ("\n" + Join(parts[1..]))
  }

  /** What follows the first part. */
  function Rest(parts: seq<string>): string {
    if |parts| <= 1 then "" else "\n" + Join(parts[1..])
  }

  ghost predicate OneLine(parts: seq<string>) {
    forall p | p in parts :: '\n' !in p
  }

  lemma JoinSplits(parts: seq<string>)
    requires parts != []
    ensures Join(parts) == parts[0] + Rest(parts)
  {
    assert parts[0] + "" == parts[0];
  }

  /** Non-empty lists of single lines are determined by their text. */
  lemma {:induction false} JoinInjective(a: seq<string>, b: seq<string>)
    requires a != [] && b != [] && OneLine(a) && OneLine(b) && Join(a) == Join(b)
    ensures a == b
  {
    JoinSplits(a);
    JoinSplits(b);
    SplitsOnce('\n', a[0], b[0], Rest(a), Rest(b));
    if |a| > 1 && |b| > 1 {
      Cancels("\n", Join(a[1..]), Join(b[1..]));
      JoinInjective(a[1..], b[1..]);
      assert a == [a[0]] + a[1..] && b == [b[0]] + b[1..];
    } else {
      assert a == [a[0]] && b == [b[0]];
    }
  }

  // ---------------------------------------------------------------- the digest of command IDs

  ghost predicate CollisionFree(sha: string -> string) {
    forall x, y :: sha(x) == sha(y) ==> x == y
  }

  /** guardbinding.CommandsDigest: the IDs sorted, joined by newlines and hashed. */
  function CommandsDigest(sha: string -> string, ids: seq<string>): string {
    sha(Join(SortedCopy(ids)))
  }

  /** IDs as the control plane makes them: not empty and on one line. */
  ghost predicate Plain(ids: seq<string>) {
    forall id | id in ids :: id != "" && '\n' !in id
  }

  lemma SortedCopyMembers(ids: seq<string>)
    ensures |SortedCopy(ids)| == |ids| && forall id :: id in SortedCopy(ids) <==> id in ids
  {
    SameMembers(SortedCopy(ids), ids);
  }

  lemma {:induction false} PlainJoinIsNotEmpty(ids: seq<string>)
    requires ids != [] && Plain(ids)
    ensures Join(ids) != ""
  {
    JoinSplits(ids);
    assert ids[0] in ids;
  }

  /** Between lists of plain IDs equal digests mean the same IDs, however they are listed. */
  lemma PlainDigestsAgree(sha: string -> string, a: seq<string>, b: seq<string>)
    requires CollisionFree(sha) && Plain(a) && Plain(b)
    ensures CommandsDigest(sha, a) == CommandsDigest(sha, b) <==> multiset(a) == multiset(b)
  {
    SortedCopiesAgree(a, b);
    SortedCopyMembers(a);
    SortedCopyMembers(b);
    var x, y := SortedCopy(a), SortedCopy(b);
    if Join(x) == Join(y) {
      if x != [] { PlainJoinIsNotEmpty(x); }
      if y != [] { PlainJoinIsNotEmpty(y); }
      if x != [] && y != [] { JoinInjective(x, y); }
    }
  }

  /** Somewhere a newline splits the ID into two texts that are already in order. */
  ghost predicate SplitsInOrder(id: string) {
    exists p :: 0 <= p < |id| && id[p] == '\n' && Leq(id[..p], id[p + 1..])
  }

  lemma JoinPair(x: string, y: string)
    ensures Join([x, y]) == x + ("\n" + y)
  {
    assert [x, y][1..] == [y];
  }

  lemma SortedKeepsItself(xs: seq<string>)
    requires Sorted(xs)
    ensures SortedCopy(xs) == xs
  {
    SortedCopySorts(xs);
    SortedIsUnique(SortedCopy(xs), xs);
  }

  lemma PairCollides(sha: string -> string, x: string, y: string)
    requires Leq(x, y)
    ensures CommandsDigest(sha, [x, y]) == CommandsDigest(sha, [x + ("\n" + y)])
    ensures multiset([x, y]) != multiset([x + ("\n" + y)])
  {
    var whole := x + ("\n" + y);
    SortedKeepsItself([x, y]);
    SortedKeepsItself([whole]);
    JoinPair(x, y);
    assert |multiset([x, y])| == 2 && |multiset([whole])| == 1;
  }

  /** The smallest collisions: a newline in one ID, and the empty ID. */
  lemma DigestCollides(sha: string -> string)
    ensures CommandsDigest(sha, ["a", "b"]) == CommandsDigest(sha, ["a\nb"]) && CommandsDigest(sha, []) == CommandsDigest(sha, [""])
    ensures multiset(["a", "b"]) != multiset(["a\nb"]) && multiset([]) != multiset([""])
  {
    PairCollides(sha, "a", "b");
    assert "a" + ("\n" + "b") == "a\nb";
    SortedKeepsItself([""]);
    assert |multiset([""])| == 1;
  }

  /** A text starts with the first part of its list, so it does not come before it. */
  lemma {:induction false} PrefixLeq(x: string, y: string)
    ensures Leq(x, x + y)
  {
    if x != "" {
      assert (x + y)[1..] == x[1..] + y;
      PrefixLeq(x[1..], y);
    }
  }

  lemma OrderedPairSplits(x: string, y: string)
    requires Leq(x, y)
    ensures SplitsInOrder(x + ("\n" + y))
  {
    var whole, p := x + ("\n" + y), |x|;
    assert whole[p] == '\n' && whole[..p] == x && whole[p + 1..] == y;
  }

  lemma JoinedListSplitsInOrder(xs: seq<string>)
    requires |xs| >= 2 && Sorted(xs)
    ensures SplitsInOrder(Join(xs))
  {
    var rest := xs[1..];
    JoinSplits(rest);
    PrefixLeq(rest[0], Rest(rest));
    LeqTransitive(xs[0], rest[0], Join(rest));
    OrderedPairSplits(xs[0], Join(rest));
  }

  ghost predicate Identifies(sha: string -> string, a: seq<string>) {
    forall b :: CommandsDigest(sha, b) == CommandsDigest(sha, a) ==> multiset(b) == multiset(a)
  }

  lemma Refutes(sha: string -> string, a: seq<string>, b: seq<string>)
    requires CommandsDigest(sha, b) == CommandsDigest(sha, a) && multiset(b) != multiset(a)
    ensures !Identifies(sha, a)
  {
  }

  lemma PairFails(sha: string -> string, x: string, y: string, whole: string)
    requires Leq(x, y) && whole == x + ("\n" + y)
    ensures !Identifies(sha, [whole])
  {
    PairCollides(sha, x, y);
    Refutes(sha, [whole], [x, y]);
  }

  lemma SplitIdFails(sha: string -> string, id: string)
    requires SplitsInOrder(id)
    ensures !Identifies(sha, [id])
  {
    var p :| 0 <= p < |id| && id[p] == '\n' && Leq(id[..p], id[p + 1..]);
    PairFails(sha, id[..p], id[p + 1..], id);
  }

  lemma EmptyFails(sha: string -> string)
    ensures !Identifies(sha, []) && !Identifies(sha, [""])
  {
    DigestCollides(sha);
    Refutes(sha, [], [""]);
    Refutes(sha, [""], []);
  }

  /** Over all lists, with no restriction on IDs, a digest identifies its list exactly when that is a single non-empty
      ID which no newline splits in order. */
  lemma DigestIdentifiesExactly(sha: string -> string, a: seq<string>)
    requires CollisionFree(sha)
    ensures Identifies(sha, a) <==> |a| == 1 && a[0] != "" && !SplitsInOrder(a[0])
  {
    if |a| >= 2 {
      WholeCollides(sha, a);
    } else if a == [] {
      EmptyFails(sha);
    } else {
      assert a == [a[0]];
      if a[0] == "" {
        EmptyFails(sha);
      } else if SplitsInOrder(a[0]) {
        SplitIdFails(sha, a[0]);
      } else {
        SingleIdentifies(sha, a[0]);
      }
    }
  }

  lemma WholeCollides(sha: string -> string, a: seq<string>)
    requires |a| >= 2
    ensures !Identifies(sha, a)
  {
    var whole := Join(SortedCopy(a));
    SortedKeepsItself([whole]);
    assert |multiset(a)| == |a| && |multiset([whole])| == 1;
    Refutes(sha, a, [whole]);
  }

  lemma SingleIdentifies(sha: string -> string, id: string)
    requires CollisionFree(sha) && id != "" && !SplitsInOrder(id)
    ensures Identifies(sha, [id])
  {
    SortedKeepsItself([id]);
    forall b | CommandsDigest(sha, b) == CommandsDigest(sha, [id])
      ensures multiset(b) == multiset([id])
    {
      var xs := SortedCopy(b);
      SortedCopySorts(b);
      if |xs| >= 2 { JoinedListSplitsInOrder(xs); }
      assert |xs| == 1 && xs == [id];
      assert multiset(xs) == multiset(b);
    }
  }

  // ---------------------------------------------------------------- the local device proof message

  const HEADER := "techstack-local-device/v1\n"
  const PATH := "/api/v1/auth/device-session-proof"

  datatype Role = Server | Client | Response

  function RoleText(role: Role): string {
    match role
    case Server => "server"
    case Client => "client"
    case Response => "response"
  }

  predicate ValidNonce(n: string) {
    |n| == 32 && forall i | 0 <= i < 32 :: '0' <= n[i] <= '9' || 'a' <= n[i] <= 'f'
  }

  /** localDeviceProofMessage. */
  function ProofMessage(parts: seq<string>): string {
    HEADER + Join(parts)
  }

  function Head(role: Role, origin: string, client: string, server: string): seq<string> {
    [RoleText(role), origin, client, server]
  }

  function ServerMessage(origin: string, client: string, server: string): string {
    ProofMessage(Head(Server, origin, client, server))
  }

  function ClientMessage(origin: string, client: string, server: string): string {
    ProofMessage(Head(Client, origin, client, server) + ["POST", PATH])
  }

  function ResponseMessage(origin: string, client: string, server: string, cookies: seq<string>): string {
    ProofMessage(Head(Response, origin, client, server) + ["200", Join(SortedCopy(cookies))])
  }

  lemma {:induction false} JoinConcat(a: seq<string>, b: seq<string>)
    requires a != [] && b != []
    ensures Join(a + b) == Join(a) + ("\n" + Join(b))
  {
    if |a| == 1 {
      assert (a + b)[1..] == b;
    } else {
      assert (a + b)[1..] == a[1..] + b;
      JoinConcat(a[1..], b);
      assert a[0] + ("\n" + (Join(a[1..]) + ("\n" + Join(b)))) == (a[0] + ("\n" + Join(a[1..]))) + ("\n" + Join(b));
    }
  }

  lemma RoleStarts(role: Role, parts: seq<string>)
    requires parts != [] && parts[0] == RoleText(role)
    ensures |ProofMessage(parts)| > |HEADER| && ProofMessage(parts)[|HEADER|] == RoleText(role)[0]
  {
    JoinSplits(parts);
  }

  /** The three roles never share a message, whatever their parts are. */
  lemma RolesDiffer(a: seq<string>, b: seq<string>, roleA: Role, roleB: Role)
    requires a != [] && b != [] && a[0] == RoleText(roleA) && b[0] == RoleText(roleB) && roleA != roleB
    ensures ProofMessage(a) != ProofMessage(b)
  {
    RoleStarts(roleA, a);
    RoleStarts(roleB, b);
  }

  lemma PairsMeet(a: string, b: string, x: string, y: string)
    requires Join([a, b]) == Join([x, y]) && |b| == |y|
    ensures a == x && b == y
  {
    JoinPair(a, b);
    JoinPair(x, y);
    SplitAtLength(a, x, "\n" + b, "\n" + y);
    Cancels("\n", b, y);
  }

  /** Nonces have one length, so they and the origin can be read off the end, whatever the origin is. */
  lemma HeadsMeet(role: Role, o: string, c: string, s: string, o': string, c': string, s': string)
    requires |c| == |c'| && |s| == |s'| && Join(Head(role, o, c, s)) == Join(Head(role, o', c', s'))
    ensures o == o' && c == c' && s == s'
  {
    var front, front' := [RoleText(role), o], [RoleText(role), o'];
    assert Head(role, o, c, s) == front + [c, s] && Head(role, o', c', s') == front' + [c', s'];
    JoinConcat(front, [c, s]);
    JoinConcat(front', [c', s']);
    JoinPair(c, s);
    JoinPair(c', s');
    SplitAtLength(Join(front), Join(front'), "\n" + Join([c, s]), "\n" + Join([c', s']));
    Cancels("\n", Join([c, s]), Join([c', s']));
    PairsMeet(c, s, c', s');
    JoinPair(RoleText(role), o);
    JoinPair(RoleText(role), o');
    Cancels(RoleText(role), "\n" + o, "\n" + o');
    Cancels("\n", o, o');
  }

  lemma ServerMessagesMeetExactly(o: string, c: string, s: string, o': string, c': string, s': string)
    requires ValidNonce(c) && ValidNonce(s) && ValidNonce(c') && ValidNonce(s')
    ensures ServerMessage(o, c, s) == ServerMessage(o', c', s') <==> o == o' && c == c' && s == s'
  {
    if ServerMessage(o, c, s) == ServerMessage(o', c', s') {
      Cancels(HEADER, Join(Head(Server, o, c, s)), Join(Head(Server, o', c', s')));
      HeadsMeet(Server, o, c, s, o', c', s');
    }
  }

  lemma ClientMessagesMeetExactly(o: string, c: string, s: string, o': string, c': string, s': string)
    requires ValidNonce(c) && ValidNonce(s) && ValidNonce(c') && ValidNonce(s')
    ensures ClientMessage(o, c, s) == ClientMessage(o', c', s') <==> o == o' && c == c' && s == s'
  {
    var tail := ["POST", PATH];
    if ClientMessage(o, c, s) == ClientMessage(o', c', s') {
      Cancels(HEADER, Join(Head(Client, o, c, s) + tail), Join(Head(Client, o', c', s') + tail));
      JoinConcat(Head(Client, o, c, s), tail);
      JoinConcat(Head(Client, o', c', s'), tail);
      SplitAtLength(Join(Head(Client, o, c, s)), Join(Head(Client, o', c', s')), "\n" + Join(tail), "\n" + Join(tail));
      HeadsMeet(Client, o, c, s, o', c', s');
    }
  }

  /** Single lines in front are determined, and so is the text of what follows them. */
  lemma {:induction false} FrontsMeet(a: seq<string>, b: seq<string>, x: string, y: string)
    requires |a| == |b| && OneLine(a) && OneLine(b) && Join(a + [x]) == Join(b + [y])
    ensures a == b && x == y
  {
    if a == [] {
      assert a + [x] == [x] && b + [y] == [y];
    } else {
      var p, q := a + [x], b + [y];
      assert p[1..] == a[1..] + [x] && q[1..] == b[1..] + [y];
      SplitsOnce('\n', a[0], b[0], "\n" + Join(p[1..]), "\n" + Join(q[1..]));
      Cancels("\n", Join(p[1..]), Join(q[1..]));
      FrontsMeet(a[1..], b[1..], x, y);
      assert a == [a[0]] + a[1..] && b == [b[0]] + b[1..];
    }
  }

  lemma ResponseFrontsMeet(o: string, c: string, s: string, x: string, o': string, c': string, s': string, y: string)
    requires OneLine([o, c, s]) && OneLine([o', c', s'])
    requires Join(Head(Response, o, c, s) + ["200", x]) == Join(Head(Response, o', c', s') + ["200", y])
    ensures o == o' && c == c' && s == s' && x == y
  {
    var a, b := [RoleText(Response), o, c, s, "200"], [RoleText(Response), o', c', s', "200"];
    assert Head(Response, o, c, s) + ["200", x] == a + [x] && Head(Response, o', c', s') + ["200", y] == b + [y];
    assert forall p | p in [o, c, s] :: '\n' !in p;
    assert o in [o, c, s] && c in [o, c, s] && s in [o, c, s] && o' in [o', c', s'] && c' in [o', c', s'] && s' in [o', c', s'];
    FrontsMeet(a, b, x, y);
    assert a[1] == b[1] && a[2] == b[2] && a[3] == b[3];
  }

  /** A response binds origin, nonces and the set of its cookies, each of them on one line. */
  lemma ResponseMessagesMeetExactly(o: string, c: string, s: string, k: seq<string>, o': string, c': string, s': string, k': seq<string>)
    requires ValidNonce(c) && ValidNonce(s) && ValidNonce(c') && ValidNonce(s') && '\n' !in o && '\n' !in o'
    requires |k| == |k'| == 2 && OneLine(k) && OneLine(k')
    ensures ResponseMessage(o, c, s, k) == ResponseMessage(o', c', s', k') <==> o == o' && c == c' && s == s' && multiset(k) == multiset(k')
  {
    SortedCopiesAgree(k, k');
    if ResponseMessage(o, c, s, k) == ResponseMessage(o', c', s', k') {
      var x, y := SortedCopy(k), SortedCopy(k');
      Cancels(HEADER, Join(Head(Response, o, c, s) + ["200", Join(x)]), Join(Head(Response, o', c', s') + ["200", Join(y)]));
      ResponseFrontsMeet(o, c, s, Join(x), o', c', s', Join(y));
      SortedCopyMembers(k);
      SortedCopyMembers(k');
      JoinInjective(x, y);
    }
  }
}
