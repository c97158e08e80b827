/** The length-framed message that device confirmations authenticate, with a
    decoder that inverts it. */
module DeviceMessage {
  import opened Common
  import opened Numerals

  const PREFIX := "techstack-wallet-device/v1"

  /** One part: its byte length in decimal, a colon, its bytes.  A char stands for a byte. */
  function Frame(part: string): string {
    Digits(|part|, Decimal) + ":" + part
  }

  function Frames(parts: seq<string>): string {
    if parts == [] then "" else Frame(parts[0]) + Frames(parts[1..])
  }

  /** walletDeviceMessage. */
  function Message(parts: seq<string>): string {
    PREFIX + Frames(parts)
  }

  /** The builder loop of walletDeviceMessage. */
  method BuildMessage(parts: seq<string>) returns (b: string)
    ensures b == Message(parts)
  {
    b := PREFIX;
    for i := 0 to |parts|
      invariant b == PREFIX + Frames(parts[..i])
    {
      FramesSnoc(parts, i);
      b := b + (Digits(|parts[i]|, Decimal) + ":" + parts[i]);
    }
    assert parts[..|parts|] == parts;
  }

  lemma FramesSnoc(parts: seq<string>, i: nat)
    requires i < |parts|
    ensures Frames(parts[..i + 1]) == Frames(parts[..i]) + Frame(parts[i])
  {
    assert parts[..i + 1] == parts[..i] + [parts[i]];
    FramesConcat(parts[..i], [parts[i]]);
    assert Frames([parts[i]]) == Frame(parts[i]) + "";
  }

  lemma {:induction false} FramesConcat(xs: seq<string>, ys: seq<string>)
    ensures Frames(xs + ys) == Frames(xs) + Frames(ys)
  {
    if xs == [] {
      assert xs + ys == ys;
    } else {
      assert (xs + ys)[1..] == xs[1..] + ys;
      FramesConcat(xs[1..], ys);
      assert Frame(xs[0]) + (Frames(xs[1..]) + Frames(ys)) == (Frame(xs[0]) + Frames(xs[1..])) + Frames(ys);
    }
  }

  /** The position of the first colon, or the length when there is none. */
  function Colon(s: string): (i: nat)
    ensures i <= |s| && (i < |s| ==> s[i] == ':') && ':' !in s[..i]
  {
    if s == "" || s[0] == ':' then 0
    else
      var i := 1 + Colon(s[1..]);
      assert s[..i] == [s[0]] + s[1..][..i - 1];
      i
  }

  lemma {:induction false} ColonAfter(digits: string, rest: string)
    requires ':' !in digits
    ensures Colon(digits + ":" + rest) == |digits|
  {
    if digits != "" {
      assert (digits + ":" + rest)[1..] == digits[1..] + ":" + rest;
      ColonAfter(digits[1..], rest);
    }
  }

  /** Reads frames off the front: a canonical length, a colon and that many bytes, until nothing is left. */
  function ReadFrames(s: string): Option<seq<string>>
    decreases |s|
  {
    if s == "" then Some([])
    else
      var i := Colon(s);
      var n := Value(s[..i], Decimal);
      if i == |s| || s[..i] != Digits(n, Decimal) || i + 1 + n > |s| then None
      else
        match ReadFrames(s[i + 1 + n..])
        case None => None
        case Some(rest) => Some([s[i + 1..i + 1 + n]] + rest)
  }

  function Decode(m: string): Option<seq<string>> {
    if HasPrefix(m, PREFIX) then ReadFrames(m[|PREFIX|..]) else None
  }

  lemma {:induction false} FramesAreRead(parts: seq<string>)
    ensures ReadFrames(Frames(parts)) == Some(parts)
  {
    if parts != [] {
      var part, rest := parts[0], Frames(parts[1..]);
      var digits, s := Digits(|part|, Decimal), Frames(parts);
      ValueInverts(|part|, Decimal);
      assert s == digits + ":" + (part + rest);
      ColonAfter(digits, part + rest);
      assert s[..|digits|] == digits;
      assert s[|digits| + 1..|digits| + 1 + |part|] == part && s[|digits| + 1 + |part|..] == rest;
      FramesAreRead(parts[1..]);
      assert parts == [part] + parts[1..];
    }
  }

  /** A readable text is one frame and a readable rest. */
  lemma ReadSplits(s: string) returns (i: nat, n: nat)
    requires s != "" && ReadFrames(s).Some?
    ensures i + 1 + n <= |s| && s[i] == ':' && s[..i] == Digits(n, Decimal)
    ensures ReadFrames(s[i + 1 + n..]).Some? && ReadFrames(s).value == [s[i + 1..i + 1 + n]] + ReadFrames(s[i + 1 + n..]).value
  {
    i := Colon(s);
    n := Value(s[..i], Decimal);
  }

  lemma {:induction false} ReadIsFramed(s: string)
    requires ReadFrames(s).Some?
    ensures Frames(ReadFrames(s).value) == s
    decreases |s|
  {
    if s != "" {
      var i, n := ReadSplits(s);
      var tail := s[i + 1 + n..];
      ReadIsFramed(tail);
      FramedAgain(s, i, n, ReadFrames(tail).value);
    }
  }

  lemma FramedAgain(s: string, i: nat, n: nat, rest: seq<string>)
    requires i + 1 + n <= |s| && s[..i] == Digits(n, Decimal) && s[i] == ':' && Frames(rest) == s[i + 1 + n..]
    ensures Frames([s[i + 1..i + 1 + n]] + rest) == s
  {
    FirstFrame(s, i, n);
    FramesCons(s[i + 1..i + 1 + n], rest);
    assert s[..i + 1 + n] + s[i + 1 + n..] == s;
  }

  lemma FirstFrame(s: string, i: nat, n: nat)
    requires i + 1 + n <= |s| && s[..i] == Digits(n, Decimal) && s[i] == ':'
    ensures Frame(s[i + 1..i + 1 + n]) == s[..i + 1 + n]
  {
  }

  lemma FramesCons(part: string, rest: seq<string>)
    ensures Frames([part] + rest) == Frame(part) + Frames(rest)
  {
  }

  /** The decoder inverts the message on all lists of byte strings, and accepts nothing else. */
  lemma DecodeExactly(m: string, parts: seq<string>)
    ensures Decode(m) == Some(parts) <==> m == Message(parts)
  {
    if m == Message(parts) {
      assert m[..|PREFIX|] == PREFIX && m[|PREFIX|..] == Frames(parts);
      FramesAreRead(parts);
    }
    if Decode(m) == Some(parts) {
      ReadIsFramed(m[|PREFIX|..]);
      assert m == m[..|PREFIX|] + m[|PREFIX|..];
    }
  }

  /** Two lists with one message are one list. */
  lemma MessageInjective(xs: seq<string>, ys: seq<string>)
    requires Message(xs) == Message(ys)
    ensures xs == ys
  {
    DecodeExactly(Message(xs), xs);
    DecodeExactly(Message(xs), ys);
  }

  datatype Challenge = Challenge(
    origin: string, owner: string, tenant: string, provider: string, item: string, snapshot: string,
    reasonDigest: string, sessionDigest: string, displayName: string, clientNonce: string, serverNonce: string, expiresAt: string)

  function Bound(c: Challenge): seq<string> {
    [c.origin, c.owner, c.tenant, c.provider, c.item, c.snapshot, c.reasonDigest, c.sessionDigest, c.displayName,
     c.clientNonce, c.serverNonce, c.expiresAt]
  }

  /** walletDeviceTranscript. */
  function Transcript(c: Challenge, action: string, extra: seq<string>): string {
    Message([action] + Bound(c) + extra)
  }

  /** Equal transcripts agree on the action, on every bound field and on every extra. */
  lemma TranscriptInjective(c: Challenge, c': Challenge, action: string, action': string, extra: seq<string>, extra': seq<string>)
    ensures Transcript(c, action, extra) == Transcript(c', action', extra') <==> c == c' && action == action' && extra == extra'
  {
    var xs, ys := [action] + Bound(c) + extra, [action'] + Bound(c') + extra';
    if Message(xs) == Message(ys) {
      MessageInjective(xs, ys);
      assert xs[0] == action && ys[0] == action';
      assert xs[13..] == extra && ys[13..] == extra';
      assert xs[1..13] == Bound(c) && ys[1..13] == Bound(c');
      assert forall i | 0 <= i < 12 :: Bound(c)[i] == xs[1..13][i] == Bound(c')[i];
    }
  }

  function RevealTranscript(c: Challenge): string {
    Transcript(c, "reveal", ["POST", "/api/v1/wallet/" + c.item + "/reveal"])
  }

  function ResultTranscript(c: Challenge, payload: string): string {
    Transcript(c, "result", ["200", payload])
  }

  /** Challenge, reveal and result transcripts never coincide, not even across challenges. */
  lemma TranscriptKindsDiffer(a: Challenge, b: Challenge, d: Challenge, payload: string)
    ensures Transcript(a, "challenge", []) != RevealTranscript(b)
    ensures RevealTranscript(b) != ResultTranscript(d, payload)
    ensures Transcript(a, "challenge", []) != ResultTranscript(d, payload)
  {
    TranscriptInjective(a, b, "challenge", "reveal", [], ["POST", "/api/v1/wallet/" + b.item + "/reveal"]);
    TranscriptInjective(b, d, "reveal", "result", ["POST", "/api/v1/wallet/" + b.item + "/reveal"], ["200", payload]);
    TranscriptInjective(a, d, "challenge", "result", [], ["200", payload]);
  }
}
