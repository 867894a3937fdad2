/**
  The ServerHello of the TLS backend (section 4.1.3 of RFC 8446): a template is given a fresh random
  and the client's session id, which shifts everything behind it, and its key share is then found
  again and overwritten.
*/
module ServerHello {
  import opened Bytes

  const HS_SERVER_HELLO: byte := 2
  const EXT_KEY_SHARE := 0x0033
  const SID_AT := 38                 // type, length, version and random come first

  /** The search for the key share; an index beyond the message is a panic in the extension loop. */
  datatype Lookup = Found(group: nat, offset: nat, length: nat) | Missing | Panics

  /** The walk over the extensions from pos. */
  function Walk(m: bytes, pos: nat, end: nat): Lookup
    decreases end - pos
  {
    if pos + 4 > end then Missing
    else if pos + 4 > |m| then Panics
    else
      var data := pos + 4;
      if U16(m[pos], m[pos + 1]) == EXT_KEY_SHARE then
        if data + 4 > |m| then Missing
        else
          var length := U16(m[data + 2], m[data + 3]);
          if data + 4 + length > |m| then Missing else Found(U16(m[data], m[data + 1]), data + 4, length)
      else Walk(m, data + U16(m[pos + 2], m[pos + 3]), end)
  }

  function SidLen(m: bytes): nat
    requires |m| > SID_AT
  {
    m[SID_AT]
  }

  /** Position of the length of the extension block. */
  function ExtAt(m: bytes): nat
    requires |m| > SID_AT
  {
    SID_AT + 1 + SidLen(m) + 3
  }

  function FindKeyShare(m: bytes): Lookup {
    if |m| <= SID_AT || |m| < ExtAt(m) + 2 then Missing
    else
      var at := ExtAt(m);
      Walk(m, at + 2, at + 2 + U16(m[at], m[at + 1]))
  }

  method FindServerKeyShare(m: bytes) returns (r: Lookup)
    ensures r == FindKeyShare(m)
  {
    hide U16;
    if |m| <= SID_AT {
      return Missing;
    }
    var pos := SID_AT + 1 + m[SID_AT] + 2 + 1;
    if |m| < pos + 2 {
      return Missing;
    }
    var end := pos + 2 + U16(m[pos], m[pos + 1]);
    pos := pos + 2;
    while pos + 4 <= end
      invariant FindKeyShare(m) == Walk(m, pos, end)
      decreases end - pos
    {
      if pos + 4 > |m| {
        return Panics;
      }
      var kind, length, data := U16(m[pos], m[pos + 1]), U16(m[pos + 2], m[pos + 3]), pos + 4;
      if kind == EXT_KEY_SHARE {
        if data + 4 > |m| {
          return Missing;
        }
        var share := U16(m[data + 2], m[data + 3]);
        if data + 4 + share > |m| {
          return Missing;
        }
        return Found(U16(m[data], m[data + 1]), data + 4, share);
      }
      pos := data + length;
    }
    r := Missing;
  }

  function CipherSuite(m: bytes): Option<nat> {
    if |m| <= SID_AT || |m| < SID_AT + 1 + SidLen(m) + 2 then None
    else Some(U16(m[SID_AT + 1 + SidLen(m)], m[SID_AT + 2 + SidLen(m)]))
  }

  // ----- shifting and overwriting

  /** m is t with everything from `from` on moved by d. */
  ghost predicate Shifted(t: bytes, m: bytes, from: nat, d: int) {
    && 0 <= from + d && |m| == |t| + d
    && forall i | from <= i < |t| :: m[i + d] == t[i]
  }

  function ShiftLookup(r: Lookup, d: int): Lookup
    requires r.Found? ==> r.offset + d >= 0
  {
    match r
    case Found(g, o, l) => Found(g, o + d, l)
    case _ => r
  }

  lemma {:induction false} WalkShift(t: bytes, m: bytes, pos: nat, end: nat, from: nat, d: int)
    requires Shifted(t, m, from, d) && from <= pos && pos + d >= 0 && end + d >= 0
    ensures Walk(t, pos, end).Found? ==> Walk(t, pos, end).offset >= pos + 8
    ensures Walk(m, pos + d, end + d) == ShiftLookup(Walk(t, pos, end), d)
    decreases end - pos
  {
    hide U16;
    if pos + 4 <= end && pos + 4 <= |t| {
      assert m[pos + d] == t[pos] && m[pos + 1 + d] == t[pos + 1];
      assert m[pos + 2 + d] == t[pos + 2] && m[pos + 3 + d] == t[pos + 3];
      var data := pos + 4;
      if U16(t[pos], t[pos + 1]) == EXT_KEY_SHARE {
        if data + 4 <= |t| {
          assert m[data + d] == t[data] && m[data + 1 + d] == t[data + 1];
          assert m[data + 2 + d] == t[data + 2] && m[data + 3 + d] == t[data + 3];
        }
      } else {
        WalkShift(t, m, data + U16(t[pos + 2], t[pos + 3]), end, from, d);
      }
    }
  }

  /** The walk reads nothing at or behind the key share it finds. */
  lemma {:induction false} WalkReadsBefore(m: bytes, m': bytes, pos: nat, end: nat)
    requires Walk(m, pos, end).Found? && |m'| == |m|
    requires forall i | 0 <= i < Walk(m, pos, end).offset && i < |m| :: m'[i] == m[i]
    ensures Walk(m', pos, end) == Walk(m, pos, end) && Walk(m, pos, end).offset >= pos + 8
    ensures Walk(m, pos, end).offset + Walk(m, pos, end).length <= |m|
    decreases end - pos
  {
    hide U16;
    if U16(m[pos], m[pos + 1]) != EXT_KEY_SHARE {
      var next := pos + 4 + U16(m[pos + 2], m[pos + 3]);
      WalkBeyond(m, next, end);
      WalkReadsBefore(m, m', next, end);
    }
  }

  lemma {:induction false} WalkBeyond(m: bytes, pos: nat, end: nat)
    ensures Walk(m, pos, end).Found? ==> Walk(m, pos, end).offset >= pos + 8
                                         && Walk(m, pos, end).offset + Walk(m, pos, end).length <= |m|
    decreases end - pos
  {
    hide U16;
    if pos + 4 <= end && pos + 4 <= |m| && U16(m[pos], m[pos + 1]) != EXT_KEY_SHARE {
      WalkBeyond(m, pos + 4 + U16(m[pos + 2], m[pos + 3]), end);
    }
  }

  // ----- rewriting a template

  datatype FlightError =
    | MalformedServerHello
    | Tls13NotOffered
    | SessionIdTooLong
    | UnsupportedCipherSuite(suite: nat)
    | CipherNotOffered(suite: nat)
    | KeyShareGroupNotOffered(group: nat)
    | KeyShareLengthMismatch(group: nat, expected: nat, actual: nat)

  datatype Outcome = Hello(message: bytes, suite: nat, group: nat) | Rejected(error: FlightError) | Panicked

  /** What the client's hello says. */
  datatype Client = Client(offersTls13: bool, sessionId: bytes, suites: seq<nat>, groups: seq<nat>)

  predicate IsGrease(v: nat) { v % 256 == v / 256 && v % 16 == 10 }

  predicate GroupOffered(c: Client, group: nat) { group in c.groups && !IsGrease(group) }

  /** Type and length agree, and the key share and the suite are there; a panic of the search is kept apart. */
  predicate WellFormed(t: bytes) {
    && |t| >= 4 && t[0] == HS_SERVER_HELLO && U24(t[1], t[2], t[3]) == |t| - 4
    && FindKeyShare(t).Found? && CipherSuite(t).Some?
  }

  /** New random, new session id, everything behind it kept, and the length patched. */
  function Rewrite(t: bytes, sid: bytes, random: bytes): (m: bytes)
    requires |t| > SID_AT && |t| >= SID_AT + 1 + SidLen(t) && |sid| <= 32 && |random| == 32
    ensures |m| == |t| - SidLen(t) + |sid|
  {
    var body := t[4..6] + random + [|sid|] + sid + t[SID_AT + 1 + SidLen(t)..];
    [t[0]] + Be24(|body|) + body
  }

  method RewriteRandomAndSessionId(t: bytes, sid: bytes, random: bytes) returns (m: bytes)
    requires |t| > SID_AT && |t| >= SID_AT + 1 + SidLen(t) && |sid| <= 32 && |random| == 32
    ensures m == Rewrite(t, sid, random)
  {
    m := t[..6] + random + [|sid|] + sid + t[SID_AT + 1 + t[SID_AT]..];
    var length := Be24(|m| - 4);
    m := m[1 := length[0]][2 := length[1]][3 := length[2]];
  }

  function Overwrite(m: bytes, at: nat, share: bytes): (r: bytes)
    requires at + |share| <= |m|
    ensures |r| == |m|
  {
    m[..at] + share + m[at + |share|..]
  }

  function Synthesize(t: bytes, c: Client, share: bytes, random: bytes): Outcome
    requires |random| == 32
  {
    if |t| < 4 || t[0] != HS_SERVER_HELLO || U24(t[1], t[2], t[3]) != |t| - 4 then Rejected(MalformedServerHello)
    else if FindKeyShare(t).Panics? then Panicked
    else if !WellFormed(t) then Rejected(MalformedServerHello)
    else if !c.offersTls13 then Rejected(Tls13NotOffered)
    else if |c.sessionId| > 32 then Rejected(SessionIdTooLong)
    else
      var (suite, found) := (CipherSuite(t).value, FindKeyShare(t));
      if suite != 0x1301 && suite != 0x1302 && suite != 0x1303 then Rejected(UnsupportedCipherSuite(suite))
      else if suite !in c.suites then Rejected(CipherNotOffered(suite))
      else if !GroupOffered(c, found.group) then Rejected(KeyShareGroupNotOffered(found.group))
      else if found.length != |share| then Rejected(KeyShareLengthMismatch(found.group, found.length, |share|))
      else
        var m := Rewrite(t, c.sessionId, random);
        match FindKeyShare(m)
        case Missing => Rejected(MalformedServerHello)
        case Panics => Panicked
        case Found(_, at, length) =>
          if length == |share| && at + length <= |m| then Hello(Overwrite(m, at, share), suite, found.group)
          else Panicked
  }

  lemma RewriteShifts(t: bytes, sid: bytes, random: bytes)
    requires |t| > SID_AT && |t| >= SID_AT + 1 + SidLen(t) && |sid| <= 32 && |random| == 32
    ensures var m := Rewrite(t, sid, random);
            && Shifted(t, m, SID_AT + 1 + SidLen(t), |sid| - SidLen(t))
            && m[0] == t[0] && m[4..6] == t[4..6] && m[6..SID_AT] == random
            && m[SID_AT] == |sid| && m[SID_AT + 1..SID_AT + 1 + |sid|] == sid
            && U24(m[1], m[2], m[3]) == (|m| - 4) % 0x100_0000
  {
    var tail := t[SID_AT + 1 + SidLen(t)..];
    var body := t[4..6] + random + [|sid|] + sid + tail;
    var m := Rewrite(t, sid, random);
    assert m[4..] == body;
    assert m[4..6] == m[4..][0..2] && m[6..SID_AT] == m[4..][2..34];
    assert m[SID_AT + 1..SID_AT + 1 + |sid|] == m[4..][35..35 + |sid|];
    forall i | SID_AT + 1 + SidLen(t) <= i < |t|
      ensures m[i + |sid| - SidLen(t)] == t[i]
    {
      assert m[i + |sid| - SidLen(t)] == tail[i - (SID_AT + 1 + SidLen(t))];
    }
  }

  /** The key share is found again, shifted by the change of the session id's length; the suite is the same. */
  lemma FoundAgain(t: bytes, sid: bytes, random: bytes)
    requires WellFormed(t) && |sid| <= 32 && |random| == 32
    ensures |t| > SID_AT && |t| >= ExtAt(t) + 2
    ensures var (m, d) := (Rewrite(t, sid, random), |sid| - SidLen(t));
            && FindKeyShare(t).offset >= ExtAt(t) + 10
            && FindKeyShare(m) == FindKeyShare(t).(offset := FindKeyShare(t).offset + d)
            && CipherSuite(m) == CipherSuite(t)
  {
    hide U16, U24, Walk;
    RewriteShifts(t, sid, random);
    var (m, d, at) := (Rewrite(t, sid, random), |sid| - SidLen(t), ExtAt(t));
    assert ExtAt(m) == at + d;
    assert m[at + d] == t[at] && m[at + 1 + d] == t[at + 1];
    assert m[SID_AT + 1 + |sid|] == t[SID_AT + 1 + SidLen(t)] && m[SID_AT + 2 + |sid|] == t[SID_AT + 2 + SidLen(t)] by {
      var i := SID_AT + 1 + SidLen(t);
      assert m[i + d] == t[i] && m[i + 1 + d] == t[i + 1];
    }
    WalkShift(t, m, at + 2, at + 2 + U16(t[at], t[at + 1]), SID_AT + 1 + SidLen(t), d);
  }

  /** Overwriting the key share that is found changes neither where it is found nor the suite. */
  lemma OverwriteKeepsLookup(m: bytes, share: bytes)
    requires FindKeyShare(m).Found? && FindKeyShare(m).length == |share|
    ensures FindKeyShare(m).offset + |share| <= |m|
    ensures var m' := Overwrite(m, FindKeyShare(m).offset, share);
            FindKeyShare(m') == FindKeyShare(m) && CipherSuite(m') == CipherSuite(m)
  {
    hide U16;
    var (at, offset) := (ExtAt(m), FindKeyShare(m).offset);
    var end := at + 2 + U16(m[at], m[at + 1]);
    WalkBeyond(m, at + 2, end);
    var m' := Overwrite(m, offset, share);
    assert forall i | 0 <= i < offset :: m'[i] == m[i];
    WalkReadsBefore(m, m', at + 2, end);
  }

  /** What the client must offer for this template and key share. */
  predicate Acceptable(t: bytes, c: Client, share: bytes) {
    && WellFormed(t) && c.offersTls13 && |c.sessionId| <= 32
    && CipherSuite(t).value in {0x1301, 0x1302, 0x1303} && CipherSuite(t).value in c.suites
    && GroupOffered(c, FindKeyShare(t).group) && FindKeyShare(t).length == |share|
  }

  /** A hello is made exactly for acceptable arguments, and it never panics on a well-formed template. */
  lemma HelloExactly(t: bytes, c: Client, share: bytes, random: bytes)
    requires |random| == 32
    ensures Synthesize(t, c, share, random).Hello? <==> Acceptable(t, c, share)
    ensures WellFormed(t) ==> !Synthesize(t, c, share, random).Panicked?
  {
    hide U16, U24, Walk, Rewrite, Overwrite;
    if Acceptable(t, c, share) {
      FoundAgain(t, c.sessionId, random);
      OverwriteKeepsLookup(Rewrite(t, c.sessionId, random), share);
    }
  }

  /** Version, random and session id of a hello made from t. */
  predicate Echoes(t: bytes, sid: bytes, random: bytes, m: bytes) {
    && |m| >= SID_AT + 1 + |sid| && |t| > SID_AT
    && m[0] == t[0] && m[4..6] == t[4..6] && m[6..SID_AT] == random
    && m[SID_AT] == |sid| && m[SID_AT + 1..SID_AT + 1 + |sid|] == sid
  }

  /** m is t behind the session id, moved by d, except for the key share at `at`. */
  ghost predicate KeepsRest(t: bytes, m: bytes, from: nat, d: int, at: nat, length: nat) {
    && 0 <= from + d && |m| == |t| + d
    && forall i | from <= i < |t| && !(at <= i < at + length) :: m[i + d] == t[i]
  }

  lemma OverwriteKeepsRest(t: bytes, m: bytes, sid: bytes, random: bytes, d: int, at: nat, share: bytes)
    requires Echoes(t, sid, random, m) && d == |sid| - SidLen(t) && Shifted(t, m, SID_AT + 1 + SidLen(t), d)
    requires SID_AT + 1 + |sid| <= at && at + |share| <= |m|
    ensures at - d >= 0 && KeepsRest(t, Overwrite(m, at, share), SID_AT + 1 + SidLen(t), d, at - d, |share|)
    ensures Echoes(t, sid, random, Overwrite(m, at, share)) && Overwrite(m, at, share)[at..at + |share|] == share
    ensures Overwrite(m, at, share)[..4] == m[..4]
  {
    var r := Overwrite(m, at, share);
    assert r[..at] == m[..at];
    assert r[4..6] == r[..at][4..6] && r[6..SID_AT] == r[..at][6..SID_AT];
    assert m[4..6] == m[..at][4..6] && m[6..SID_AT] == m[..at][6..SID_AT];
    assert r[SID_AT + 1..SID_AT + 1 + |sid|] == r[..at][SID_AT + 1..SID_AT + 1 + |sid|];
    assert m[SID_AT + 1..SID_AT + 1 + |sid|] == m[..at][SID_AT + 1..SID_AT + 1 + |sid|];
    assert r[..4] == r[..at][..4] && m[..4] == m[..at][..4];
    forall i | SID_AT + 1 + SidLen(t) <= i < |t| && !(at - d <= i < at - d + |share|)
      ensures r[i + d] == t[i]
    {
      assert m[i + d] == t[i];
    }
  }

  /**
    The hello echoes the session id and the random, carries the new key share where a search finds it,
    shifted by the change of the session id's length, and keeps suite, group and every other byte
    behind the session id.
  */
  lemma HelloContents(t: bytes, c: Client, share: bytes, random: bytes, m: bytes, suite: nat, group: nat)
    requires |random| == 32 && Synthesize(t, c, share, random) == Hello(m, suite, group)
    ensures WellFormed(t) && |t| > SID_AT && Echoes(t, c.sessionId, random, m)
    ensures CipherSuite(m) == CipherSuite(t) == Some(suite)
    ensures var (was, now, d) := (FindKeyShare(t), FindKeyShare(m), |c.sessionId| - SidLen(t));
            && was.Found? && was.group == group && was.length == |share| && was.offset + d >= 0
            && now == was.(offset := was.offset + d) && now.offset + |share| <= |m|
            && m[now.offset..now.offset + |share|] == share
            && KeepsRest(t, m, SID_AT + 1 + SidLen(t), d, was.offset, |share|)
  {
    hide Synthesize, Overwrite, Rewrite, U16, U24, Walk, GroupOffered;
    HelloIs(t, c, share, random, m, suite, group);
    RewriteShifts(t, c.sessionId, random);
    FoundAgain(t, c.sessionId, random);
    var m0 := Rewrite(t, c.sessionId, random);
    OverwriteKeepsLookup(m0, share);
    var (at, d) := (FindKeyShare(m0).offset, |c.sessionId| - SidLen(t));
    hide FindKeyShare, CipherSuite;
    OverwriteKeepsRest(t, m0, c.sessionId, random, d, at, share);
    hide Echoes, KeepsRest, Shifted;
  }

  /** The 24-bit length of the hello is right exactly if the message is shorter than 16 MiB. */
  lemma HelloLength(t: bytes, c: Client, share: bytes, random: bytes, m: bytes, suite: nat, group: nat)
    requires |random| == 32 && Synthesize(t, c, share, random) == Hello(m, suite, group)
    ensures |t| > SID_AT && |m| == |t| - SidLen(t) + |c.sessionId| && |m| >= 4
    ensures U24(m[1], m[2], m[3]) == |m| - 4 <==> |t| - SidLen(t) + |c.sessionId| < 0x100_0004
  {
    HelloIs(t, c, share, random, m, suite, group);
    RewriteShifts(t, c.sessionId, random);
    FoundAgain(t, c.sessionId, random);
    hide Synthesize, Rewrite, U16, U24, Walk, GroupOffered, FindKeyShare, CipherSuite, Shifted, Acceptable,
         WellFormed, Overwrite;
    var m0 := Rewrite(t, c.sessionId, random);
    SameHead(m0, FindKeyShare(m0).offset, share);
    Fits24(|m0| - 4);
  }

  lemma SameHead(m: bytes, at: nat, share: bytes)
    requires 4 <= at && at + |share| <= |m|
    ensures var r := Overwrite(m, at, share);
            r[1] == m[1] && r[2] == m[2] && r[3] == m[3]
  {
  }

  lemma Fits24(n: nat)
    ensures n % 0x100_0000 == n <==> n < 0x100_0000
  {
  }

  lemma HelloIs(t: bytes, c: Client, share: bytes, random: bytes, m: bytes, suite: nat, group: nat)
    requires |random| == 32 && Synthesize(t, c, share, random) == Hello(m, suite, group)
    ensures Acceptable(t, c, share) && suite == CipherSuite(t).value && group == FindKeyShare(t).group
    ensures |t| > SID_AT && |t| >= SID_AT + 1 + SidLen(t)
    ensures var m0 := Rewrite(t, c.sessionId, random);
            && FindKeyShare(m0).Found? && FindKeyShare(m0).offset + |share| <= |m0|
            && m == Overwrite(m0, FindKeyShare(m0).offset, share)
  {
    HelloExactly(t, c, share, random);
    hide U16, U24, Walk, Rewrite, Overwrite;
  }

  // ----- the template of the backend

  function Extension(kind: nat, body: bytes): bytes { Be16(kind) + Be16(|body|) + body }

  function HandshakeMessage(kind: byte, body: bytes): bytes { [kind] + Be24(|body|) + body }

  function Zeros32(): (z: bytes)
    ensures |z| == 32
  {
    seq(32, _ => 0)
  }

  function TemplateExtensions(group: nat): (e: bytes)
    ensures |e| == 46
  {
    Extension(0x002b, Be16(0x0304)) + Extension(EXT_KEY_SHARE, Be16(group) + Be16(32) + Zeros32())
  }

  function Template(suite: nat, group: nat): bytes {
    HandshakeMessage(HS_SERVER_HELLO,
                     Be16(0x0303) + Zeros32() + [0] + Be16(suite) + [0] + Be16(46) + TemplateExtensions(group))
  }

  lemma TemplateConstants()
    ensures Be16(0x0303) == [3, 3] && Be16(46) == [0, 46] && Be24(86) == [0, 0, 86]
    ensures Be16(0x002b) == [0, 0x2b] && Be16(2) == [0, 2] && Be16(0x0033) == [0, 0x33] && Be16(32) == [0, 32]
  {
    hide Be16, Be24;
    WordBytes(3, 3);
    WordBytes(0, 46);
    LengthBytes(0, 0, 86);
    WordBytes(0, 0x2b);
    WordBytes(0, 2);
    WordBytes(0, 0x33);
    WordBytes(0, 32);
  }

  lemma ExtensionsLayout(group: nat)
    ensures var e := TemplateExtensions(group);
            && e[0] == 0 && e[1] == 0x2b && e[2] == 0 && e[3] == 2
            && e[6] == 0 && e[7] == 0x33 && e[10..12] == Be16(group) && e[12] == 0 && e[13] == 32
  {
    TemplateConstants();
    hide Zeros32, Be16;
    var (x, body) := (Extension(0x002b, Be16(0x0304)), Be16(group) + Be16(32) + Zeros32());
    var y := Extension(EXT_KEY_SHARE, body);
    assert y[4..6] == Be16(group) && y[6] == 0 && y[7] == 32;
    var e := TemplateExtensions(group);
    assert e == x + y;
    assert e[10..12] == y[4..6];
  }

  lemma TemplateLayout(suite: nat, group: nat)
    ensures var (t, e) := (Template(suite, group), TemplateExtensions(group));
            && |t| == 90 && t[0] == HS_SERVER_HELLO && t[1] == 0 && t[2] == 0 && t[3] == 86
            && t[SID_AT] == 0 && t[39..41] == Be16(suite) && t[42] == 0 && t[43] == 46 && t[44..] == e
  {
    TemplateConstants();
    hide Zeros32, TemplateExtensions, Be16, Be24;
    var e := TemplateExtensions(group);
    var head: bytes := Be16(0x0303) + Zeros32() + [0];
    var mid := Be16(suite) + [0] + Be16(46);
    var t := Template(suite, group);
    assert |head| == 35 && head[34] == 0 && |mid| == 5 && mid[..2] == Be16(suite) && mid[3] == 0 && mid[4] == 46;
    assert t == [HS_SERVER_HELLO] + Be24(86) + (head + mid + e);
    assert t[4..39] == head && t[39..44] == mid && t[44..] == e;
    assert t[SID_AT] == t[4..39][34] && t[39..41] == t[39..44][..2] && t[42] == t[39..44][3] && t[43] == t[39..44][4];
  }

  /** The backend's own template is well formed, with its key share at offset 58. */
  lemma TemplateIsWellFormed(suite: nat, group: nat)
    requires suite < 0x1_0000 && group < 0x1_0000
    ensures var t := Template(suite, group);
            WellFormed(t) && FindKeyShare(t) == Found(group, 58, 32) && CipherSuite(t) == Some(suite)
  {
    TemplateLayout(suite, group);
    ExtensionsLayout(group);
    hide Template, TemplateExtensions, Be16;
    var (t, e) := (Template(suite, group), TemplateExtensions(group));
    assert forall i | 0 <= i < 46 :: t[44 + i] == e[i];
    assert t[54..56] == e[10..12] && t[54] == Be16(group)[0] && t[55] == Be16(group)[1];
    assert t[39] == Be16(suite)[0] && t[40] == Be16(suite)[1];
    assert Walk(t, 50, 90) == Found(group, 58, 32);
    assert Walk(t, 44, 90) == Walk(t, 50, 90);
  }

  // ----- what is found, and what is refused

  /** The walk comes from one extension to the other, over extensions that are there and are no key share. */
  predicate Hops(m: bytes, pos: nat, p: nat, end: nat)
    decreases end - pos
  {
    || pos == p
    || (pos + 4 <= end && pos + 4 <= |m| && (m[pos] != 0 || m[pos + 1] != 0x33)
        && Hops(m, pos + 4 + m[pos + 2] as int * 256 + m[pos + 3], p, end))
  }

  /** Where the walk stops it misses, panics or finds, exactly by these bounds. */
  lemma {:induction false} WalkStops(m: bytes, pos: nat, p: nat, end: nat)
    requires Hops(m, pos, p, end)
    ensures p + 4 > end ==> Walk(m, pos, end) == Missing
    ensures p + 4 <= end && p + 4 > |m| ==> Walk(m, pos, end) == Panics
    ensures p + 4 <= end && p + 4 <= |m| && m[p] == 0 && m[p + 1] == 0x33 ==>
              Walk(m, pos, end) ==
                if p + 8 > |m| || p + 8 + m[p + 6] as int * 256 + m[p + 7] > |m| then Missing
                else Found(m[p + 4] as int * 256 + m[p + 5], p + 8, m[p + 6] as int * 256 + m[p + 7])
    decreases end - pos
  {
    if pos == p {
    } else {
      WalkStops(m, pos + 4 + m[pos + 2] as int * 256 + m[pos + 3], p, end);
    }
  }

  /** Every message has such a place to stop. */
  lemma {:induction false} WalkHasStop(m: bytes, pos: nat, end: nat) returns (p: nat)
    ensures Hops(m, pos, p, end) && (p + 4 > end || p + 4 > |m| || (m[p] == 0 && m[p + 1] == 0x33))
    decreases end - pos
  {
    if pos + 4 > end || pos + 4 > |m| || (m[pos] == 0 && m[pos + 1] == 0x33) {
      p := pos;
    } else {
      p := WalkHasStop(m, pos + 4 + m[pos + 2] as int * 256 + m[pos + 3], end);
    }
  }

  /** Where the extensions and the suite are, behind a session id of n bytes; shorter messages have neither. */
  lemma FieldsAt(m: bytes)
    ensures |m| <= 38 ==> FindKeyShare(m) == Missing && CipherSuite(m) == None
    ensures |m| > 38 ==>
              var n := m[38] as int;
              && FindKeyShare(m)
                 == (if |m| < n + 44 then Missing else Walk(m, n + 44, n + 44 + m[n + 42] as int * 256 + m[n + 43]))
              && CipherSuite(m) == if |m| < n + 41 then None else Some(m[n + 39] as int * 256 + m[n + 40])
  {
    hide Walk;
  }

  /** The sixteen reserved values of section 2 of RFC 8701. */
  lemma GreaseExactly(v: nat)
    requires v < 0x1_0000
    ensures IsGrease(v) <==>
              v in {0x0a0a, 0x1a1a, 0x2a2a, 0x3a3a, 0x4a4a, 0x5a5a, 0x6a6a, 0x7a7a,
                    0x8a8a, 0x9a9a, 0xaaaa, 0xbaba, 0xcaca, 0xdada, 0xeaea, 0xfafa}
  {
    if IsGrease(v) {
      var k := v / 256 / 16;
      assert v == (16 * k + 10) * 257 && 0 <= k < 16;
    }
  }

  /** A template that is not well formed is refused or panics; of a well-formed one, the first thing wrong is told. */
  lemma RefusedExactly(t: bytes, c: Client, share: bytes, random: bytes)
    requires |random| == 32
    ensures var o := Synthesize(t, c, share, random);
            var shaped := |t| >= 4 && t[0] == 2 && t[1] as int * 0x1_0000 + t[2] as int * 256 + t[3] == |t| - 4;
            && (o == Panicked <==> shaped && FindKeyShare(t) == Panics)
            && (o == Rejected(MalformedServerHello) <==>
                  !shaped || FindKeyShare(t) == Missing || (FindKeyShare(t).Found? && CipherSuite(t) == None))
            && (WellFormed(t) ==>
                  var (suite, found) := (CipherSuite(t).value, FindKeyShare(t));
                  && (o == Rejected(Tls13NotOffered) <==> !c.offersTls13)
                  && (o == Rejected(SessionIdTooLong) <==> c.offersTls13 && |c.sessionId| > 32)
                  && (c.offersTls13 && |c.sessionId| <= 32 ==>
                        && (o == Rejected(UnsupportedCipherSuite(suite)) <==> !(0x1301 <= suite <= 0x1303))
                        && (o == Rejected(CipherNotOffered(suite)) <==> 0x1301 <= suite <= 0x1303 && suite !in c.suites)
                        && (o == Rejected(KeyShareGroupNotOffered(found.group)) <==>
                              0x1301 <= suite <= 0x1303 && suite in c.suites
                              && (found.group !in c.groups || IsGrease(found.group)))
                        && (o == Rejected(KeyShareLengthMismatch(found.group, found.length, |share|)) <==>
                              0x1301 <= suite <= 0x1303 && suite in c.suites && found.group in c.groups
                              && !IsGrease(found.group) && found.length != |share|)))
  {
    hide Walk, FindKeyShare, CipherSuite, Rewrite, IsGrease;
    if WellFormed(t) && |c.sessionId| <= 32 {
      FoundAgain(t, c.sessionId, random);
      FoundInside(Rewrite(t, c.sessionId, random));
    }
  }

  lemma FoundInside(m: bytes)
    ensures FindKeyShare(m).Found? ==> FindKeyShare(m).offset + FindKeyShare(m).length <= |m|
  {
    if |m| > SID_AT && |m| >= ExtAt(m) + 2 {
      var at := ExtAt(m);
      WalkBeyond(m, at + 2, at + 2 + U16(m[at], m[at + 1]));
    }
  }
}
