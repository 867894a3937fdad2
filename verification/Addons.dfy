/**
  The addons message of a VLESS header: base-128 varints and two length-delimited fields, written
  only for the Vision flow.
*/
module Addons {
  import opened Bytes

  // ----- varints

  /** Seven bits per byte, least significant first; the high bit says that more follow. */
  function Varint(v: nat): (r: bytes)
    ensures |r| > 0
  {
    if v < 128 then [v] else [v % 128 + 128] + Varint(v / 128)
  }

  method WriteVarint(v: nat) returns (out: bytes)
    ensures out == Varint(v)
  {
    out := [];
    var rest := v;
    while true
      invariant Varint(v) == out + Varint(rest)
      decreases rest
    {
      var b := rest % 128;
      ghost var whole := rest;
      rest := rest / 128;
      if rest == 0 {
        assert Varint(whole) == [b];
        out := out + [b];
        return;
      }
      assert out + ([b + 128] + Varint(rest)) == out + [b + 128] + Varint(rest);
      out := out + [b + 128];
    }
  }

  /** A 64-bit shift to the left drops the bits that leave the word. */
  function ShiftLeft(v: nat, shift: nat): nat { v * Pow2(shift) % (U64_MAX + 1) }

  /** The value and the bytes used; no more than 64 bits of shift are accepted. The accumulator is below
      2^shift, so adding the shifted bits is the same as or-ing them. */
  function ReadFrom(b: bytes, i: nat, shift: nat, acc: nat): Option<(nat, nat)>
    requires i <= |b|
    decreases |b| - i
  {
    if i == |b| || shift >= 64 then None
    else
      var acc' := acc + ShiftLeft(b[i] % 128, shift);
      if b[i] < 128 then Some((acc', i + 1)) else ReadFrom(b, i + 1, shift + 7, acc')
  }

  method ReadVarint(b: bytes) returns (r: Option<(nat, nat)>)
    ensures r == ReadFrom(b, 0, 0, 0)
  {
    hide ShiftLeft;
    var acc: nat, shift: nat := 0, 0;
    for i := 0 to |b|
      invariant ReadFrom(b, 0, 0, 0) == ReadFrom(b, i, shift, acc)
    {
      if shift >= 64 {
        return None;
      }
      acc := acc + ShiftLeft(b[i] % 128, shift);
      if b[i] < 128 {
        return Some((acc, i + 1));
      }
      shift := shift + 7;
    }
    r := None;
  }

  lemma {:induction false} Pow2Monotone(a: nat, b: nat)
    requires a <= b
    ensures Pow2(a) <= Pow2(b)
  {
    if a == b {
    } else {
      Pow2Monotone(a, b - 1);
    }
  }

  lemma Pow2Of64()
    ensures Pow2(64) == U64_MAX + 1
  {
    assert Pow2(8) == 256 by { assert Pow2(4) == 16; }
    assert Pow2(16) == 0x1_0000 by { assert Pow2(12) == 0x1000; }
    assert Pow2(32) == 0x1_0000_0000 by {
      assert Pow2(20) == 0x10_0000;
      assert Pow2(24) == 0x100_0000;
      assert Pow2(28) == 0x1000_0000;
    }
    assert Pow2(40) == 0x100_0000_0000 by { assert Pow2(36) == 0x10_0000_0000; }
    assert Pow2(48) == 0x1_0000_0000_0000 by { assert Pow2(44) == 0x1000_0000_0000; }
    assert Pow2(56) == 0x100_0000_0000_0000 by { assert Pow2(52) == 0x10_0000_0000_0000; }
    assert Pow2(60) == 0x1000_0000_0000_0000;
  }

  function Scaled(v: nat, shift: nat): nat { v * Pow2(shift) }

  /** A shift under which something stays in the word is below 64. */
  lemma ShiftFits(v: nat, shift: nat)
    requires 1 <= v && Scaled(v, shift) <= U64_MAX
    ensures shift < 64
  {
    hide Pow2;
    AtLeastOnce(v, Pow2(shift));
    Pow2Of64();
    if shift >= 64 {
      Pow2Monotone(64, shift);
    }
  }

  lemma AtLeastOnce(v: nat, q: nat)
    requires v >= 1
    ensures v * q >= q
  {
  }

  lemma SplitProduct(lo: nat, hi: nat, q: nat)
    ensures (128 * hi + lo) * q == lo * q + hi * (128 * q)
  {
  }

  /** One byte of a varint adds its seven bits at their place. */
  lemma SplitVarint(v: nat, shift: nat)
    ensures Scaled(v, shift) == Scaled(v % 128, shift) + Scaled(v / 128, shift + 7)
  {
    hide Pow2;
    Pow2Plus7(shift);
    SplitProduct(v % 128, v / 128, Pow2(shift));
    assert v == 128 * (v / 128) + v % 128;
  }

  lemma Pow2Plus7(shift: nat)
    ensures Pow2(shift + 7) == 128 * Pow2(shift)
  {
    assert Pow2(shift + 7) == 2 * Pow2(shift + 6) == 4 * Pow2(shift + 5) == 8 * Pow2(shift + 4);
    assert Pow2(shift + 4) == 2 * Pow2(shift + 3) == 4 * Pow2(shift + 2) == 8 * Pow2(shift + 1);
  }

  lemma ShiftSmall(x: nat, shift: nat)
    requires Scaled(x, shift) <= U64_MAX
    ensures ShiftLeft(x, shift) == Scaled(x, shift)
  {
  }

  lemma {:induction false} ReadBack(b: bytes, i: nat, v: nat, shift: nat, acc: nat)
    requires i + |Varint(v)| <= |b| && b[i..i + |Varint(v)|] == Varint(v)
    requires shift < 64 && Scaled(v, shift) <= U64_MAX
    ensures ReadFrom(b, i, shift, acc) == Some((acc + Scaled(v, shift), i + |Varint(v)|))
    decreases v
  {
    hide ShiftLeft, Scaled;
    var w := Varint(v);
    assert b[i] == b[i..i + |w|][0] == w[0];
    SplitVarint(v, shift);
    ShiftSmall(v % 128, shift);
    if v >= 128 {
      assert b[i + 1..i + |w|] == b[i..i + |w|][1..] == Varint(v / 128);
      ShiftFits(v / 128, shift + 7);
      ReadBack(b, i + 1, v / 128, shift + 7, acc + Scaled(v % 128, shift));
    }
  }

  /** Reading undoes writing for every 64-bit number, whatever follows. */
  lemma VarintRoundTrip(v: nat, x: bytes)
    requires v <= U64_MAX
    ensures ReadFrom(Varint(v) + x, 0, 0, 0) == Some((v, |Varint(v)|))
  {
    var b := Varint(v) + x;
    assert b[0..|Varint(v)|] == Varint(v);
    ReadBack(b, 0, v, 0, 0);
  }

  // ----- the message

  /** "xtls-rprx-vision" */
  const XRV: bytes := [120, 116, 108, 115, 45, 114, 112, 114, 120, 45, 118, 105, 115, 105, 111, 110]

  datatype AddonsMessage = AddonsMessage(flow: bytes, seed: bytes)

  const NONE := AddonsMessage([], [])

  datatype Decoded = Message(message: AddonsMessage) | Truncated | BadWire | BadUtf8 | Panicked

  function Field(tag: byte, data: bytes): bytes { [tag] + Varint(|data|) + data }

  function EncodeBody(a: AddonsMessage): bytes {
    Field(10, a.flow) + if a.seed == [] then [] else Field(18, a.seed)
  }

  /** Only the Vision flow is written at all; the length of the body must fit one byte. */
  function Encode(a: AddonsMessage): Option<bytes> {
    if a.flow != XRV then Some([0])
    else
      var body := EncodeBody(a);
      if |body| > 255 then None else Some([|body|] + body)
  }

  type Utf8 = bytes -> bool

  // ----- decoding, one turn of the loop at a time

  /** What one turn does: it ends the loop, skips a field, or takes the data of field 1 or 2. */
  datatype Turn = Halt(result: Decoded) | Skip(next: nat) | Keep(next: nat, field: nat, data: bytes)

  /**
    The turn at position i, which does not depend on what was decoded so far. A skipped length is added
    modulo 2^64, so the position can go back; the end of a kept field that wraps is before its start,
    and the slice panics.
  */
  function TurnAt(utf8: Utf8, body: bytes, i: nat): Turn
    requires i < |body|
  {
    var (field, wire) := (body[i] / 8, body[i] % 8);
    if wire != 0 && wire != 2 then Halt(BadWire)
    else
      match ReadFrom(body[i + 1..], 0, 0, 0)
      case None => Halt(BadWire)
      case Some((v, used)) =>
        var at := i + 1 + used;
        if wire == 0 then Skip(at)
        else if field != 1 && field != 2 then Skip((at + v) % (U64_MAX + 1))
        else if at + v > U64_MAX then Halt(Panicked)
        else if at + v > |body| then Halt(Truncated)
        else if field == 1 && !utf8(body[at..at + v]) then Halt(BadUtf8)
        else Keep(at + v, field, body[at..at + v])
  }

  datatype Progress = Going(i: nat, message: AddonsMessage) | Ended(result: Decoded)

  function Advance(utf8: Utf8, body: bytes, p: Progress): Progress {
    if p.Ended? then p
    else if p.i >= |body| then Ended(Message(p.message))
    else
      match TurnAt(utf8, body, p.i)
      case Halt(result) => Ended(result)
      case Skip(next) => Going(next, p.message)
      case Keep(next, field, data) =>
        Going(next, if field == 2 then p.message.(seed := data) else p.message.(flow := data))
  }

  /** How far decoding is after n tests of the loop condition. */
  function Steps(utf8: Utf8, body: bytes, n: nat): Progress {
    if n == 0 then Going(0, NONE) else Advance(utf8, body, Steps(utf8, body, n - 1))
  }

  /** The loop, for as many turns as it is given. */
  method DecodeBody(utf8: Utf8, body: bytes, turns: nat) returns (p: Progress)
    ensures p == Steps(utf8, body, turns)
  {
    hide Steps, TurnAt;
    StepsFirst(utf8, body);
    var a := NONE;
    var i := 0;
    for n := 0 to turns
      invariant i >= 0 && Steps(utf8, body, n) == Going(i, a)
    {
      StepsNext(utf8, body, n);
      if i >= |body| {
        EndedStays(utf8, body, n + 1, turns);
        return Ended(Message(a));
      }
      var turn := ReadField(utf8, body, i);
      match turn {
        case Halt(result) =>
          EndedStays(utf8, body, n + 1, turns);
          return Ended(result);
        case Skip(next) =>
          i := next;
        case Keep(next, field, data) =>
          i := next;
          if field == 1 {
            a := a.(flow := data);
          } else {
            a := a.(seed := data);
          }
      }
    }
    p := Going(i, a);
  }

  /** The body of the loop, up to what it does to the message. */
  method ReadField(utf8: Utf8, body: bytes, i: nat) returns (turn: Turn)
    requires i < |body|
    ensures turn == TurnAt(utf8, body, i)
    ensures turn.Keep? ==> turn.field == 1 || turn.field == 2
  {
    hide ReadFrom;
    var field, wire := body[i] / 8, body[i] % 8;
    if wire != 0 && wire != 2 {
      return Halt(BadWire);
    }
    var varint := ReadVarint(body[i + 1..]);
    if varint.None? {
      return Halt(BadWire);
    }
    var (v, used) := varint.value;
    var at := i + 1 + used;
    if wire == 0 {
      return Skip(at);
    }
    if field != 1 && field != 2 {
      return Skip((at + v) % (U64_MAX + 1));
    }
    if at + v > U64_MAX {
      return Halt(Panicked);
    }
    if at + v > |body| {
      return Halt(Truncated);
    }
    var data := body[at..at + v];
    if field == 1 && !utf8(data) {
      return Halt(BadUtf8);
    }
    turn := Keep(at + v, field, data);
  }

  lemma StepsFirst(utf8: Utf8, body: bytes)
    ensures Steps(utf8, body, 0) == Going(0, NONE)
  {
  }

  lemma StepsNext(utf8: Utf8, body: bytes, n: nat)
    ensures Steps(utf8, body, n + 1) == Advance(utf8, body, Steps(utf8, body, n))
  {
    hide Advance;
  }

  /** A loop that goes on was going on inside the body before. */
  lemma WasInside(utf8: Utf8, body: bytes, n: nat)
    requires Steps(utf8, body, n + 1).Going?
    ensures Steps(utf8, body, n).Going? && Steps(utf8, body, n).i < |body|
  {
    hide Steps, TurnAt;
    StepsNext(utf8, body, n);
  }

  lemma {:induction false} EndedStays(utf8: Utf8, body: bytes, m: nat, n: nat)
    requires m <= n && Steps(utf8, body, m).Ended?
    ensures Steps(utf8, body, n) == Steps(utf8, body, m)
  {
    if m == n {
    } else {
      EndedStays(utf8, body, m, n - 1);
    }
  }

  // ----- what a turn makes of each kind of field

  /** A varint read from position i of the body. */
  lemma VarintAt(body: bytes, i: nat, v: nat)
    requires v <= U64_MAX && i + |Varint(v)| <= |body| && body[i..i + |Varint(v)|] == Varint(v)
    ensures ReadFrom(body[i..], 0, 0, 0) == Some((v, |Varint(v)|))
  {
    hide Varint, ReadFrom;
    var n := |Varint(v)|;
    assert body[i..] == body[i..i + n] + body[i + n..];
    VarintRoundTrip(v, body[i + n..]);
  }

  /** A number field of any tag is skipped; so is a field of unknown tag, by its length modulo 2^64. */
  lemma FieldSkipped(utf8: Utf8, body: bytes, i: nat, v: nat)
    requires i < |body| && v <= U64_MAX
    requires i + 1 + |Varint(v)| <= |body| && body[i + 1..i + 1 + |Varint(v)|] == Varint(v)
    requires body[i] % 8 == 0 || (body[i] % 8 == 2 && body[i] != 10 && body[i] != 18)
    ensures var at := i + 1 + |Varint(v)|;
            TurnAt(utf8, body, i) == Skip(if body[i] % 8 == 0 then at else (at + v) % 0x1_0000_0000_0000_0000)
  {
    hide Varint, ReadFrom;
    VarintAt(body, i + 1, v);
  }

  /** A flow (tag 10) or seed (tag 18) is kept if it is there and, for a flow, valid; else how it is refused. */
  lemma FieldKept(utf8: Utf8, body: bytes, i: nat, v: nat)
    requires i < |body| && v <= U64_MAX
    requires i + 1 + |Varint(v)| <= |body| && body[i + 1..i + 1 + |Varint(v)|] == Varint(v)
    requires body[i] == 10 || body[i] == 18
    ensures var (at, turn) := (i + 1 + |Varint(v)|, TurnAt(utf8, body, i));
            if at + v >= 0x1_0000_0000_0000_0000 then turn == Halt(Panicked)
            else if at + v > |body| then turn == Halt(Truncated)
            else if body[i] == 10 && !utf8(body[at..at + v]) then turn == Halt(BadUtf8)
            else turn == Keep(at + v, if body[i] == 10 then 1 else 2, body[at..at + v])
  {
    hide Varint, ReadFrom;
    VarintAt(body, i + 1, v);
  }

  /** A turn finds the wire bad exactly for another wire type, or where no varint can be read. */
  lemma BadWireExactly(utf8: Utf8, body: bytes, i: nat)
    requires i < |body|
    ensures TurnAt(utf8, body, i) == Halt(BadWire) <==>
              (body[i] % 8 != 0 && body[i] % 8 != 2) || ReadFrom(body[i + 1..], 0, 0, 0).None?
  {
    hide ReadFrom;
  }

  /** A varint can be read exactly if one of the first ten bytes has its high bit clear; it ends at the first such. */
  lemma {:induction false} ReadableFrom(b: bytes, i: nat, k: nat, acc: nat)
    requires i <= |b| && k <= 10
    ensures var r := ReadFrom(b, i, 7 * k, acc);
            && (r.Some? <==> exists j :: i <= j < |b| && j < i + (10 - k) && b[j] < 128)
            && (r.Some? ==> i < r.value.1 <= |b| && b[r.value.1 - 1] < 128)
            && (r.Some? ==> forall j | i <= j < r.value.1 - 1 :: b[j] >= 128)
    decreases |b| - i
  {
    hide ShiftLeft;
    if i == |b| || k == 10 {
    } else if b[i] < 128 {
    } else {
      ReadableFrom(b, i + 1, k + 1, acc + ShiftLeft(b[i] % 128, 7 * k));
    }
  }

  // ----- when decoding ends

  ghost predicate Ends(utf8: Utf8, body: bytes) { exists n :: Steps(utf8, body, n).Ended? }

  /** No position is reached twice. */
  ghost predicate NeverBack(utf8: Utf8, body: bytes) {
    forall m, n | m < n && Steps(utf8, body, m).Going? && Steps(utf8, body, n).Going? ::
      Steps(utf8, body, m).i != Steps(utf8, body, n).i
  }

  /** The next position depends on the position alone. */
  lemma SamePlaceSameTurn(utf8: Utf8, body: bytes, p: Progress, q: Progress)
    requires p.Going? && q.Going? && p.i == q.i
    ensures Advance(utf8, body, p).Going? == Advance(utf8, body, q).Going?
    ensures Advance(utf8, body, p).Going? ==> Advance(utf8, body, p).i == Advance(utf8, body, q).i
  {
    hide TurnAt;
  }

  lemma {:induction false} Periodic(utf8: Utf8, body: bytes, m: nat, n: nat, d: nat)
    requires Steps(utf8, body, m).Going? && Steps(utf8, body, n).Going?
    requires Steps(utf8, body, m).i == Steps(utf8, body, n).i
    ensures Steps(utf8, body, m + d).Going? == Steps(utf8, body, n + d).Going?
    ensures Steps(utf8, body, m + d).Going? ==> Steps(utf8, body, m + d).i == Steps(utf8, body, n + d).i
  {
    hide Advance;
    if d == 0 {
    } else {
      Periodic(utf8, body, m, n, d - 1);
      var (p, q) := (Steps(utf8, body, m + d - 1), Steps(utf8, body, n + d - 1));
      if p.Going? {
        SamePlaceSameTurn(utf8, body, p, q);
      } else {
        EndedStays(utf8, body, m + d - 1, m + d);
        EndedStays(utf8, body, n + d - 1, n + d);
      }
    }
  }

  /** Once back at a position, the loop goes on for ever. */
  lemma {:induction false} BackForever(utf8: Utf8, body: bytes, m: nat, n: nat, k: nat)
    requires m < n && Steps(utf8, body, m).Going? && Steps(utf8, body, n).Going?
    requires Steps(utf8, body, m).i == Steps(utf8, body, n).i
    ensures Steps(utf8, body, k).Going?
    decreases k
  {
    hide Steps;
    if k <= n {
      if Steps(utf8, body, k).Ended? {
        EndedStays(utf8, body, k, n);
      }
    } else {
      BackForever(utf8, body, m, n, k - (n - m));
      Periodic(utf8, body, m, n, k - n);
    }
  }

  lemma {:induction false} AtMostBelow(s: set<nat>, n: nat)
    requires forall x | x in s :: x < n
    ensures |s| <= n
  {
    if n == 0 {
      assert s == {};
    } else {
      AtMostBelow(s - {n - 1}, n - 1);
    }
  }

  /** While the loop goes on without coming back, it uses up a new position of the body at each turn. */
  lemma {:induction false} Visited(utf8: Utf8, body: bytes, n: nat) returns (s: set<nat>)
    requires NeverBack(utf8, body) && Steps(utf8, body, n).Going?
    ensures |s| == n && forall x | x in s :: x < |body|
    ensures forall x | x in s :: Before(utf8, body, n, x)
  {
    hide Steps;
    if n == 0 {
      s := {};
    } else {
      WasInside(utf8, body, n - 1);
      var q := Visited(utf8, body, n - 1);
      s := q + {Steps(utf8, body, n - 1).i};
    }
  }

  /** Position x was reached before turn n. */
  ghost predicate Before(utf8: Utf8, body: bytes, n: nat, x: nat) {
    exists m | 0 <= m < n :: Steps(utf8, body, m).Going? && Steps(utf8, body, m).i == x
  }

  /** Decoding ends if and only if no position is reached twice, and then within one turn per byte and one more. */
  lemma EndsExactly(utf8: Utf8, body: bytes)
    ensures Ends(utf8, body) <==> NeverBack(utf8, body)
    ensures Ends(utf8, body) <==> Steps(utf8, body, |body| + 1).Ended?
  {
    hide Steps;
    if NeverBack(utf8, body) {
      if Steps(utf8, body, |body| + 1).Going? {
        var s := Visited(utf8, body, |body| + 1);
        AtMostBelow(s, |body|);
      }
    } else {
      var m, n :| m < n && Steps(utf8, body, m).Going? && Steps(utf8, body, n).Going?
                  && Steps(utf8, body, m).i == Steps(utf8, body, n).i;
      forall k: nat
        ensures Steps(utf8, body, k).Going?
      {
        BackForever(utf8, body, m, n, k);
      }
    }
  }

  /** The field at position i is skipped, and its length takes the position beyond 64 bits. */
  predicate Wraps(body: bytes, i: nat)
    requires i < |body|
  {
    var r := ReadFrom(body[i + 1..], 0, 0, 0);
    body[i] % 8 == 2 && body[i] / 8 != 1 && body[i] / 8 != 2 && r.Some? && i + 1 + r.value.1 + r.value.0 > U64_MAX
  }

  lemma TurnForward(utf8: Utf8, body: bytes, p: Progress)
    requires p.Going? && p.i < |body| && !Wraps(body, p.i) && Advance(utf8, body, p).Going?
    ensures p.i < Advance(utf8, body, p).i
  {
    hide ReadFrom;
  }

  lemma {:induction false} Forward(utf8: Utf8, body: bytes, m: nat, n: nat)
    requires forall i | 0 <= i < |body| :: !Wraps(body, i)
    requires m < n && Steps(utf8, body, n).Going?
    ensures Steps(utf8, body, m).Going? && Steps(utf8, body, m).i < Steps(utf8, body, n).i
  {
    hide Steps, Wraps, Advance;
    WasInside(utf8, body, n - 1);
    StepsNext(utf8, body, n - 1);
    TurnForward(utf8, body, Steps(utf8, body, n - 1));
    if m == n - 1 {
    } else {
      Forward(utf8, body, m, n - 1);
    }
  }

  /** If no skipped length wraps, decoding ends. */
  lemma NoWrapEnds(utf8: Utf8, body: bytes)
    requires forall i | 0 <= i < |body| :: !Wraps(body, i)
    ensures Ends(utf8, body)
  {
    hide Steps, Wraps;
    EndsExactly(utf8, body);
    forall m, n | m < n && Steps(utf8, body, m).Going? && Steps(utf8, body, n).Going?
      ensures Steps(utf8, body, m).i != Steps(utf8, body, n).i
    {
      Forward(utf8, body, m, n);
    }
  }

  /** Field 3 with a length of 2^64 - 11: skipping it leads back to its own start. */
  const ENDLESS: bytes := [0x1a, 0xf5, 0xff, 0xff, 0xff, 0xff, 0xff, 0xff, 0xff, 0xff, 0x01]

  lemma VarintMore(v: nat, b: byte)
    requires v >= 1 && b < 128
    ensures Varint(128 * v + b) == [b + 128] + Varint(v)
  {
  }

  lemma VarintOne()
    ensures Varint(1) == [1]
  {
  }

  lemma EndlessLength()
    ensures ENDLESS[1..] == Varint(U64_MAX - 10)
  {
    hide Varint;
    VarintOne();
    VarintMore(1, 127);
    VarintMore(0xff, 127);
    VarintMore(0x7fff, 127);
    VarintMore(0x3f_ffff, 127);
    VarintMore(0x1fff_ffff, 127);
    VarintMore(0xf_ffff_ffff, 127);
    VarintMore(0x7ff_ffff_ffff, 127);
    VarintMore(0x3_ffff_ffff_ffff, 127);
    VarintMore(0x1ff_ffff_ffff_ffff, 0x75);
  }

  lemma EndlessTurn(utf8: Utf8)
    ensures TurnAt(utf8, ENDLESS, 0) == Skip(0)
  {
    hide ReadFrom, Varint;
    EndlessLength();
    VarintRoundTrip(U64_MAX - 10, []);
    var w := Varint(U64_MAX - 10);
    assert w + [] == w == ENDLESS[1..];
  }

  /** On this body decoding never ends. */
  lemma EndlessBody(utf8: Utf8)
    ensures !Ends(utf8, ENDLESS)
  {
    hide Steps, TurnAt;
    EndlessTurn(utf8);
    StepsFirst(utf8, ENDLESS);
    StepsNext(utf8, ENDLESS, 0);
    EndsExactly(utf8, ENDLESS);
  }

  // ----- what can be written

  /** A message is too long to be written exactly if it has the Vision flow and a seed of more than 234 bytes. */
  lemma WritableExactly(a: AddonsMessage)
    ensures Encode(a).None? <==> a.flow == XRV && |a.seed| > 234
  {
    VarintLength(|XRV|);
    VarintLength(|a.seed|);
    hide Varint;
  }

  lemma VarintLength(v: nat)
    ensures v < 128 ==> |Varint(v)| == 1
    ensures 128 <= v < 0x4000 ==> |Varint(v)| == 2
    ensures v >= 0x4000 ==> |Varint(v)| >= 2
  {
  }

  // ----- the round trip

  lemma DecodeField(utf8: Utf8, body: bytes, i: nat, tag: byte, data: bytes, a: AddonsMessage)
    requires tag == 10 || tag == 18
    requires var f := Field(tag, data); i + |f| <= |body| && body[i..i + |f|] == f
    requires |body| <= 255 && (tag == 10 ==> utf8(data))
    ensures Advance(utf8, body, Going(i, a))
         == Going(i + |Field(tag, data)|, if tag == 10 then a.(flow := data) else a.(seed := data))
  {
    hide Varint, ReadFrom;
    var (f, w) := (Field(tag, data), Varint(|data|));
    var rest := body[i + 1..];
    var end := i + |f|;
    assert body[i] == body[i..end][0] == tag;
    assert body[i + 1..end] == body[i..end][1..] == w + data;
    assert rest == w + (data + body[end..]) by { assert rest == body[i + 1..end] + body[end..]; }
    VarintRoundTrip(|data|, data + body[end..]);
    var at := i + 1 + |w|;
    assert body[at..end] == body[i + 1..end][|w|..] == data;
  }

  lemma FieldLength(tag: byte, data: bytes)
    ensures |Field(tag, data)| >= 2 + |data|
  {
  }

  /** The body of a message with the Vision flow decodes to the message. */
  lemma VisionBody(utf8: Utf8, a: AddonsMessage)
    requires utf8(XRV) && a.flow == XRV && |EncodeBody(a)| <= 255
    ensures Steps(utf8, EncodeBody(a), |EncodeBody(a)| + 1) == Ended(Message(a))
  {
    hide Field, TurnAt, Steps;
    var body := EncodeBody(a);
    var f := Field(10, a.flow);
    assert body[0..|f|] == f;
    StepsFirst(utf8, body);
    StepsNext(utf8, body, 0);
    StepsNext(utf8, body, 1);
    DecodeField(utf8, body, 0, 10, a.flow, NONE);
    if a.seed != [] {
      assert body[|f|..|f| + |Field(18, a.seed)|] == Field(18, a.seed);
      DecodeField(utf8, body, |f|, 18, a.seed, NONE.(flow := a.flow));
    }
    StepsNext(utf8, body, 2);
    FieldLength(10, a.flow);
    FieldLength(18, a.seed);
    EndedStays(utf8, body, if a.seed == [] then 2 else 3, |body| + 1);
  }

  /** A message that can be written is read back exactly if it is the empty one or has the Vision flow. */
  lemma AddonsRoundTrip(utf8: Utf8, a: AddonsMessage)
    requires utf8(XRV) && Encode(a).Some?
    ensures var e := Encode(a).value;
            |e| == 1 + e[0] as int
            && (Steps(utf8, e[1..], |e|) == Ended(Message(a)) <==> a == NONE || a.flow == XRV)
  {
    hide EncodeBody, TurnAt;
    var e := Encode(a).value;
    if a.flow == XRV {
      assert e[1..] == EncodeBody(a);
      VisionBody(utf8, a);
    } else {
      assert e[1..] == [];
    }
  }
}
