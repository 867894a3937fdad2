/**
  The transform that hides only the five-byte record headers under a key stream. It finds the
  headers by itself, from the lengths they carry. `XorByte` is its meaning one byte at a time; the
  class works in place on whole buffers, skipping bodies in one go.
*/
module HeaderXor {
  import opened Bytes
  import opened RecordCipher

  /** Position in the key stream, body bytes still to skip, header bytes seen so far. */
  datatype XorState = XorState(pos: nat, skip: nat, header: bytes, decrypt: bool)

  type KeyStream = nat -> byte

  /** A header of five bytes is kept only when it does not decode: the stream is then dead. */
  predicate Failed(s: XorState) { |s.header| == 5 }

  predicate Consistent(s: XorState) {
    |s.header| <= 5 && (|s.header| == 5 ==> s.skip == 0 && DecodeHeader(s.header).Err?)
  }

  /** What a complete header does: its length is skipped next. */
  function Settle(s: XorState): XorState {
    if |s.header| == 5 && DecodeHeader(s.header).Ok?
    then s.(skip := DecodeHeader(s.header).value, header := []) else s
  }

  function XorByte(ks: KeyStream, s: XorState, b: byte): (XorState, byte) {
    if Failed(s) then (s, b)
    else if s.skip > 0 then (s.(skip := s.skip - 1), b)
    else
      var x := Xor(b, ks(s.pos));
      (Settle(s.(pos := s.pos + 1, header := s.header + [if s.decrypt then x else b])), x)
  }

  function XorAll(ks: KeyStream, s: XorState, bs: bytes): (r: (XorState, bytes))
    ensures |r.1| == |bs|
    decreases bs
  {
    if bs == [] then (s, [])
    else
      var (s1, b) := XorByte(ks, s, bs[0]);
      var (s2, rest) := XorAll(ks, s1, bs[1..]);
      (s2, [b] + rest)
  }

  /** Fragmentation does not matter, not even after a bad header. */
  lemma {:induction false} XorSplit(ks: KeyStream, s: XorState, a: bytes, b: bytes)
    ensures var (s1, a') := XorAll(ks, s, a);
            var (s2, b') := XorAll(ks, s1, b);
            XorAll(ks, s, a + b).0 == s2 && XorAll(ks, s, a + b).1 == a' + b'
    decreases a
  {
    if a == [] {
      assert a + b == b;
    } else {
      XorSplit(ks, XorByte(ks, s, a[0]).0, a[1..], b);
      assert (a + b)[0] == a[0] && (a + b)[1..] == a[1..] + b;
    }
  }

  /** The inbound transform undoes the outbound one on every byte string and ends in the same place. */
  lemma {:induction false} InboundUndoesOutbound(ks: KeyStream, s: XorState, bs: bytes)
    requires !s.decrypt
    ensures var (s', wire) := XorAll(ks, s, bs);
            var back := XorAll(ks, s.(decrypt := true), wire);
            !s'.decrypt && back.0 == s'.(decrypt := true) && back.1 == bs
    decreases bs
  {
    if bs == [] {
    } else {
      var (s1, b1) := XorByte(ks, s, bs[0]);
      XorInvolution(bs[0], ks(s.pos));
      assert XorByte(ks, s.(decrypt := true), b1) == (s1.(decrypt := true), bs[0]);
      InboundUndoesOutbound(ks, s1, bs[1..]);
      var wire := XorAll(ks, s, bs).1;
      assert wire[0] == b1 && wire[1..] == XorAll(ks, s1, bs[1..]).1;
    }
  }

  // ----- runs of the same kind of byte

  lemma {:induction false} FailedRun(ks: KeyStream, s: XorState, bs: bytes)
    requires Failed(s)
    ensures XorAll(ks, s, bs).0 == s && XorAll(ks, s, bs).1 == bs
  {
    if bs == [] {
    } else {
      FailedRun(ks, s, bs[1..]);
    }
  }

  lemma {:induction false} SkipRun(ks: KeyStream, s: XorState, bs: bytes)
    requires !Failed(s) && |bs| <= s.skip
    ensures XorAll(ks, s, bs).0 == s.(skip := s.skip - |bs|) && XorAll(ks, s, bs).1 == bs
    decreases bs
  {
    if bs == [] {
    } else {
      SkipRun(ks, s.(skip := s.skip - 1), bs[1..]);
    }
  }

  function Masked(ks: KeyStream, pos: nat, bs: bytes): (r: bytes)
    ensures |r| == |bs|
  {
    seq(|bs|, i requires 0 <= i < |bs| => Xor(bs[i], ks(pos + i)))
  }

  /** The state after recording and masking bs, part of one header. */
  function AfterHeaderBytes(ks: KeyStream, s: XorState, bs: bytes): XorState {
    Settle(s.(pos := s.pos + |bs|, header := s.header + if s.decrypt then Masked(ks, s.pos, bs) else bs))
  }

  lemma XorCons(ks: KeyStream, s: XorState, bs: bytes)
    requires bs != []
    ensures var (s1, b) := XorByte(ks, s, bs[0]);
            XorAll(ks, s, bs).0 == XorAll(ks, s1, bs[1..]).0 && XorAll(ks, s, bs).1 == [b] + XorAll(ks, s1, bs[1..]).1
    ensures |bs| == 1 ==>
              XorAll(ks, s, bs).0 == XorByte(ks, s, bs[0]).0 && XorAll(ks, s, bs).1 == [XorByte(ks, s, bs[0]).1]
  {
    hide XorByte;
    assert |bs| == 1 ==> bs[1..] == [];
  }

  lemma MaskedCons(ks: KeyStream, pos: nat, bs: bytes)
    requires bs != []
    ensures Masked(ks, pos, bs) == [Xor(bs[0], ks(pos))] + Masked(ks, pos + 1, bs[1..])
    ensures |bs| == 1 ==> Masked(ks, pos, bs) == [Xor(bs[0], ks(pos))]
  {
    hide Xor;
  }

  /** Up to the end of a header every byte is masked and recorded. */
  lemma {:induction false} HeaderRun(ks: KeyStream, s: XorState, bs: bytes)
    requires s.skip == 0 && 1 <= |bs| <= 5 - |s.header|
    ensures XorAll(ks, s, bs).0 == AfterHeaderBytes(ks, s, bs)
    ensures XorAll(ks, s, bs).1 == Masked(ks, s.pos, bs)
    decreases bs
  {
    hide Xor, DecodeHeader, XorAll, Masked;
    XorCons(ks, s, bs);
    MaskedCons(ks, s.pos, bs);
    var x := Masked(ks, s.pos, bs);
    if |bs| == 1 {
      assert bs == [bs[0]];
    } else {
      var s1 := s.(pos := s.pos + 1, header := s.header + [if s.decrypt then x[0] else bs[0]]);
      HeaderRun(ks, s1, bs[1..]);
      assert !s.decrypt ==> s1.header + bs[1..] == s.header + bs;
      assert s.decrypt ==> s1.header + Masked(ks, s1.pos, bs[1..]) == s.header + x;
    }
  }

  // ----- whole records

  predicate WholeRecord(r: bytes) { |r| >= 5 && DecodeHeader(r[..5]) == Ok(|r| - 5) }

  predicate AtBoundary(s: XorState) { s.skip == 0 && s.header == [] }

  /** The records with only their headers masked, the key stream advancing by five per record. */
  function MaskHeaders(ks: KeyStream, pos: nat, rs: seq<bytes>): bytes
    requires forall r | r in rs :: WholeRecord(r)
    decreases rs
  {
    if rs == [] then []
    else
      assert WholeRecord(rs[0]);
      Masked(ks, pos, rs[0][..5]) + rs[0][5..] + MaskHeaders(ks, pos + 5, rs[1..])
  }

  lemma OneRecord(ks: KeyStream, s: XorState, r: bytes)
    requires !s.decrypt && AtBoundary(s) && WholeRecord(r)
    ensures XorAll(ks, s, r).0 == s.(pos := s.pos + 5)
    ensures XorAll(ks, s, r).1 == Masked(ks, s.pos, r[..5]) + r[5..]
  {
    HeaderRun(ks, s, r[..5]);
    assert s.header + r[..5] == r[..5];
    var s1 := XorAll(ks, s, r[..5]).0;
    SkipRun(ks, s1, r[5..]);
    hide XorAll, Masked, DecodeHeader;
    XorSplit(ks, s, r[..5], r[5..]);
    assert r == r[..5] + r[5..];
  }

  /** On a stream of whole records the outbound transform changes headers only. */
  lemma {:induction false} OnlyHeadersChange(ks: KeyStream, s: XorState, rs: seq<bytes>)
    requires !s.decrypt && AtBoundary(s) && forall r | r in rs :: WholeRecord(r)
    ensures XorAll(ks, s, Flatten(rs)).0 == s.(pos := s.pos + 5 * |rs|)
    ensures XorAll(ks, s, Flatten(rs)).1 == MaskHeaders(ks, s.pos, rs)
    decreases rs
  {
    if rs == [] {
      assert XorAll(ks, s, []) == (s, []);
    } else {
      hide XorAll, Masked, DecodeHeader;
      var s1 := s.(pos := s.pos + 5);
      OneRecord(ks, s, rs[0]);
      OnlyHeadersChange(ks, s1, rs[1..]);
      XorSplit(ks, s, rs[0], Flatten(rs[1..]));
    }
  }

  // ----- a buffer whose first bytes are done

  /** The first n bytes of the buffer are transformed, the rest is still as in the input. */
  ghost predicate Done(ks: KeyStream, s0: XorState, input: bytes, n: nat, s: XorState, buf: bytes) {
    n <= |input| && XorAll(ks, s0, input[..n]).0 == s && buf == XorAll(ks, s0, input[..n]).1 + input[n..]
  }

  lemma DoneNone(ks: KeyStream, s: XorState, input: bytes)
    ensures Done(ks, s, input, 0, s, input)
  {
  }

  lemma DoneAll(ks: KeyStream, s0: XorState, input: bytes, s: XorState, buf: bytes)
    requires Done(ks, s0, input, |input|, s, buf)
    ensures s == XorAll(ks, s0, input).0 && buf == XorAll(ks, s0, input).1
  {
    assert input[..|input|] == input;
  }

  lemma DoneMore(ks: KeyStream, s0: XorState, input: bytes, a: nat, b: nat, s: XorState, buf: bytes)
    requires Done(ks, s0, input, a, s, buf) && a <= b <= |input|
    ensures var (s', x) := XorAll(ks, s, buf[a..b]);
            buf[a..b] == input[a..b] && Done(ks, s0, input, b, s', buf[..a] + x + buf[b..])
  {
    hide XorAll;
    XorSplit(ks, s0, input[..a], input[a..b]);
    assert input[..b] == input[..a] + input[a..b];
    assert buf[a..b] == input[a..b] && buf[b..] == input[b..];
  }

  lemma DoneSkip(ks: KeyStream, s0: XorState, input: bytes, a: nat, b: nat, s: XorState, buf: bytes)
    requires Done(ks, s0, input, a, s, buf) && a <= b <= |input| && b - a <= s.skip && Consistent(s)
    ensures Done(ks, s0, input, b, s.(skip := s.skip - (b - a)), buf)
  {
    if a < b {
      DoneMore(ks, s0, input, a, b, s, buf);
      SkipRun(ks, s, buf[a..b]);
      hide XorAll;
      assert buf[..a] + buf[a..b] + buf[b..] == buf;
    }
  }

  lemma DoneFailed(ks: KeyStream, s0: XorState, input: bytes, a: nat, s: XorState, buf: bytes)
    requires Done(ks, s0, input, a, s, buf) && Failed(s)
    ensures Done(ks, s0, input, |input|, s, buf)
  {
    DoneMore(ks, s0, input, a, |input|, s, buf);
    FailedRun(ks, s, buf[a..|input|]);
    hide XorAll;
    assert buf[..a] + buf[a..|input|] + buf[|input|..] == buf;
  }

  class Transform {
    const ks: KeyStream
    var pos: nat
    var skip: nat
    var header: bytes
    const decrypt: bool

    function Value(): XorState
      reads this
    {
      XorState(pos, skip, header, decrypt)
    }

    constructor (ks: KeyStream, skip: nat, decrypt: bool)
      ensures this.ks == ks && Value() == XorState(0, skip, [], decrypt) && Consistent(Value())
    {
      this.ks, this.skip, this.decrypt := ks, skip, decrypt;
      pos, header := 0, [];
    }

    /** Masks part of the buffer in place, advancing the key stream. */
    method ApplyKeyStream(buf: array<byte>, lo: nat, hi: nat)
      requires lo <= hi <= buf.Length
      modifies `pos, buf
      ensures buf[..] == old(buf[..lo]) + Masked(ks, old(pos), old(buf[lo..hi])) + old(buf[hi..])
      ensures pos == old(pos) + hi - lo
    {
      var i := lo;
      while i < hi
        invariant lo <= i <= hi && pos == old(pos) + i - lo
        invariant forall k | 0 <= k < buf.Length ::
                    buf[k] == if lo <= k < i then Xor(old(buf[k]), ks(old(pos) + k - lo)) else old(buf[k])
      {
        buf[i] := Xor(buf[i], ks(pos));
        pos := pos + 1;
        i := i + 1;
      }
    }

    /** The part of a header that is in the buffer: recorded, masked, and decoded when complete. */
    method ApplyHeader(buf: array<byte>, lo: nat, hi: nat) returns (r: Result<(), RecordError>)
      requires lo <= hi <= buf.Length && skip == 0 && hi - lo <= 5 - |header|
      requires hi == lo ==> |header| == 5 && DecodeHeader(header).Err?
      modifies this, buf
      ensures Value() == XorAll(ks, old(Value()), old(buf[lo..hi])).0
      ensures buf[..] == old(buf[..lo]) + XorAll(ks, old(Value()), old(buf[lo..hi])).1 + old(buf[hi..])
      ensures r.Err? <==> Failed(Value())
      ensures Consistent(Value()) && (lo == hi ==> r.Err?)
    {
      ghost var (s1, part) := (Value(), buf[lo..hi]);
      if lo < hi {
        HeaderRun(ks, s1, part);
      } else {
        assert XorAll(ks, s1, part) == (s1, []);
      }
      hide XorAll, Masked, DecodeHeader;
      if !decrypt {
        header := header + buf[lo..hi];
      }
      ApplyKeyStream(buf, lo, hi);
      if decrypt {
        assert buf[lo..hi] == Masked(ks, s1.pos, part);
        header := header + buf[lo..hi];
      }
      if |header| == 5 {
        var length := DecodeHeader(header);
        if length.Err? {
          return Err(length.error);
        }
        skip := length.value;
        header := [];
      }
      r := Ok(());
    }

    /** In place over the whole buffer; an error leaves the rest of the buffer as it was. */
    method Apply(buf: array<byte>) returns (r: Result<(), RecordError>)
      requires Consistent(Value())
      modifies this, buf
      ensures Value() == XorAll(ks, old(Value()), old(buf[..])).0
      ensures buf[..] == XorAll(ks, old(Value()), old(buf[..])).1
      ensures Consistent(Value())
      ensures r.Err? <==> buf.Length > 0 && Failed(Value())
    {
      hide Done, XorAll, DecodeHeader;
      ghost var (s0, input) := (Value(), buf[..]);
      DoneNone(ks, s0, input);
      var offset := 0;
      while offset < buf.Length
        invariant 0 <= offset <= buf.Length && Consistent(Value())
        invariant Done(ks, s0, input, offset, Value(), buf[..])
        invariant Failed(Value()) ==> offset == 0
        decreases buf.Length - offset
      {
        ghost var (s1, o1) := (Value(), offset);
        var skipped := Min(skip, buf.Length - offset);
        skip := skip - skipped;
        offset := offset + skipped;
        DoneSkip(ks, s0, input, o1, offset, s1, buf[..]);
        if offset == buf.Length {
          break;
        }
        var end := offset + Min(5 - |header|, buf.Length - offset);
        DoneMore(ks, s0, input, offset, end, Value(), buf[..]);
        assert buf[..][..offset] == buf[..offset] && buf[..][offset..end] == buf[offset..end]
               && buf[..][end..] == buf[end..];
        r := ApplyHeader(buf, offset, end);
        offset := end;
        if r.Err? {
          DoneFailed(ks, s0, input, offset, Value(), buf[..]);
          DoneAll(ks, s0, input, Value(), buf[..]);
          return;
        }
      }
      DoneAll(ks, s0, input, Value(), buf[..]);
      r := Ok(());
    }
  }
}
