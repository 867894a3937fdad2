/**
  The encrypted byte stream end to end: writers that seal chunks under one lock, and a reader that
  reassembles records from any fragmentation of the wire. `ReadRecords` is the meaning of a byte
  string: the plaintext of the complete records at its front.
*/
module EncryptedStream {
  import opened Bytes
  import opened RecordCipher
  import opened HeaderXor

  const CHUNK := 8192

  // ----- the meaning of a received byte string

  /** Plaintext of the complete records, cipher state after them, bytes left over, and whether all is well. */
  datatype Parsed = Parsed(plain: bytes, cipher: Cipher, rest: bytes, ok: bool)

  function ReadRecords(c: Crypto, s: Cipher, b: bytes): (q: Parsed)
    ensures |q.rest| <= |b|
    decreases |b|
  {
    if |b| < 5 then Parsed([], s, b, true)
    else
      match DecodeHeader(b[..5])
      case Err(_) => Parsed([], s, b, false)
      case Ok(length) =>
        if |b| < 5 + length then Parsed([], s, b, true)
        else
          var (s', r) := Open(c, s, b[..5], b[5..5 + length]);
          match r
          case Err(_) => Parsed([], s', b[5 + length..], false)
          case Ok(p) =>
            var q := ReadRecords(c, s', b[5 + length..]);
            q.(plain := p + q.plain)
  }

  /** No complete record at the front, and no bad header either. */
  predicate Waiting(b: bytes) {
    |b| < 5 || (DecodeHeader(b[..5]).Ok? && |b| < 5 + DecodeHeader(b[..5]).value)
  }

  /** One unfolding of ReadRecords. */
  lemma ReadOne(c: Crypto, s: Cipher, b: bytes)
    ensures Waiting(b) ==> ReadRecords(c, s, b) == Parsed([], s, b, true)
    ensures !Waiting(b) && DecodeHeader(b[..5]).Err? ==> ReadRecords(c, s, b) == Parsed([], s, b, false)
    ensures !Waiting(b) && DecodeHeader(b[..5]).Ok? ==>
              var n := 5 + DecodeHeader(b[..5]).value;
              var (s', r) := Open(c, s, b[..5], b[5..n]);
              ReadRecords(c, s, b) ==
                if r.Err? then Parsed([], s', b[n..], false)
                else var q := ReadRecords(c, s', b[n..]); q.(plain := r.value + q.plain)
  {
  }

  /** More bytes continue where the parse stopped; after a failure they change nothing that was read. */
  lemma {:induction false} ReadMore(c: Crypto, s: Cipher, a: bytes, x: bytes)
    ensures var q := ReadRecords(c, s, a);
            if q.ok then
              var q' := ReadRecords(c, q.cipher, q.rest + x);
              ReadRecords(c, s, a + x) == q'.(plain := q.plain + q'.plain)
            else !ReadRecords(c, s, a + x).ok && ReadRecords(c, s, a + x).plain == q.plain
    decreases |a|
  {
    hide DecodeHeader, Open, ReadRecords;
    ReadOne(c, s, a);
    if Waiting(a) {
      var q := ReadRecords(c, s, a + x);
      assert [] + q.plain == q.plain;
    } else {
      assert (a + x)[..5] == a[..5];
      ReadOne(c, s, a + x);
      if DecodeHeader(a[..5]).Ok? {
        var n := 5 + DecodeHeader(a[..5]).value;
        assert (a + x)[5..n] == a[5..n] && (a + x)[n..] == a[n..] + x;
        var (s', r) := Open(c, s, a[..5], a[5..n]);
        if r.Ok? {
          ReadMore(c, s', a[n..], x);
        }
      }
    }
  }

  /** What was read so far is a prefix of what more bytes give. */
  lemma ReadPrefix(c: Crypto, s: Cipher, a: bytes, x: bytes)
    ensures ReadRecords(c, s, a).plain <= ReadRecords(c, s, a + x).plain
    ensures ReadRecords(c, s, a + x).ok ==> ReadRecords(c, s, a).ok
  {
    hide ReadRecords;
    ReadMore(c, s, a, x);
  }

  // ----- the optional header transform

  function XorMaybe(ks: KeyStream, x: Option<XorState>, b: bytes): (Option<XorState>, bytes) {
    match x
    case None => (None, b)
    case Some(s) => var (s', b') := XorAll(ks, s, b); (Some(s'), b')
  }

  predicate Alive(x: Option<XorState>) { x.Some? ==> Consistent(x.value) && !Failed(x.value) }

  lemma XorMaybeSplit(ks: KeyStream, x: Option<XorState>, a: bytes, b: bytes)
    ensures var (x1, a') := XorMaybe(ks, x, a);
            var (x2, b') := XorMaybe(ks, x1, b);
            XorMaybe(ks, x, a + b) == (x2, a' + b')
            && (x1.Some? && Failed(x1.value) ==> x2 == x1)
  {
    if x.Some? {
      XorSplit(ks, x.value, a, b);
      var s1 := XorAll(ks, x.value, a).0;
      if Failed(s1) {
        FailedRun(ks, s1, b);
      }
    }
  }

  lemma {:induction false} XorKeepsConsistent(ks: KeyStream, s: XorState, b: bytes)
    requires Consistent(s)
    ensures Consistent(XorAll(ks, s, b).0)
    decreases b
  {
    if b == [] {
    } else {
      XorKeepsConsistent(ks, XorByte(ks, s, b[0]).0, b[1..]);
    }
  }

  /** Unmasking wire[..m] continues that of wire[..n]; a transform that died stays dead. */
  lemma XorMaybeStep(ks: KeyStream, x0: Option<XorState>, wire: bytes, n: nat, m: nat)
    requires n <= m <= |wire| && Alive(XorMaybe(ks, x0, wire[..n]).0)
    ensures var (x, a) := XorMaybe(ks, x0, wire[..n]);
            var (x', b) := XorMaybe(ks, x, wire[n..m]);
            XorMaybe(ks, x0, wire[..m]) == (x', a + b)
            && (Alive(x') || !Alive(XorMaybe(ks, x0, wire).0))
  {
    XorMaybeSplit(ks, x0, wire[..n], wire[n..m]);
    assert wire[..n] + wire[n..m] == wire[..m];
    var x := XorMaybe(ks, x0, wire[..n]).0;
    if x.Some? {
      XorKeepsConsistent(ks, x.value, wire[n..m]);
    }
    hide XorAll, DecodeHeader;
    XorMaybeSplit(ks, x0, wire[..m], wire[m..]);
    assert wire[..m] + wire[m..] == wire;
  }

  // ----- the reader: its buffers always hold the part of the meaning not yet handed out

  /** Having handed out `out`, cipher state s and buffer enc still produce the rest of what was received. */
  ghost predicate Caught(c: Crypto, s0: Cipher, received: bytes, out: bytes, s: Cipher, enc: bytes) {
    var q := ReadRecords(c, s, enc);
    ReadRecords(c, s0, received) == q.(plain := out + q.plain)
  }

  lemma CaughtStart(c: Crypto, s: Cipher)
    ensures Caught(c, s, [], [], s, [])
  {
  }

  lemma CaughtOpen(c: Crypto, s0: Cipher, received: bytes, out: bytes, s: Cipher, enc: bytes, length: nat)
    requires Caught(c, s0, received, out, s, enc)
    requires |enc| >= 5 + length && DecodeHeader(enc[..5]) == Ok(length)
    ensures var (s', r) := Open(c, s, enc[..5], enc[5..5 + length]);
            if r.Ok? then Caught(c, s0, received, out + r.value, s', enc[5 + length..])
            else !ReadRecords(c, s0, received).ok
  {
    hide Open, DecodeHeader;
    var (s', r) := Open(c, s, enc[..5], enc[5..5 + length]);
    if r.Ok? {
      var q := ReadRecords(c, s', enc[5 + length..]);
      assert out + (r.value + q.plain) == out + r.value + q.plain;
    }
  }

  lemma CaughtWaiting(c: Crypto, s0: Cipher, received: bytes, out: bytes, s: Cipher, enc: bytes)
    requires Caught(c, s0, received, out, s, enc) && Waiting(enc)
    ensures ReadRecords(c, s0, received) == Parsed(out, s, enc, true)
  {
    assert out + [] == out;
  }

  lemma CaughtMore(c: Crypto, s0: Cipher, received: bytes, out: bytes, s: Cipher, enc: bytes, x: bytes)
    requires Caught(c, s0, received, out, s, enc) && Waiting(enc)
    ensures Caught(c, s0, received + x, out, s, enc + x)
  {
    CaughtWaiting(c, s0, received, out, s, enc);
    hide ReadRecords;
    ReadMore(c, s0, received, x);
  }

  datatype ReadError = InvalidData | UnexpectedEof | Transport
  datatype ReadResult = Ready(data: bytes) | Pending | Error(kind: ReadError)

  class EncryptedReader {
    const c: Crypto
    const ks: KeyStream
    const steady: bool                // the transport neither stalls nor fails
    ghost const cipher0: Cipher
    ghost const xor0: Option<XorState>
    ghost const wire: bytes           // everything the transport gives before it ends
    ghost var delivered: bytes        // everything handed to the caller so far
    var source: bytes                 // the part of the wire still to come
    var cipher: Cipher
    var xor: Option<XorState>
    var encrypted: bytes
    var plaintext: bytes
    var expected: Option<nat>

    /** The wire up to what is still to come, with headers unmasked. */
    ghost function Received(): bytes
      reads this
      requires |source| <= |wire|
    {
      XorMaybe(ks, xor0, wire[..|wire| - |source|]).1
    }

    ghost predicate Valid()
      reads this
    {
      && |source| <= |wire|
      && source == wire[|wire| - |source|..]
      && xor == XorMaybe(ks, xor0, wire[..|wire| - |source|]).0
      && Alive(xor)
      && Caught(c, cipher0, Received(), delivered + plaintext, cipher, encrypted)
      && (expected.Some? ==> |encrypted| >= 5 && DecodeHeader(encrypted[..5]) == Ok(expected.value))
    }

    /** The meaning of the whole wire. */
    ghost function Whole(): Parsed {
      ReadRecords(c, cipher0, XorMaybe(ks, xor0, wire).1)
    }

    /** The wire has no bad header and no record that fails to open. */
    ghost predicate Honest() {
      Whole().ok && Alive(XorMaybe(ks, xor0, wire).0)
    }

    constructor (c: Crypto, ks: KeyStream, steady: bool, cipher: Cipher, xor: Option<XorState>, wire: bytes)
      requires Alive(xor)
      ensures Valid() && delivered == [] && this.steady == steady
      ensures this.c == c && this.ks == ks && cipher0 == cipher && xor0 == xor && this.wire == wire && source == wire
    {
      this.c, this.ks, this.steady, this.cipher, this.xor, this.source := c, ks, steady, cipher, xor, wire;
      cipher0, xor0, this.wire, delivered := cipher, xor, wire, [];
      encrypted, plaintext, expected := [], [], None;
      new;
      CaughtStart(c, cipher);
    }

    /** What was received is a prefix of the unmasked wire. */
    lemma ReceivedIsPrefix()
      requires Valid()
      ensures ReadRecords(c, cipher0, Received()).plain <= Whole().plain
      ensures Whole().ok ==> ReadRecords(c, cipher0, Received()).ok
      ensures source == [] ==> ReadRecords(c, cipher0, Received()) == Whole()
    {
      var n := |wire| - |source|;
      XorMaybeStep(ks, xor0, wire, n, |wire|);
      assert wire[..|wire|] == wire;
      ReadPrefix(c, cipher0, Received(), XorMaybe(ks, xor, wire[n..]).1);
    }

    /** Everything handed out or buffered is part of the meaning of the wire. */
    lemma CaughtOut()
      requires Valid()
      ensures delivered + plaintext <= Whole().plain
    {
      ReceivedIsPrefix();
    }

    lemma BadHeader()
      requires Valid() && |encrypted| >= 5 && DecodeHeader(encrypted[..5]).Err?
      ensures !Whole().ok
    {
      ReceivedIsPrefix();
    }

    /** Takes n more raw bytes from the transport; unmasks them and appends them to the buffer. */
    method Receive(n: nat) returns (ok: bool)
      requires Valid() && 1 <= n <= |source| && Waiting(encrypted)
      modifies `source, `xor, `encrypted
      ensures |source| == old(|source|) - n
      ensures if ok then Valid() else !Honest()
    {
      hide XorMaybe, Alive, Caught, Waiting, DecodeHeader;
      ghost var (before, taken) := (Received(), |wire| - |source|);
      var chunk := source[..n];
      XorMaybeStep(ks, xor0, wire, taken, taken + n);
      assert chunk == wire[taken..taken + n] && source[n..] == wire[taken + n..];
      source := source[n..];
      var (x, received) := XorMaybe(ks, xor, chunk);
      xor := x;
      if !Alive(xor) {
        return false;
      }
      CaughtMore(c, cipher0, before, delivered + plaintext, cipher, encrypted, received);
      assert |encrypted| >= 5 ==> (encrypted + received)[..5] == encrypted[..5];
      encrypted := encrypted + received;
      ok := true;
    }

    /** Hands out part of what is decrypted. */
    method HandOut(room: nat) returns (data: bytes)
      requires Valid() && plaintext != []
      modifies `plaintext, `delivered
      ensures Valid() && data == old(plaintext)[..Min(|old(plaintext)|, room)]
      ensures delivered == old(delivered) + data <= Whole().plain
    {
      hide Caught, XorMaybe, Alive, DecodeHeader, ReadRecords;
      CaughtOut();
      var n := Min(|plaintext|, room);
      data := plaintext[..n];
      ghost var handed := delivered + plaintext;
      plaintext := plaintext[n..];
      delivered := delivered + data;
      assert delivered + plaintext == handed;
    }

    /** Opens the complete record at the front of the buffer. */
    method OpenNext() returns (ok: bool)
      requires Valid() && plaintext == [] && expected.Some? && |encrypted| >= 5 + expected.value
      modifies `cipher, `encrypted, `plaintext, `expected
      ensures if ok then Valid() && |encrypted| < old(|encrypted|) else !Honest() && plaintext == []
    {
      hide Caught, XorMaybe, Alive, DecodeHeader, ReadRecords, Open;
      var end := 5 + expected.value;
      CaughtOpen(c, cipher0, Received(), delivered + plaintext, cipher, encrypted, expected.value);
      ReceivedIsPrefix();
      var (s, p) := Open(c, cipher, encrypted[..5], encrypted[5..end]);
      cipher := s;
      encrypted := encrypted[end..];
      if p.Err? {
        return false;
      }
      assert delivered + [] + p.value == delivered + p.value;
      plaintext := p.value;
      expected := None;
      ok := true;
    }

    /** One read from the transport, which may stall, fail, end, or give any part of what is left. */
    method Fill() returns (r: Option<ReadResult>)
      requires Valid() && plaintext == [] && Waiting(encrypted)
      modifies `source, `xor, `encrypted
      ensures r.None? ==> Valid() && |source| < old(|source|)
      ensures r.Some? ==> (r.value.Error? || Valid()) && (r.value.Ready? ==> r.value.data == [])
      ensures r == Some(Ready([])) ==> source == [] && Whole() == Parsed(delivered, cipher, [], true)
      ensures r == Some(Error(UnexpectedEof)) ==>
                source == [] && encrypted != [] && Whole() == Parsed(delivered, cipher, encrypted, true)
      ensures r == Some(Error(InvalidData)) ==> !Honest()
      ensures r == Some(Pending) || r == Some(Error(Transport)) ==>
                !steady && Valid() && ReadRecords(c, cipher0, Received()) == Parsed(delivered, cipher, encrypted, true)
    {
      hide Caught, XorMaybe, Alive, DecodeHeader, ReadRecords;
      CaughtWaiting(c, cipher0, Received(), delivered + plaintext, cipher, encrypted);
      assert delivered + plaintext == delivered;
      var stalled: bool, broken: bool := *, *;
      if stalled && !steady {
        return Some(Pending);
      }
      if broken && !steady {
        return Some(Error(Transport));
      }
      if source == [] {
        ReceivedIsPrefix();
        return Some(if encrypted == [] then Ready([]) else Error(UnexpectedEof));
      }
      var n := 1;
      n :| 1 <= n <= |source| && n <= 8192;
      var ok := Receive(n);
      r := if ok then None else Some(Error(InvalidData));
    }

    /**
      One poll with a buffer of `room` bytes, over a transport that may stall, fail or give any part
      of what is left. Data is the next part of the meaning of the wire. A zero-length read into a
      non-empty buffer, and an end-of-file error, occur only when the wire is used up: the first
      exactly at a record boundary, the second exactly inside a record. What is already decrypted is
      handed out at once, and when the transport stalls or fails everything received has been.
    */
    method PollRead(room: nat) returns (r: ReadResult)
      requires Valid()
      modifies `delivered, `source, `cipher, `xor, `encrypted, `plaintext, `expected
      ensures r.Error? || Valid()
      ensures r.Ready? ==> |r.data| <= room && delivered == old(delivered) + r.data <= Whole().plain
      ensures !r.Ready? ==> delivered == old(delivered)
      ensures r == Ready([]) && room > 0 ==> source == [] && Whole() == Parsed(delivered, cipher, [], true)
      ensures r == Error(UnexpectedEof) ==>
                source == [] && encrypted != [] && Whole() == Parsed(delivered, cipher, encrypted, true)
      ensures r == Error(InvalidData) ==> !Honest()
      ensures old(plaintext) != [] ==> r == Ready(old(plaintext)[..Min(|old(plaintext)|, room)])
      ensures !r.Ready? ==> plaintext == []
      ensures r == Pending || r == Error(Transport) ==> !steady
      ensures r == Pending || r == Error(Transport) ==>
                Valid() && ReadRecords(c, cipher0, Received()) == Parsed(delivered, cipher, encrypted, true)
    {
      hide Caught, XorMaybe, Alive, DecodeHeader, ReadRecords;
      while true
        invariant Valid() && delivered == old(delivered)
        invariant old(plaintext) != [] ==> plaintext == old(plaintext)
        decreases |source|, |encrypted|
      {
        if plaintext != [] {
          var data := HandOut(room);
          return Ready(data);
        }
        if expected.None? && |encrypted| >= 5 {
          var length := DecodeHeader(encrypted[..5]);
          if length.Err? {
            BadHeader();
            return Error(InvalidData);
          }
          expected := Some(length.value);
        }
        if expected.Some? && |encrypted| >= 5 + expected.value {
          var ok := OpenNext();
          if !ok {
            return Error(InvalidData);
          }
          continue;
        }
        assert Waiting(encrypted);
        CaughtOut();
        assert delivered + plaintext == delivered;
        var step := Fill();
        if step.Some? {
          assert delivered + [] == delivered;
          return step.value;
        }
      }
    }
  }

  // ----- the sending side

  /** The locked state of a writer and everything it has put on the wire. */
  datatype Line = Line(cipher: Cipher, xor: Option<XorState>, wire: bytes)

  function SendOne(c: Crypto, ks: KeyStream, l: Line, chunk: bytes): Line
    requires Sealable(chunk)
  {
    SealableExactly(c, l.cipher, chunk);
    var (cipher, record) := Seal(c, l.cipher, chunk);
    var (xor, masked) := XorMaybe(ks, l.xor, record.value);
    Line(cipher, xor, l.wire + masked)
  }

  /** A whole payload, in chunks of at most 8192 bytes; an empty payload sends nothing. */
  function SendAll(c: Crypto, ks: KeyStream, l: Line, payload: bytes): Line
    decreases |payload|
  {
    if payload == [] then l
    else
      var n := Min(CHUNK, |payload|);
      SendAll(c, ks, SendOne(c, ks, l, payload[..n]), payload[n..])
  }

  /** A payload of up to 8192 bytes is one record; of a longer one the first record carries exactly 8192. */
  lemma ChunksOf8192(c: Crypto, ks: KeyStream, l: Line, payload: bytes)
    requires payload != []
    ensures |payload| <= 8192 ==> SendAll(c, ks, l, payload) == SendOne(c, ks, l, payload)
    ensures |payload| > 8192 ==>
              SendAll(c, ks, l, payload) == SendAll(c, ks, SendOne(c, ks, l, payload[..8192]), payload[8192..])
  {
    hide SendOne;
    if |payload| <= 8192 {
      assert payload[..|payload|] == payload && payload[|payload|..] == [];
    }
  }

  function Inbound(x: Option<XorState>): Option<XorState> {
    match x case None => None case Some(s) => Some(s.(decrypt := true))
  }

  predicate Outbound(x: Option<XorState>) { x.Some? ==> !x.value.decrypt && AtBoundary(x.value) }

  /** A reader that saw the whole wire has read `plain`, has nothing left over and is in the writer's state. */
  ghost predicate InStep(c: Crypto, ks: KeyStream, s0: Cipher, x0: Option<XorState>, l: Line, plain: bytes) {
    var (x, received) := XorMaybe(ks, Inbound(x0), l.wire);
    Outbound(l.xor) && x == Inbound(l.xor) && ReadRecords(c, s0, received) == Parsed(plain, l.cipher, [], true)
  }

  lemma InStepStart(c: Crypto, ks: KeyStream, s: Cipher, x: Option<XorState>)
    requires Outbound(x)
    ensures InStep(c, ks, s, x, Line(s, x, []), [])
  {
  }

  lemma ReadSealed(c: Crypto, s: Cipher, chunk: bytes)
    requires OpenUndoesSeal(c) && Sealable(chunk)
    ensures var (s', r) := Seal(c, s, chunk);
            r.Ok? && WholeRecord(r.value) && ReadRecords(c, s, r.value) == Parsed(chunk, s', [], true)
  {
    LockStep(c, s, chunk);
    hide Seal, Open, DecodeHeader;
    var (s', r) := Seal(c, s, chunk);
    var n := |r.value|;
    assert r.value[5..n] == r.value[5..] && r.value[n..] == [];
    assert ReadRecords(c, s', []) == Parsed([], s', [], true);
    assert chunk + [] == chunk;
  }

  /** Masking a record keeps the writer at a boundary; unmasking gives the record back. */
  lemma MaskedRecord(ks: KeyStream, x: Option<XorState>, record: bytes)
    requires Outbound(x) && WholeRecord(record)
    ensures var (x', masked) := XorMaybe(ks, x, record);
            Outbound(x') && XorMaybe(ks, Inbound(x), masked) == (Inbound(x'), record)
  {
    if x.Some? {
      OneRecord(ks, x.value, record);
      InboundUndoesOutbound(ks, x.value, record);
    }
  }

  lemma SendOneInStep(c: Crypto, ks: KeyStream, s0: Cipher, x0: Option<XorState>, l: Line, plain: bytes, chunk: bytes)
    requires OpenUndoesSeal(c) && Sealable(chunk) && InStep(c, ks, s0, x0, l, plain)
    ensures InStep(c, ks, s0, x0, SendOne(c, ks, l, chunk), plain + chunk)
  {
    ReadSealed(c, l.cipher, chunk);
    var record := Seal(c, l.cipher, chunk).1.value;
    MaskedRecord(ks, l.xor, record);
    var masked := XorMaybe(ks, l.xor, record).1;
    XorMaybeSplit(ks, Inbound(x0), l.wire, masked);
    hide ReadRecords, XorMaybe, Seal, WholeRecord, Outbound, OpenUndoesSeal;
    ReadMore(c, s0, XorMaybe(ks, Inbound(x0), l.wire).1, record);
    assert [] + record == record;
  }

  lemma {:induction false} SendAllInStep(c: Crypto, ks: KeyStream, s0: Cipher, x0: Option<XorState>, l: Line,
      plain: bytes, payload: bytes)
    requires OpenUndoesSeal(c) && InStep(c, ks, s0, x0, l, plain)
    ensures InStep(c, ks, s0, x0, SendAll(c, ks, l, payload), plain + payload)
    decreases |payload|
  {
    hide InStep, OpenUndoesSeal, SendOne;
    if payload == [] {
      assert plain + payload == plain;
    } else {
      var n := Min(CHUNK, |payload|);
      SendOneInStep(c, ks, s0, x0, l, plain, payload[..n]);
      SendAllInStep(c, ks, s0, x0, SendOne(c, ks, l, payload[..n]), plain + payload[..n], payload[n..]);
      assert plain + payload[..n] + payload[n..] == plain + payload;
    }
  }

  /** The writer object: one call of Send under the lock. */
  class ProtocolWriter {
    const c: Crypto
    const ks: KeyStream
    var cipher: Cipher
    var xor: Option<XorState>
    var wire: bytes

    function Value(): Line
      reads this
    {
      Line(cipher, xor, wire)
    }

    constructor (c: Crypto, ks: KeyStream, cipher: Cipher, xor: Option<XorState>)
      ensures this.c == c && this.ks == ks && Value() == Line(cipher, xor, [])
    {
      this.c, this.ks, this.cipher, this.xor, wire := c, ks, cipher, xor, [];
    }

    method Send(payload: bytes)
      modifies this
      ensures Value() == SendAll(c, ks, old(Value()), payload)
    {
      hide Seal, XorMaybe;
      var i := 0;
      while i < |payload|
        invariant 0 <= i <= |payload|
        invariant SendAll(c, ks, old(Value()), payload) == SendAll(c, ks, Value(), payload[i..])
      {
        var n := Min(CHUNK, |payload| - i);
        var chunk := payload[i..i + n];
        assert chunk == payload[i..][..n] && payload[i..][n..] == payload[i + n..];
        SealableExactly(c, cipher, chunk);
        var (s, record) := Seal(c, cipher, chunk);
        var (x, masked) := XorMaybe(ks, xor, record.value);
        cipher, xor, wire := s, x, wire + masked;
        i := i + n;
      }
    }
  }

  // ----- concurrent writers

  /** The shared line, what the lock holder has yet to send, and the payloads in the order the lock was taken. */
  datatype Writers = Writers(line: Line, holder: Option<bytes>, order: seq<bytes>, closed: bool)

  /** Some task takes the lock; the holder sends one record; the holder is done; the download side goes away. */
  datatype Action = Acquire(payload: bytes) | SendNext | Release | Close

  predicate Enabled(w: Writers, a: Action) {
    match a
    case Acquire(_) => w.holder.None?
    case SendNext => w.holder.Some? && w.holder.value != []
    case Release => w.holder == Some([])
    case Close => true
  }

  /** A send that finds the download closed loses its record, gives up and frees the lock. */
  function Apply(c: Crypto, ks: KeyStream, w: Writers, a: Action): Writers
    requires Enabled(w, a)
  {
    match a
    case Acquire(p) => w.(holder := Some(p), order := w.order + [p])
    case SendNext =>
      var p := w.holder.value;
      var n := Min(CHUNK, |p|);
      var line := SendOne(c, ks, w.line, p[..n]);
      if w.closed then w.(line := line.(wire := w.line.wire), holder := None)
      else w.(line := line, holder := Some(p[n..]))
    case Release => w.(holder := None)
    case Close => w.(closed := true)
  }

  predicate Runs(c: Crypto, ks: KeyStream, w: Writers, acts: seq<Action>)
    decreases acts
  {
    acts != [] ==> Enabled(w, acts[0]) && Runs(c, ks, Apply(c, ks, w, acts[0]), acts[1..])
  }

  function After(c: Crypto, ks: KeyStream, w: Writers, acts: seq<Action>): Writers
    requires Runs(c, ks, w, acts)
    decreases acts
  {
    if acts == [] then w else After(c, ks, Apply(c, ks, w, acts[0]), acts[1..])
  }

  /** The steps a holder takes alone: one per chunk, then it frees the lock. */
  function HolderActs(length: nat): seq<Action> {
    if length == 0 then [Release] else [SendNext] + HolderActs(length - Min(CHUNK, length))
  }

  lemma {:induction false} HolderSends(c: Crypto, ks: KeyStream, w: Writers)
    requires w.holder.Some? && !w.closed
    ensures Runs(c, ks, w, HolderActs(|w.holder.value|))
    ensures After(c, ks, w, HolderActs(|w.holder.value|))
         == w.(line := SendAll(c, ks, w.line, w.holder.value), holder := None)
    decreases |w.holder.value|
  {
    hide SendOne;
    var p := w.holder.value;
    var acts := HolderActs(|p|);
    if p == [] {
      assert acts == [Release] && acts[1..] == [];
    } else {
      var n := Min(CHUNK, |p|);
      var w' := Apply(c, ks, w, SendNext);
      HolderSends(c, ks, w');
      assert acts[0] == SendNext && acts[1..] == HolderActs(|p| - n) && |w'.holder.value| == |p| - n;
    }
  }

  /** A send that nobody interrupts puts its whole payload on the line, as the writer's loop does, and frees the
      lock. */
  lemma SendAlone(c: Crypto, ks: KeyStream, w: Writers, p: bytes)
    requires w.holder.None? && !w.closed
    ensures var acts := [Acquire(p)] + HolderActs(|p|);
            Runs(c, ks, w, acts)
            && After(c, ks, w, acts) == w.(line := SendAll(c, ks, w.line, p), order := w.order + [p])
  {
    hide SendAll;
    var acts := [Acquire(p)] + HolderActs(|p|);
    var w' := Apply(c, ks, w, Acquire(p));
    assert acts[1..] == HolderActs(|p|);
    HolderSends(c, ks, w');
  }

  /** A send after the download side has gone uses up a nonce for its first chunk, sends nothing and frees the lock. */
  lemma SendTooLate(c: Crypto, ks: KeyStream, w: Writers, p: bytes)
    requires w.holder.None? && p != []
    ensures var acts := [Close, Acquire(p), SendNext];
            Runs(c, ks, w, acts)
            && var line := SendOne(c, ks, w.line, p[..Min(CHUNK, |p|)]);
               After(c, ks, w, acts) == Writers(line.(wire := w.line.wire), None, w.order + [p], true)
  {
    hide SendOne;
    var w1 := Apply(c, ks, w, Close);
    var w2 := Apply(c, ks, w1, Acquire(p));
    var acts := [Close, Acquire(p), SendNext];
    assert acts[1..] == [Acquire(p), SendNext] && [Acquire(p), SendNext][1..] == [SendNext] && [SendNext][1..] == [];
    var w3 := Apply(c, ks, w2, SendNext);
    assert Runs(c, ks, w2, [SendNext]) && After(c, ks, w2, [SendNext]) == After(c, ks, w3, []) == w3;
    assert Runs(c, ks, w1, [Acquire(p), SendNext]) && After(c, ks, w1, [Acquire(p), SendNext]) == w3;
  }

  function Held(w: Writers): bytes { if w.holder.Some? then w.holder.value else [] }

  /** While open, a reader of the wire has every payload in lock order but for what the holder still has;
      once closed, the wire stays what it was then. */
  ghost predicate Ordered(c: Crypto, ks: KeyStream, s0: Cipher, x0: Option<XorState>, w: Writers) {
    exists l, plain | InStep(c, ks, s0, x0, l, plain) ::
      l.wire == w.line.wire
      && if w.closed then plain <= Flatten(w.order) else l == w.line && plain + Held(w) == Flatten(w.order)
  }

  lemma OrderedStep(c: Crypto, ks: KeyStream, s0: Cipher, x0: Option<XorState>, w: Writers, a: Action)
    requires OpenUndoesSeal(c) && Ordered(c, ks, s0, x0, w) && Enabled(w, a)
    ensures Ordered(c, ks, s0, x0, Apply(c, ks, w, a))
  {
    hide InStep, OpenUndoesSeal, SendOne;
    var l, plain :| InStep(c, ks, s0, x0, l, plain) && l.wire == w.line.wire
      && if w.closed then plain <= Flatten(w.order) else l == w.line && plain + Held(w) == Flatten(w.order);
    match a
    case Acquire(p) =>
      FlattenSnoc(w.order, p);
    case SendNext =>
      var p := w.holder.value;
      var n := Min(CHUNK, |p|);
      if !w.closed {
        SendOneInStep(c, ks, s0, x0, l, plain, p[..n]);
        assert plain + p[..n] + p[n..] == plain + p;
      }
    case Release =>
    case Close =>
      assert plain <= plain + Held(w);
  }

  lemma {:induction false} OrderedRun(c: Crypto, ks: KeyStream, s0: Cipher, x0: Option<XorState>, w: Writers,
      acts: seq<Action>)
    requires OpenUndoesSeal(c) && Ordered(c, ks, s0, x0, w) && Runs(c, ks, w, acts)
    ensures Ordered(c, ks, s0, x0, After(c, ks, w, acts))
    decreases acts
  {
    if acts == [] {
    } else {
      OrderedStep(c, ks, s0, x0, w, acts[0]);
      OrderedRun(c, ks, s0, x0, Apply(c, ks, w, acts[0]), acts[1..]);
    }
  }

  /**
    Every interleaving of concurrent sends, every prefix of the wire: what a reader makes of the
    prefix is an error-free prefix of the payloads in lock order; of the whole wire of an open line
    it is all of them but what the holder still has, with nothing left over.
  */
  lemma WireMeansPayloads(c: Crypto, ks: KeyStream, s: Cipher, x: Option<XorState>, acts: seq<Action>, n: nat)
    requires OpenUndoesSeal(c) && Outbound(x)
    requires Runs(c, ks, Writers(Line(s, x, []), None, [], false), acts)
    requires n <= |After(c, ks, Writers(Line(s, x, []), None, [], false), acts).line.wire|
    ensures var w := After(c, ks, Writers(Line(s, x, []), None, [], false), acts);
            var (x', received) := XorMaybe(ks, Inbound(x), w.line.wire[..n]);
            var q := ReadRecords(c, s, received);
            q.ok && Alive(x') && q.plain <= Flatten(w.order)
            && (n == |w.line.wire| ==> q.rest == [] && (!w.closed ==> q.plain + Held(w) == Flatten(w.order)))
  {
    var w0 := Writers(Line(s, x, []), None, [], false);
    InStepStart(c, ks, s, x);
    assert [] + [] == Flatten(w0.order);
    OrderedRun(c, ks, s, x, w0, acts);
    var w := After(c, ks, w0, acts);
    var l, plain :| InStep(c, ks, s, x, l, plain) && l.wire == w.line.wire
      && if w.closed then plain <= Flatten(w.order) else l == w.line && plain + Held(w) == Flatten(w.order);
    PrefixMeaning(c, ks, s, x, l, plain, n);
  }

  /** Any prefix of a wire in step reads without error, as a prefix of its plaintext. */
  lemma PrefixMeaning(c: Crypto, ks: KeyStream, s: Cipher, x: Option<XorState>, l: Line, plain: bytes, n: nat)
    requires InStep(c, ks, s, x, l, plain) && Outbound(x) && n <= |l.wire|
    ensures var (x', received) := XorMaybe(ks, Inbound(x), l.wire[..n]);
            var q := ReadRecords(c, s, received);
            q.ok && Alive(x') && q.plain <= plain && (n == |l.wire| ==> q.plain == plain && q.rest == [])
  {
    var (a, b) := (l.wire[..n], l.wire[n..]);
    XorMaybeSplit(ks, Inbound(x), a, b);
    assert a + b == l.wire;
    var (x1, received) := XorMaybe(ks, Inbound(x), a);
    if x.Some? {
      XorKeepsConsistent(ks, x.value.(decrypt := true), a);
    }
    hide XorAll, ReadRecords, DecodeHeader;
    ReadPrefix(c, s, received, XorMaybe(ks, x1, b).1);
    assert n == |l.wire| ==> a == l.wire;
  }

  /**
    A reader with any sequence of non-empty buffers on the first n bytes of the wire. It never sees
    invalid data; a zero-length read ends the stream and happens only when these bytes end at a record
    boundary, an end-of-file error only when they end inside a record. At the end of the whole
    wire of an open line with no send in progress it has every payload. Over a transport that neither
    stalls nor fails, with more buffers than there are bytes, it gets to one of these ends.
  */
  method ReadStream(c: Crypto, ks: KeyStream, steady: bool, s: Cipher, x: Option<XorState>, ghost acts: seq<Action>,
                    wire: bytes, rooms: seq<nat>) returns (out: bytes, last: ReadResult)
    requires OpenUndoesSeal(c) && Outbound(x) && Runs(c, ks, Writers(Line(s, x, []), None, [], false), acts)
    requires wire <= After(c, ks, Writers(Line(s, x, []), None, [], false), acts).line.wire
    requires forall n | n in rooms :: n > 0
    ensures var w := After(c, ks, Writers(Line(s, x, []), None, [], false), acts);
            && out <= Flatten(w.order)
            && last != Error(InvalidData)
            && (last == Ready([]) && wire == w.line.wire && !w.closed ==> out + Held(w) == Flatten(w.order))
            && (last == Error(UnexpectedEof) ==> wire != w.line.wire)
    ensures last == Ready([]) || last == Error(UnexpectedEof) ==>
              var q := ReadRecords(c, s, XorMaybe(ks, Inbound(x), wire).1);
              out == q.plain && (last == Ready([]) <==> q.rest == [])
    ensures steady && |rooms| > |ReadRecords(c, s, XorMaybe(ks, Inbound(x), wire).1).plain| ==>
              last == Ready([]) || last == Error(UnexpectedEof)
  {
    hide ReadRecords, XorMaybe, Alive, Caught, OpenUndoesSeal, Runs, After, Outbound, Apply;
    WireMeansPayloads(c, ks, s, x, acts, |wire|);
    out, last := [], Pending;
    ghost var w := After(c, ks, Writers(Line(s, x, []), None, [], false), acts);
    assert wire == w.line.wire[..|wire|];
    OutboundAlive(x);
    var reader := new EncryptedReader(c, ks, steady, s, Inbound(x), wire);
    for i := 0 to |rooms|
      invariant reader.Valid() && reader.delivered == out
      invariant out <= Flatten(w.order) && (last.Ready? || last.Pending?) && last != Ready([])
      invariant out <= reader.Whole().plain && (steady ==> |out| >= i)
    {
      assert rooms[i] in rooms;
      last := reader.PollRead(rooms[i]);
      if last.Error? {
        assert last.kind == InvalidData || last.kind == UnexpectedEof || last.kind == Transport;
        return;
      }
      if last.Ready? {
        out := out + last.data;
        if last.data == [] {
          assert last == Ready([]) && out == reader.delivered;
          return;
        }
      }
    }
  }

  lemma OutboundAlive(x: Option<XorState>)
    requires Outbound(x)
    ensures Alive(Inbound(x))
  {
  }
}
