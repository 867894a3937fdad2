/**
  The VLESS-Encryption record layer: a 96-bit nonce counter, a five-byte header and a key that is
  replaced when the counter wraps. `Seal` and `Open` are the value-level steps; the class
  `RecordState` is the object that updates its nonce array and key in place.
*/
module RecordCipher {
  import opened Bytes

  const TAG_LEN := 16
  const NONCE_LEN := 12
  const MAX_PLAINTEXT := 8192
  const MAX_NONCE: bytes := [255, 255, 255, 255, 255, 255, 255, 255, 255, 255, 255, 255]

  datatype RecordError =
    | InvalidHeader
    | InvalidLength(length: nat)
    | PlaintextTooLarge(length: nat)
    | LengthMismatch
    | Authentication

  /** The library ciphers and the key derivation. Arguments: key, nonce, associated data, text. */
  datatype Crypto = Crypto(
    seal: (bytes, bytes, bytes, bytes) -> bytes,
    open: (bytes, bytes, bytes, bytes) -> Option<bytes>,
    kdf: (bytes, bytes) -> bytes)

  /** All that is assumed of the cipher: opening undoes sealing, and the tag has 16 bytes. */
  ghost predicate OpenUndoesSeal(c: Crypto) {
    forall k, n, a, p :: |c.seal(k, n, a, p)| == |p| + TAG_LEN && c.open(k, n, a, c.seal(k, n, a, p)) == Some(p)
  }

  /** The assumption can be met: a cipher that only appends a blank tag meets it. */
  lemma OpenUndoesSealIsSatisfiable()
    ensures exists c :: OpenUndoesSeal(c)
  {
    var tag: bytes := [0, 0, 0, 0, 0, 0, 0, 0, 0, 0, 0, 0, 0, 0, 0, 0];
    var c := Crypto((k, n, a, p) => p + tag,
                    (k, n, a, t) => if |t| >= TAG_LEN then Some(t[..|t| - TAG_LEN]) else None,
                    (x, m) => m);
    assert forall p: bytes :: (p + tag)[..|p + tag| - TAG_LEN] == p;
    assert OpenUndoesSeal(c);
  }

  // ----- the nonce counter

  /** Adds one to a big-endian number, byte by byte from the right; all-ones wraps to all-zeros. */
  function Increment(s: bytes): (r: bytes)
    ensures |r| == |s|
  {
    if s == [] then []
    else
      var (rest, last) := (s[..|s| - 1], s[|s| - 1]);
      if last < 255 then rest + [last + 1] else Increment(rest) + [0]
  }

  lemma IncrementLast(rest: bytes, last: byte)
    ensures Increment(rest + [last]) == if last < 255 then rest + [last + 1] else Increment(rest) + [0]
  {
    var s := rest + [last];
    assert s[..|s| - 1] == rest;
  }

  method IncrementNonce(nonce: array<byte>)
    modifies nonce
    ensures nonce[..] == Increment(old(nonce[..]))
  {
    ghost var all := Increment(nonce[..]);
    var i := nonce.Length;
    assert nonce[..i] == nonce[..] && all + nonce[i..] == all;
    while i > 0
      invariant 0 <= i <= nonce.Length
      invariant all == Increment(nonce[..i]) + nonce[i..]
    {
      hide Increment;
      ghost var after := nonce[i..];
      i := i - 1;
      var b := nonce[i];
      ghost var rest := nonce[..i];
      assert nonce[..i + 1] == rest + [b];
      IncrementLast(rest, b);
      nonce[i] := if b == 255 then 0 else b + 1;
      assert nonce[..i] == rest && nonce[i..] == [nonce[i]] + after;
      if nonce[i] != 0 {
        assert nonce[..] == nonce[..i] + nonce[i..];
        return;
      }
    }
    assert nonce[..] == nonce[0..] && Increment(nonce[..0]) == [];
  }

  function Pow256(n: nat): (r: nat)
    ensures r > 0
  {
    if n == 0 then 1 else 256 * Pow256(n - 1)
  }

  function BeValue(s: bytes): (v: nat)
    ensures v < Pow256(|s|)
  {
    if s == [] then 0 else 256 * BeValue(s[..|s| - 1]) + s[|s| - 1]
  }

  lemma {:induction false} IncrementCases(s: bytes)
    ensures BeValue(Increment(s)) == if BeValue(s) + 1 == Pow256(|s|) then 0 else BeValue(s) + 1
  {
    if s == [] {
    } else {
      var (rest, last) := (s[..|s| - 1], s[|s| - 1]);
      IncrementCases(rest);
      assert Increment(s)[..|s| - 1] == if last < 255 then rest else Increment(rest);
    }
  }

  lemma ModOfAtMost(v: nat, p: nat)
    requires v <= p && p > 0
    ensures v % p == if v == p then 0 else v
  {
  }

  /** The counter step is +1 modulo 256^n on the big-endian value. */
  lemma IncrementIsPlusOne(s: bytes)
    ensures BeValue(Increment(s)) == (BeValue(s) + 1) % Pow256(|s|)
  {
    hide BeValue, Pow256, Increment;
    IncrementCases(s);
    ModOfAtMost(BeValue(s) + 1, Pow256(|s|));
  }

  lemma {:induction false} MaxNonceValue(s: bytes)
    ensures BeValue(s) + 1 == Pow256(|s|) <==> forall i | 0 <= i < |s| :: s[i] == 255
  {
    if s == [] {
    } else {
      var rest := s[..|s| - 1];
      MaxNonceValue(rest);
      assert forall i | 0 <= i < |rest| :: rest[i] == s[i];
    }
  }

  // ----- the header

  function EncodeHeader(length: nat): (r: Result<bytes, RecordError>)
    ensures r.Ok? <==> 17 <= length <= 16640
    ensures r.Ok? ==> |r.value| == 5 && DecodeHeader(r.value) == Ok(length)
  {
    hide Be16, U16;
    if 17 <= length <= 16640 then
      var header := [0x17, 0x03, 0x03] + Be16(length);
      assert header[..3] == [0x17, 0x03, 0x03] && header[3] == Be16(length)[0] && header[4] == Be16(length)[1];
      Ok(header)
    else Err(InvalidLength(length))
  }

  function DecodeHeader(h: bytes): (r: Result<nat, RecordError>)
    requires |h| == 5
    ensures r.Ok? ==> 17 <= r.value <= 16640
  {
    var length := U16(h[3], h[4]);
    if h[..3] != [0x17, 0x03, 0x03] || !(17 <= length <= 16640) then Err(InvalidHeader) else Ok(length)
  }

  /** A header that decodes is the encoding of what it decodes to. */
  lemma HeaderCanonical(h: bytes)
    requires |h| == 5 && DecodeHeader(h).Ok?
    ensures EncodeHeader(DecodeHeader(h).value) == Ok(h)
  {
    assert h == h[..3] + [h[3], h[4]];
  }

  // ----- records

  datatype Cipher = Cipher(key: bytes, united: bytes, nonce: bytes)

  function Rekey(c: Crypto, s: Cipher, record: bytes): Cipher {
    if s.nonce == MAX_NONCE then s.(key := c.kdf(record, s.united)) else s
  }

  /** One sealed record: header and ciphertext under the incremented nonce; state unchanged on error. */
  function Seal(c: Crypto, s: Cipher, plaintext: bytes): (Cipher, Result<bytes, RecordError>) {
    if |plaintext| > MAX_PLAINTEXT then (s, Err(PlaintextTooLarge(|plaintext|)))
    else
      match EncodeHeader(|plaintext| + TAG_LEN)
      case Err(e) => (s, Err(e))
      case Ok(header) =>
        var nonce := Increment(s.nonce);
        var record := header + c.seal(s.key, nonce, header, plaintext);
        (Rekey(c, s, record).(nonce := nonce), Ok(record))
  }

  /** Opens one record; a failed authentication has already advanced the nonce, and does not re-key. */
  function Open(c: Crypto, s: Cipher, header: bytes, ciphertext: bytes): (Cipher, Result<bytes, RecordError>)
    requires |header| == 5
  {
    match DecodeHeader(header)
    case Err(e) => (s, Err(e))
    case Ok(length) =>
      if length != |ciphertext| then (s, Err(LengthMismatch))
      else
        var nonce := Increment(s.nonce);
        match c.open(s.key, nonce, header, ciphertext)
        case None => (s.(nonce := nonce), Err(Authentication))
        case Some(p) => (Rekey(c, s, header + ciphertext).(nonce := nonce), Ok(p))
  }

  class RecordState {
    const c: Crypto
    var key: bytes
    var united: bytes
    var nonce: array<byte>

    function Value(): Cipher
      reads this, nonce
    {
      Cipher(key, united, nonce[..])
    }

    constructor (c: Crypto, context: bytes, united: bytes)
      ensures this.c == c && fresh(nonce)
      ensures Value() == Cipher(c.kdf(context, united), united, seq(NONCE_LEN, _ => 0))
    {
      this.c, this.united := c, united;
      key := c.kdf(context, united);
      nonce := new byte[NONCE_LEN](_ => 0);
    }

    method SealRecord(plaintext: bytes) returns (r: Result<bytes, RecordError>)
      modifies this, nonce
      ensures nonce == old(nonce)
      ensures (Value(), r) == Seal(c, old(Value()), plaintext)
    {
      if |plaintext| > MAX_PLAINTEXT {
        return Err(PlaintextTooLarge(|plaintext|));
      }
      var header := EncodeHeader(|plaintext| + TAG_LEN);
      if header.Err? {
        return Err(header.error);
      }
      var rekey := nonce[..] == MAX_NONCE;
      IncrementNonce(nonce);
      var record := header.value + c.seal(key, nonce[..], header.value, plaintext);
      if rekey {
        key := c.kdf(record, united);
      }
      r := Ok(record);
    }

    method OpenRecord(header: bytes, ciphertext: bytes) returns (r: Result<bytes, RecordError>)
      requires |header| == 5
      modifies this, nonce
      ensures nonce == old(nonce)
      ensures (Value(), r) == Open(c, old(Value()), header, ciphertext)
    {
      var length := DecodeHeader(header);
      if length.Err? {
        return Err(length.error);
      }
      if length.value != |ciphertext| {
        return Err(LengthMismatch);
      }
      var rekey := nonce[..] == MAX_NONCE;
      IncrementNonce(nonce);
      var plaintext := c.open(key, nonce[..], header, ciphertext);
      if plaintext.None? {
        return Err(Authentication);
      }
      if rekey {
        key := c.kdf(header + ciphertext, united);
      }
      r := Ok(plaintext.value);
    }
  }

  // ----- sender and receiver in step

  predicate Sealable(p: bytes) { 1 <= |p| <= MAX_PLAINTEXT }

  /** The plaintexts that seal are those of 1 to 8192 bytes; the empty one has no valid header. */
  lemma SealableExactly(c: Crypto, s: Cipher, p: bytes)
    ensures Seal(c, s, p).1.Ok? <==> Sealable(p)
    ensures Seal(c, s, p).1.Ok? <==> 1 <= |p| <= 8192
    ensures !Sealable(p) ==> Seal(c, s, p).1 == Err(if p == [] then InvalidLength(16) else PlaintextTooLarge(|p|))
    ensures !Sealable(p) ==> Seal(c, s, p).0 == s
  {
    assert EncodeHeader(|p| + TAG_LEN).Ok? <==> 1 <= |p| <= 16624;
  }

  /** Opening a sealed record gives the plaintext and leaves both sides in the same state, re-key or not. */
  lemma LockStep(c: Crypto, s: Cipher, p: bytes)
    requires OpenUndoesSeal(c) && Sealable(p)
    ensures var (s', r) := Seal(c, s, p);
            r.Ok? && |r.value| == 5 + |p| + TAG_LEN
            && DecodeHeader(r.value[..5]) == Ok(|p| + TAG_LEN)
            && Open(c, s, r.value[..5], r.value[5..]) == (s', Ok(p))
  {
    var header := EncodeHeader(|p| + TAG_LEN).value;
    var body := c.seal(s.key, Increment(s.nonce), header, p);
    var record := header + body;
    assert record[..5] == header && record[5..] == body;
  }

  /** Sealing a list in order. */
  function SealAll(c: Crypto, s: Cipher, ps: seq<bytes>): (Cipher, seq<bytes>)
    requires forall p | p in ps :: Sealable(p)
    decreases ps
  {
    if ps == [] then (s, [])
    else
      SealableExactly(c, s, ps[0]);
      var (s1, r) := Seal(c, s, ps[0]);
      var (s2, rest) := SealAll(c, s1, ps[1..]);
      (s2, [r.value] + rest)
  }

  predicate HasHeader(r: bytes) { |r| >= 5 }

  /** Opening a list in order. */
  function OpenAll(c: Crypto, s: Cipher, rs: seq<bytes>): (Cipher, seq<Result<bytes, RecordError>>)
    requires forall r | r in rs :: HasHeader(r)
    decreases rs
  {
    if rs == [] then (s, [])
    else
      assert HasHeader(rs[0]);
      var (s1, p) := Open(c, s, rs[0][..5], rs[0][5..]);
      var (s2, rest) := OpenAll(c, s1, rs[1..]);
      (s2, [p] + rest)
  }

  function AllOk(ps: seq<bytes>): seq<Result<bytes, RecordError>> { seq(|ps|, i requires 0 <= i < |ps| => Ok(ps[i])) }

  /** However many records are sealed, opening them in order gives every plaintext and equal states at the end. */
  lemma {:induction false} LockStepForever(c: Crypto, s: Cipher, ps: seq<bytes>)
    requires OpenUndoesSeal(c) && forall p | p in ps :: Sealable(p)
    ensures var (s', rs) := SealAll(c, s, ps);
            (forall r | r in rs :: HasHeader(r)) && OpenAll(c, s, rs).0 == s' && OpenAll(c, s, rs).1 == AllOk(ps)
    decreases ps
  {
    hide Seal, Open, OpenUndoesSeal;
    if ps == [] {
    } else {
      LockStep(c, s, ps[0]);
      var (s1, r) := Seal(c, s, ps[0]);
      var rest := SealAll(c, s1, ps[1..]).1;
      LockStepForever(c, s1, ps[1..]);
      var rs := SealAll(c, s, ps).1;
      assert rs == [r.value] + rest && rs[1..] == rest;
      assert AllOk(ps) == [Ok(ps[0])] + AllOk(ps[1..]);
    }
  }

  /** What goes on the wire, byte by byte in the header, and what the cipher was given for it. */
  lemma RecordLayout(c: Crypto, s: Cipher, p: bytes)
    requires Sealable(p)
    ensures var (s', r) := Seal(c, s, p);
            var n := |p| + 16;
            var header := [23, 3, 3, n / 256, n % 256];
            && r == Ok(header + c.seal(s.key, s'.nonce, header, p))
            && |s'.nonce| == |s.nonce| && BeValue(s'.nonce) == (BeValue(s.nonce) + 1) % Pow256(|s.nonce|)
  {
    IncrementIsPlusOne(s.nonce);
    var n := |p| + 16;
    assert n / 256 % 256 == n / 256;
    assert [0x17, 0x03, 0x03] + Be16(n) == [23, 3, 3, n / 256, n % 256];
  }

  /** Exactly which records open; a record that does not costs a nonce if it reached the cipher, and never the key. */
  lemma OpensExactly(c: Crypto, s: Cipher, header: bytes, ciphertext: bytes)
    requires |header| == 5
    ensures var (s', r) := Open(c, s, header, ciphertext);
            var n := |ciphertext|;
            var reached := 17 <= n <= 16640 && header == [23, 3, 3, n / 256, n % 256];
            var plain := c.open(s.key, s'.nonce, header, ciphertext);
            && (r.Ok? <==> reached && plain.Some?) && (r.Ok? ==> r.value == plain.value)
            && (!reached ==> s' == s) && (r.Err? ==> s' == s.(nonce := s'.nonce))
            && (reached ==> |s'.nonce| == |s.nonce| && BeValue(s'.nonce) == (BeValue(s.nonce) + 1) % Pow256(|s.nonce|))
            && (reached && r.Err? ==> r.error == Authentication)
  {
    hide Increment, BeValue, Pow256;
    IncrementIsPlusOne(s.nonce);
    HeaderBytes(header, |ciphertext|);
  }

  lemma HeaderBytes(h: bytes, n: nat)
    requires |h| == 5
    ensures DecodeHeader(h) == Ok(n) <==> 17 <= n <= 16640 && h == [23, 3, 3, n / 256, n % 256]
  {
    if DecodeHeader(h) == Ok(n) {
      assert h == h[..3] + [h[3], h[4]];
    }
  }

  // ----- no nonce is used twice under one key

  /** What the cipher was given for one record; the epoch counts the keys derived so far. */
  datatype Use = Use(epoch: nat, key: bytes, nonce: bytes)

  function Uses(c: Crypto, s: Cipher, epoch: nat, ps: seq<bytes>): (u: seq<Use>)
    ensures |u| == |ps|
    decreases ps
  {
    if ps == [] then []
    else
      var s' := Seal(c, s, ps[0]).0;
      [Use(epoch, s.key, s'.nonce)] + Uses(c, s', if s.nonce == MAX_NONCE then epoch + 1 else epoch, ps[1..])
  }

  /** Position of a use in the whole life of the cipher: within an epoch, the nonce zero comes last. */
  function Stamp(u: Use): nat {
    var v := BeValue(u.nonce);
    u.epoch * Pow256(NONCE_LEN) + if v == 0 then Pow256(NONCE_LEN) else v
  }

  /** Epoch and nonce of the i-th record are i + 1 steps after the start, counted across re-keys. */
  lemma {:induction false} UsesAreStamped(c: Crypto, s: Cipher, epoch: nat, ps: seq<bytes>, i: nat)
    requires |s.nonce| == NONCE_LEN && (forall p | p in ps :: Sealable(p)) && i < |ps|
    ensures Stamp(Uses(c, s, epoch, ps)[i]) == epoch * Pow256(NONCE_LEN) + BeValue(s.nonce) + 1 + i
    decreases ps
  {
    hide BeValue, Pow256, Increment;
    SealableExactly(c, s, ps[0]);
    IncrementCases(s.nonce);
    MaxNonceValue(s.nonce);
    var s' := Seal(c, s, ps[0]).0;
    var wraps := s.nonce == MAX_NONCE;
    assert wraps <==> BeValue(s.nonce) + 1 == Pow256(NONCE_LEN);
    if i == 0 {
    } else {
      UsesAreStamped(c, s', if wraps then epoch + 1 else epoch, ps[1..], i - 1);
      assert (epoch + 1) * Pow256(NONCE_LEN) == epoch * Pow256(NONCE_LEN) + Pow256(NONCE_LEN);
    }
  }

  /** The i-th record on the wire was sealed with the i-th use. */
  lemma {:induction false} SealedWithUses(c: Crypto, s: Cipher, epoch: nat, ps: seq<bytes>, i: nat)
    requires (forall p | p in ps :: Sealable(p)) && i < |ps|
    ensures |SealAll(c, s, ps).1| == |ps|
    ensures var (u, r) := (Uses(c, s, epoch, ps)[i], SealAll(c, s, ps).1[i]);
            |r| >= 5 && r[5..] == c.seal(u.key, u.nonce, r[..5], ps[i])
    decreases ps
  {
    SealableExactly(c, s, ps[0]);
    var (s', r) := Seal(c, s, ps[0]);
    var header := EncodeHeader(|ps[0]| + TAG_LEN).value;
    assert r.value[..5] == header && r.value[5..] == c.seal(s.key, s'.nonce, header, ps[0]);
    hide Seal;
    var next := if s.nonce == MAX_NONCE then epoch + 1 else epoch;
    if |ps| == 1 {
      assert ps[1..] == [];
    } else {
      SealedWithUses(c, s', next, ps[1..], if i == 0 then 0 else i - 1);
    }
  }

  /** A key is kept within an epoch; the next one is derived from the last record sealed under the old one. */
  lemma {:induction false} KeysFollowEpochs(c: Crypto, s: Cipher, epoch: nat, ps: seq<bytes>, i: nat)
    requires (forall p | p in ps :: Sealable(p)) && i + 1 < |ps|
    ensures |SealAll(c, s, ps).1| == |ps| && Uses(c, s, epoch, ps)[0].key == s.key
    ensures var (u, r) := (Uses(c, s, epoch, ps), SealAll(c, s, ps).1);
            if u[i + 1].epoch == u[i].epoch then u[i + 1].key == u[i].key
            else u[i + 1].epoch == u[i].epoch + 1 && u[i + 1].key == c.kdf(r[i], s.united)
    decreases ps
  {
    SealableExactly(c, s, ps[0]);
    SealedWithUses(c, s, epoch, ps, 0);
    var (s', r) := Seal(c, s, ps[0]);
    assert s'.united == s.united && s'.key == if s.nonce == MAX_NONCE then c.kdf(r.value, s.united) else s.key;
    hide Seal;
    var next := if s.nonce == MAX_NONCE then epoch + 1 else epoch;
    assert Uses(c, s', next, ps[1..])[0].epoch == next;
    if i == 0 {
    } else {
      KeysFollowEpochs(c, s', next, ps[1..], i - 1);
    }
  }

  lemma {:induction false} SameEpochSameKey(c: Crypto, s: Cipher, epoch: nat, ps: seq<bytes>, i: nat, j: nat)
    requires (forall p | p in ps :: Sealable(p)) && i < j < |ps|
    ensures Uses(c, s, epoch, ps)[i].epoch <= Uses(c, s, epoch, ps)[j].epoch
    ensures Uses(c, s, epoch, ps)[i].epoch == Uses(c, s, epoch, ps)[j].epoch ==>
              Uses(c, s, epoch, ps)[i].key == Uses(c, s, epoch, ps)[j].key
  {
    hide Uses, SealAll;
    KeysFollowEpochs(c, s, epoch, ps, j - 1);
    if i == j - 1 {
    } else {
      SameEpochSameKey(c, s, epoch, ps, i, j - 1);
    }
  }

  /** Two records of one epoch are sealed under one key and with different nonces. */
  lemma NonceNeverReused(c: Crypto, s: Cipher, epoch: nat, ps: seq<bytes>, i: nat, j: nat)
    requires |s.nonce| == NONCE_LEN && (forall p | p in ps :: Sealable(p)) && i < j < |ps|
    ensures var u := Uses(c, s, epoch, ps);
            u[i].epoch == u[j].epoch ==> u[i].key == u[j].key && u[i].nonce != u[j].nonce
  {
    hide Uses, BeValue, Pow256;
    SameEpochSameKey(c, s, epoch, ps, i, j);
    UsesAreStamped(c, s, epoch, ps, i);
    UsesAreStamped(c, s, epoch, ps, j);
  }

  /** The key stays until the counter has run through, whatever is sealed. */
  lemma {:induction false} KeyKept(c: Crypto, s: Cipher, ps: seq<bytes>)
    requires |s.nonce| == NONCE_LEN && (forall p | p in ps :: Sealable(p))
    requires BeValue(s.nonce) + |ps| < Pow256(NONCE_LEN)
    ensures SealAll(c, s, ps).0.key == s.key
    decreases ps
  {
    hide BeValue, Pow256, Increment;
    if ps == [] {
    } else {
      SealableExactly(c, s, ps[0]);
      IncrementCases(s.nonce);
      MaxNonceValue(s.nonce);
      KeyKept(c, Seal(c, s, ps[0]).0, ps[1..]);
    }
  }

  /** The record sealed from the largest nonce goes out under the old key with the nonce zero, and gives the new key. */
  lemma KeyReplaced(c: Crypto, s: Cipher, p: bytes)
    requires |s.nonce| == NONCE_LEN && BeValue(s.nonce) + 1 == Pow256(NONCE_LEN) && Sealable(p)
    ensures var (s', r) := Seal(c, s, p);
            && r.Ok? && s'.key == c.kdf(r.value, s.united) && s'.united == s.united && BeValue(s'.nonce) == 0
            && |r.value| >= 5 && r.value[5..] == c.seal(s.key, s'.nonce, r.value[..5], p)
  {
    hide BeValue, Pow256, Increment;
    SealableExactly(c, s, p);
    IncrementCases(s.nonce);
    MaxNonceValue(s.nonce);
    var header := EncodeHeader(|p| + TAG_LEN).value;
    var record := Seal(c, s, p).1.value;
    assert record[..5] == header;
  }
}
