/**
  The TLS 1.3 record layer (sections 5.2 to 5.4 of RFC 8446): a per-record nonce from a 64-bit
  sequence number, the content type and zero padding inside the ciphertext, and the search for the
  content type from the right when a record is opened.
*/
module TlsRecord {
  import opened Bytes
  import opened RecordCipher

  const OUTER: bytes := [0x17, 0x03, 0x03]

  /** Key, twelve-byte IV and the number of the next record. */
  datatype Keys = Keys(key: bytes, iv: bytes, number: nat)

  /** Decryption in place: the plaintext is as long as the ciphertext without its tag. */
  ghost predicate OpensInPlace(c: Crypto) {
    forall k, n, a, t :: c.open(k, n, a, t).Some? ==> |c.open(k, n, a, t).value| + TAG_LEN == |t|
  }

  // ----- the nonce

  /** The low 8k bits of n, big-endian. */
  function BeBytes(n: nat, k: nat): (r: bytes)
    ensures |r| == k
  {
    if k == 0 then [] else BeBytes(n / 256, k - 1) + [n % 256]
  }

  lemma {:induction false} BeBytesInjective(a: nat, b: nat, k: nat)
    requires a < Pow256(k) && b < Pow256(k) && BeBytes(a, k) == BeBytes(b, k)
    ensures a == b
  {
    if k == 0 {
    } else {
      var (x, y) := (BeBytes(a, k), BeBytes(b, k));
      assert x[..k - 1] == BeBytes(a / 256, k - 1) && y[..k - 1] == BeBytes(b / 256, k - 1);
      assert x[k - 1] == a % 256 && y[k - 1] == b % 256;
      BeBytesInjective(a / 256, b / 256, k - 1);
    }
  }

  /** The IV with the sequence number folded into its last eight bytes. */
  function Nonce(k: Keys): (n: bytes)
    requires |k.iv| == NONCE_LEN
    ensures |n| == NONCE_LEN
  {
    var number := BeBytes(k.number, 8);
    k.iv[..4] + seq(8, i requires 0 <= i < 8 => Xor(number[i], k.iv[4 + i]))
  }

  method ComputeNonce(k: Keys) returns (nonce: bytes)
    requires |k.iv| == NONCE_LEN
    ensures nonce == Nonce(k)
  {
    hide Xor;
    nonce := k.iv;
    var number := BeBytes(k.number, 8);
    var i := 0;
    while i < 8
      invariant 0 <= i <= 8 && |nonce| == NONCE_LEN
      invariant forall j | 0 <= j < NONCE_LEN :: nonce[j] == if 4 <= j < 4 + i then
                Xor(number[j - 4], k.iv[j]) else k.iv[j]
    {
      nonce := nonce[4 + i := Xor(number[i], nonce[4 + i])];
      i := i + 1;
    }
  }

  /** Different sequence numbers give different nonces under one IV. */
  lemma NoncesDiffer(k: Keys, a: nat, b: nat)
    requires |k.iv| == NONCE_LEN && a <= U64_MAX && b <= U64_MAX && a != b
    ensures Nonce(k.(number := a)) != Nonce(k.(number := b))
  {
    var (x, y) := (BeBytes(a, 8), BeBytes(b, 8));
    if Nonce(k.(number := a)) == Nonce(k.(number := b)) {
      SameNonceSameNumber(k, a, b);
      U64IsPow256();
      BeBytesInjective(a, b, 8);
      assert false;
    }
  }

  lemma SameNonceSameNumber(k: Keys, a: nat, b: nat)
    requires |k.iv| == NONCE_LEN && Nonce(k.(number := a)) == Nonce(k.(number := b))
    ensures BeBytes(a, 8) == BeBytes(b, 8)
  {
    hide Xor;
    var (x, y) := (BeBytes(a, 8), BeBytes(b, 8));
    forall i | 0 <= i < 8
      ensures x[i] == y[i]
    {
      assert Nonce(k.(number := a))[4 + i] == Xor(x[i], k.iv[4 + i]);
      assert Nonce(k.(number := b))[4 + i] == Xor(y[i], k.iv[4 + i]);
      XorInvolution(x[i], k.iv[4 + i]);
      XorInvolution(y[i], k.iv[4 + i]);
    }
  }

  lemma U64IsPow256()
    ensures U64_MAX < Pow256(8)
  {
    assert Pow256(4) == 0x1_0000_0000;
    assert Pow256(6) == 256 * (256 * Pow256(4));
    assert Pow256(8) == 256 * (256 * Pow256(6));
  }

  lemma {:induction false} BeBytesValue(n: nat, k: nat)
    requires n < Pow256(k)
    ensures BeValue(BeBytes(n, k)) == n
  {
    if k == 0 {
    } else {
      var b := BeBytes(n, k);
      assert b[..k - 1] == BeBytes(n / 256, k - 1) && b[k - 1] == n % 256;
      BeBytesValue(n / 256, k - 1);
    }
  }

  /** What is left of the last n bytes of the nonce without the IV. */
  function Unmasked(nonce: bytes, iv: bytes): bytes
    requires |nonce| == |iv| == NONCE_LEN
  {
    seq(8, i requires 0 <= i < 8 => Xor(nonce[4 + i], iv[4 + i]))
  }

  /** The nonce is the IV, with the big-endian sequence number folded into its last eight bytes. */
  lemma NonceHoldsNumber(k: Keys)
    requires |k.iv| == NONCE_LEN && k.number <= U64_MAX
    ensures Nonce(k)[..4] == k.iv[..4] && BeValue(Unmasked(Nonce(k), k.iv)) == k.number
  {
    hide Xor, BeValue, Pow256;
    var number := BeBytes(k.number, 8);
    forall i | 0 <= i < 8
      ensures Unmasked(Nonce(k), k.iv)[i] == number[i]
    {
      XorInvolution(number[i], k.iv[4 + i]);
    }
    assert Unmasked(Nonce(k), k.iv) == number;
    U64IsPow256();
    BeBytesValue(k.number, 8);
  }

  // ----- sealing and opening

  /** What is encrypted: the text, its type and the padding. */
  function InnerText(kind: byte, text: bytes, pad: nat): bytes { text + [kind] + seq(pad, _ => 0) }

  /** The header carries the ciphertext length in 16 bits. */
  function RecordHeader(length: nat): (h: bytes)
    ensures |h| == 5 && U16(h[3], h[4]) == length % 0x1_0000
  {
    OUTER + Be16(length)
  }

  function NextKeys(k: Keys): Keys { k.(number := if k.number == U64_MAX then 0 else k.number + 1) }

  function SealRecord(c: Crypto, k: Keys, kind: byte, text: bytes, pad: nat): bytes
    requires |k.iv| == NONCE_LEN
  {
    var header := RecordHeader(|text| + 1 + pad + TAG_LEN);
    header + c.seal(k.key, Nonce(k), header, InnerText(kind, text, pad))
  }

  /** Looks for the last byte that is not zero: the type; what precedes it is the text. */
  function Strip(inner: bytes): (r: Option<(byte, bytes)>)
    ensures r.Some? ==> r.value.0 != 0 && |r.value.1| < |inner|
    decreases |inner|
  {
    if inner == [] then None
    else
      var (rest, last) := (inner[..|inner| - 1], inner[|inner| - 1]);
      if last == 0 then Strip(rest) else Some((last, rest))
  }

  /** The keys advance once the record authenticates, even if no type is found in it. */
  function OpenRecord(c: Crypto, k: Keys, record: bytes): (Keys, Option<(byte, bytes)>)
    requires |k.iv| == NONCE_LEN
  {
    if |record| < 5 then (k, None)
    else
      var length := U16(record[3], record[4]);
      if |record| < 5 + length || length < TAG_LEN then (k, None)
      else
        match c.open(k.key, Nonce(k), record[..5], record[5..5 + length])
        case None => (k, None)
        case Some(inner) => (NextKeys(k), Strip(inner))
  }

  lemma {:induction false} StripZeros(inner: bytes, pad: nat)
    ensures Strip(inner + seq(pad, _ => 0)) == Strip(inner)
    decreases pad
  {
    var s := inner + seq(pad, _ => 0);
    if pad == 0 {
      assert s == inner;
    } else {
      assert s[..|s| - 1] == inner + seq(pad - 1, _ => 0);
      StripZeros(inner, pad - 1);
    }
  }

  /** Stripping finds the type and the text exactly when the type is not zero. */
  lemma StripInner(kind: byte, text: bytes, pad: nat)
    ensures Strip(InnerText(kind, text, pad)) == Some((kind, text)) <==> kind != 0
  {
    StripZeros(text + [kind], pad);
    assert (text + [kind])[..|text + [kind]| - 1] == text;
  }

  /**
    A record whose length fits its header opens, under the keys it was sealed with, to the original
    type and text, for every padding and for texts that end in zeros, exactly when the type is not
    zero; and both sides then hold the same keys.
  */
  lemma OpenUndoesSealRecord(c: Crypto, k: Keys, kind: byte, text: bytes, pad: nat)
    requires OpenUndoesSeal(c) && |k.iv| == NONCE_LEN && |text| + 1 + pad + TAG_LEN < 0x1_0000
    ensures var record := SealRecord(c, k, kind, text, pad);
            && |record| == 5 + |text| + 1 + pad + TAG_LEN && U16(record[3], record[4]) == |record| - 5
            && OpenRecord(c, k, record).0 == NextKeys(k)
            && (OpenRecord(c, k, record).1 == Some((kind, text)) <==> kind != 0)
  {
    var inner := InnerText(kind, text, pad);
    var header := RecordHeader(|text| + 1 + pad + TAG_LEN);
    var body := c.seal(k.key, Nonce(k), header, inner);
    var record := SealRecord(c, k, kind, text, pad);
    assert |body| == |inner| + TAG_LEN;
    assert record[..5] == header && record[5..5 + |body|] == body;
    StripInner(kind, text, pad);
  }

  /** What goes on the wire, byte by byte in the header, and what the cipher is given for it. */
  lemma RecordLayout(c: Crypto, k: Keys, kind: byte, text: bytes, pad: nat)
    requires |k.iv| == NONCE_LEN && |text| + 1 + pad + 16 < 0x1_0000
    ensures var n := |text| + 17 + pad;
            var header := [23, 3, 3, n / 256, n % 256];
            var inner := text + [kind] + seq(pad, _ => 0);
            SealRecord(c, k, kind, text, pad) == header + c.seal(k.key, Nonce(k), header, inner)
  {
    var n := |text| + 17 + pad;
    assert RecordHeader(n) == [23, 3, 3, n / 256, n % 256];
  }

  /** The sequence number goes up by one, modulo 2^64; nothing else changes. */
  lemma NumberAdvances(k: Keys)
    requires k.number <= U64_MAX
    ensures NextKeys(k) == Keys(k.key, k.iv, (k.number + 1) % 0x1_0000_0000_0000_0000)
  {
  }

  /** Exactly which records open, with what, and when the number advances. */
  lemma OpensExactly(c: Crypto, k: Keys, record: bytes)
    requires |k.iv| == NONCE_LEN
    ensures var (k', r) := OpenRecord(c, k, record);
            var length := if |record| >= 5 then record[3] as int * 256 + record[4] else 0;
            var reached := |record| >= 5 && 16 <= length <= |record| - 5;
            var inner := if reached then c.open(k.key, Nonce(k), record[..5], record[5..5 + length]) else None;
            && k' == (if inner.Some? then NextKeys(k) else k)
            && (r.Some? <==> inner.Some? && exists i :: 0 <= i < |inner.value| && inner.value[i] != 0)
            && (r.Some? ==> r.value.0 != 0 && exists pad: nat :: inner.value == InnerText(r.value.0, r.value.1, pad))
  {
    if |record| >= 5 {
      var length := record[3] as int * 256 + record[4];
      if 16 <= length <= |record| - 5 {
        var inner := c.open(k.key, Nonce(k), record[..5], record[5..5 + length]);
        if inner.Some? {
          StripExactly(inner.value);
        }
      }
    }
  }

  /** Stripping fails on zeros only, and otherwise splits the text as it was put together. */
  lemma {:induction false} StripExactly(inner: bytes)
    ensures Strip(inner).Some? <==> exists i :: 0 <= i < |inner| && inner[i] != 0
    ensures Strip(inner).Some? ==>
              exists pad: nat :: inner == InnerText(Strip(inner).value.0, Strip(inner).value.1, pad)
    decreases |inner|
  {
    if inner == [] {
    } else {
      var (rest, last) := (inner[..|inner| - 1], inner[|inner| - 1]);
      assert inner == rest + [last];
      StripExactly(rest);
      if last != 0 {
        assert inner == InnerText(last, rest, 0);
      } else if Strip(rest).Some? {
        var pad: nat :| rest == InnerText(Strip(rest).value.0, Strip(rest).value.1, pad);
        assert inner == InnerText(Strip(rest).value.0, Strip(rest).value.1, pad + 1);
        var i :| 0 <= i < |rest| && rest[i] != 0;
        assert inner[i] == rest[i];
      } else {
        assert forall i | 0 <= i < |rest| :: rest[i] == 0;
      }
    }
  }

  /** The object: the sequence number advances, and opening works inside the caller's buffer. */
  class RecordKeys {
    const c: Crypto
    const key: bytes
    const iv: bytes
    var number: nat

    function Value(): Keys
      reads this
    {
      Keys(key, iv, number)
    }

    constructor (c: Crypto, key: bytes, iv: bytes)
      ensures this.c == c && Value() == Keys(key, iv, 0)
    {
      this.c, this.key, this.iv, number := c, key, iv, 0;
    }

    method SealWithPadding(kind: byte, text: bytes, pad: nat) returns (record: bytes)
      requires |iv| == NONCE_LEN
      modifies this
      ensures record == SealRecord(c, old(Value()), kind, text, pad) && Value() == NextKeys(old(Value()))
    {
      var header := RecordHeader(|text| + 1 + pad + TAG_LEN);
      var nonce := ComputeNonce(Value());
      record := header + c.seal(key, nonce, header, InnerText(kind, text, pad));
      number := if number == U64_MAX then 0 else number + 1;
    }

    /** The type and the end of the text; the text is then buf[5..end]. */
    method OpenInPlace(buf: array<byte>) returns (r: Option<(byte, nat)>)
      requires |iv| == NONCE_LEN && OpensInPlace(c)
      modifies this, buf
      ensures var (k, found) := OpenRecord(c, old(Value()), old(buf[..]));
              && Value() == k
              && (r.Some? <==> found.Some?)
              && (r.Some? ==> 5 <= r.value.1 <= buf.Length && found.value == (r.value.0, buf[5..r.value.1]))
    {
      if buf.Length < 5 {
        return None;
      }
      var length := U16(buf[3], buf[4]);
      if buf.Length < 5 + length || length < TAG_LEN {
        return None;
      }
      var nonce := ComputeNonce(Value());
      assert buf[..][..5] == buf[..5] && buf[..][5..5 + length] == buf[5..5 + length];
      var inner := c.open(key, nonce, buf[..5], buf[5..5 + length]);
      if inner.None? {
        return None;
      }
      number := if number == U64_MAX then 0 else number + 1;
      r := StripInPlace(buf, inner.value);
    }

    /** Writes the decrypted text back into the buffer and walks over the padding from the right. */
    method StripInPlace(buf: array<byte>, inner: bytes) returns (r: Option<(byte, nat)>)
      requires 5 + |inner| <= buf.Length
      modifies buf
      ensures r.Some? <==> Strip(inner).Some?
      ensures r.Some? ==> 5 <= r.value.1 <= buf.Length && Strip(inner).value == (r.value.0, buf[5..r.value.1])
    {
      forall i | 0 <= i < |inner| {
        buf[5 + i] := inner[i];
      }
      var end := 5 + |inner|;
      assert buf[5..end] == inner;
      while end > 5 && buf[end - 1] == 0
        invariant 5 <= end <= 5 + |inner|
        invariant Strip(buf[5..end]) == Strip(inner)
      {
        assert buf[5..end][..|buf[5..end]| - 1] == buf[5..end - 1];
        end := end - 1;
      }
      if end == 5 {
        return None;
      }
      assert buf[5..end][..|buf[5..end]| - 1] == buf[5..end - 1];
      r := Some((buf[end - 1], end - 1));
    }
  }
}
