/** Bytes, big-endian fields, concatenation and exclusive-or: what every wire format here shares. */
module Bytes {

  type byte = x: int | 0 <= x < 256
  type bytes = seq<byte>

  datatype Option<+T> = None | Some(value: T)
  datatype Result<+T, +E> = Ok(value: T) | Err(error: E)

  const U64_MAX: nat := 0xFFFF_FFFF_FFFF_FFFF

  function Min(a: int, b: int): int { if a < b then a else b }

  /** The value of two big-endian bytes. */
  function U16(hi: byte, lo: byte): (n: nat)
    ensures n < 0x1_0000
  {
    hi * 256 + lo
  }

  /** The low 16 bits of n, big-endian. */
  function Be16(n: nat): (r: bytes)
    ensures |r| == 2
    ensures U16(r[0], r[1]) == n % 0x1_0000
  {
    var low := n % 0x1_0000;
    [low / 256, low % 256]
  }

  lemma LastByte(q: nat, r: byte)
    ensures (256 * q + r as int) / 256 == q && (256 * q + r as int) % 256 == r
  {
  }

  lemma WordBytes(hi: byte, lo: byte)
    ensures Be16(U16(hi, lo)) == [hi, lo]
  {
    var n := U16(hi, lo);
    assert n == 256 * hi as int + lo && n % 0x1_0000 == n;
    LastByte(hi, lo);
  }

  /** The value of three big-endian bytes. */
  function U24(b2: byte, b1: byte, b0: byte): (n: nat)
    ensures n < 0x100_0000
  {
    b2 * 0x1_0000 + b1 * 256 + b0
  }

  /** The low 24 bits of n, big-endian. */
  function Be24(n: nat): (r: bytes)
    ensures |r| == 3
    ensures U24(r[0], r[1], r[2]) == n % 0x100_0000
  {
    var low := n % 0x100_0000;
    var high := low / 256;
    [high / 256, high % 256, low % 256]
  }

  lemma LengthBytes(b2: byte, b1: byte, b0: byte)
    ensures Be24(U24(b2, b1, b0)) == [b2, b1, b0]
  {
    var (q, n) := (b2 as int * 256 + b1, U24(b2, b1, b0));
    assert n == 256 * q + b0 && n % 0x100_0000 == n;
    LastByte(q, b0);
    LastByte(b2, b1);
  }

  /** Concatenation of a list of sequences. */
  function Flatten<T>(parts: seq<seq<T>>): seq<T> {
    if parts == [] then [] else parts[0] + Flatten(parts[1..])
  }

  lemma {:induction false} FlattenAppend<T>(a: seq<seq<T>>, b: seq<seq<T>>)
    ensures Flatten(a + b) == Flatten(a) + Flatten(b)
  {
    if a == [] {
      assert a + b == b;
    } else {
      FlattenAppend(a[1..], b);
      assert (a + b)[1..] == a[1..] + b;
    }
  }

  lemma FlattenSnoc<T>(a: seq<seq<T>>, x: seq<T>)
    ensures Flatten(a + [x]) == Flatten(a) + x
  {
    FlattenAppend(a, [x]);
    assert Flatten([x]) == x;
  }

  function Pow2(n: nat): (r: nat)
    ensures r > 0
  {
    if n == 0 then 1 else 2 * Pow2(n - 1)
  }

  /** Exclusive-or of the low n bits of a and b. */
  function XorBits(a: nat, b: nat, n: nat): (r: nat)
    ensures r < Pow2(n)
  {
    if n == 0 then 0 else 2 * XorBits(a / 2, b / 2, n - 1) + (a + b) % 2
  }

  lemma XorLastBit(a: nat, b: nat, rest: nat)
    ensures var x := 2 * rest + (a + b) % 2; x / 2 == rest && (x + b) % 2 == a % 2
  {
    assert (2 * rest + (a + b) % 2 + b) % 2 == (a + b + b) % 2;
  }

  lemma {:induction false} XorBitsInvolution(a: nat, b: nat, n: nat)
    requires a < Pow2(n)
    ensures XorBits(XorBits(a, b, n), b, n) == a
  {
    if n == 0 {
    } else {
      XorBitsInvolution(a / 2, b / 2, n - 1);
      XorLastBit(a, b, XorBits(a / 2, b / 2, n - 1));
    }
  }

  function Xor(a: byte, b: byte): byte {
    assert Pow2(8) == 256 by { assert Pow2(4) == 16; }
    XorBits(a, b, 8)
  }

  /** The i-th bit, counted from the lowest. */
  function Bit(x: nat, i: nat): nat { if i == 0 then x % 2 else Bit(x / 2, i - 1) }

  lemma {:induction false} XorBitsAt(a: nat, b: nat, n: nat, i: nat)
    requires i < n
    ensures Bit(XorBits(a, b, n), i) == if Bit(a, i) == Bit(b, i) then 0 else 1
  {
    XorLastBit(a, b, XorBits(a / 2, b / 2, n - 1));
    if i == 0 {
    } else {
      XorBitsAt(a / 2, b / 2, n - 1, i - 1);
    }
  }

  /** A bit of the exclusive-or is set exactly where the two bytes differ. */
  lemma XorBitwise(a: byte, b: byte, i: nat)
    requires i < 8
    ensures Bit(Xor(a, b), i) == if Bit(a, i) == Bit(b, i) then 0 else 1
  {
    XorBitsAt(a, b, 8, i);
  }

  /** Exclusive-or with the same byte twice gives the first byte back. */
  lemma XorInvolution(a: byte, b: byte)
    ensures Xor(Xor(a, b), b) == a
  {
    assert Pow2(8) == 256 by { assert Pow2(4) == 16; }
    XorBitsInvolution(a, b, 8);
  }
}
