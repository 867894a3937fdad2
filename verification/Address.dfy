/**
  The VLESS port-and-address field: one parser for a slice, one for a stream, and the writer. Names
  are byte strings; which of them are UTF-8 is a parameter.
*/
module Address {
  import opened Bytes

  datatype Address = Ipv4(octets: bytes) | Ipv6(octets: bytes) | Domain(name: bytes)

  datatype AddrError = Underrun | UnknownType(kind: byte) | EmptyDomain | BadDomainUtf8

  type Utf8 = bytes -> bool

  /** Port, address and the number of bytes used. */
  function ParsePortThenAddress(utf8: Utf8, buf: bytes): Result<(nat, Address, nat), AddrError> {
    if |buf| < 3 then Err(Underrun)
    else
      var port := U16(buf[0], buf[1]);
      match buf[2]
      case 1 => if |buf| < 7 then Err(Underrun) else Ok((port, Ipv4(buf[3..7]), 7))
      case 3 => if |buf| < 19 then Err(Underrun) else Ok((port, Ipv6(buf[3..19]), 19))
      case 2 =>
        if |buf| < 4 then Err(Underrun)
        else if buf[3] == 0 then Err(EmptyDomain)
        else
          var end: nat := 4 + buf[3] as int;
          if |buf| < end then Err(Underrun)
          else if utf8(buf[4..end]) then Ok((port, Domain(buf[4..end]), end))
          else Err(BadDomainUtf8)
      case other => Err(UnknownType(other))
  }

  function WritePortThenAddress(port: nat, a: Address): bytes {
    Be16(port)
    + match a
      case Ipv4(o) => [1] + o
      case Ipv6(o) => [3] + o
      case Domain(d) => [2, |d| % 256] + d
  }

  // ----- the streaming parser

  datatype StreamError = Eof | Addr(error: AddrError)

  /** A source that has `data` left: the next n bytes, or the end of it. */
  class Reader {
    var data: bytes

    constructor (data: bytes)
      ensures this.data == data
    {
      this.data := data;
    }

    method ReadExact(n: nat) returns (r: Option<bytes>)
      modifies this
      ensures old(|data|) >= n ==> r == Some(old(data[..n])) && data == old(data[n..])
      ensures old(|data|) < n ==> r == None
    {
      if |data| < n {
        data := [];
        return None;
      }
      r := Some(data[..n]);
      data := data[n..];
    }

    /**
      Pulls exactly as many bytes as the type requires. For every input it agrees with the slice
      parser on the value and on the bytes used, and fails with the same error, the end of the stream
      standing for an underrun.
    */
    method ReadAddressPort(utf8: Utf8) returns (r: Result<(nat, Address), StreamError>)
      modifies this
      ensures match ParsePortThenAddress(utf8, old(data))
              case Ok((port, a, used)) => r == Ok((port, a)) && used <= old(|data|) && data == old(data)[used..]
              case Err(Underrun) => r == Err(Eof)
              case Err(e) => r == Err(Addr(e))
    {
      ghost var all := data;
      var head := ReadExact(3);
      if head.None? {
        return Err(Eof);
      }
      var port := U16(head.value[0], head.value[1]);
      assert head.value[2] == all[2] && data == all[3..];
      if head.value[2] == 1 {
        var octets := ReadExact(4);
        if octets.None? {
          return Err(Eof);
        }
        assert all[3..][..4] == all[3..7] && all[3..][4..] == all[7..];
        return Ok((port, Ipv4(octets.value)));
      }
      if head.value[2] == 3 {
        var octets := ReadExact(16);
        if octets.None? {
          return Err(Eof);
        }
        assert all[3..][..16] == all[3..19] && all[3..][16..] == all[19..];
        return Ok((port, Ipv6(octets.value)));
      }
      if head.value[2] == 2 {
        r := ReadDomain(utf8, port);
        if |all| >= 4 {
          ghost var n: nat := all[3];
          assert all[3..][0] == n && all[3..][1..] == all[4..];
          assert |all| >= 4 + n ==> all[4..][..n] == all[4..4 + n] && all[4..][n..] == all[4 + n..];
        }
        return;
      }
      r := Err(Addr(UnknownType(head.value[2])));
    }

    method ReadDomain(utf8: Utf8, port: nat) returns (r: Result<(nat, Address), StreamError>)
      modifies this
      ensures var d := old(data);
              if d == [] then r == Err(Eof)
              else if d[0] == 0 then r == Err(Addr(EmptyDomain))
              else if |d[1..]| < d[0] then r == Err(Eof)
              else if !utf8(d[1..][..d[0]]) then r == Err(Addr(BadDomainUtf8))
              else r == Ok((port, Domain(d[1..][..d[0]]))) && data == d[1..][d[0]..]
    {
      var length := ReadExact(1);
      if length.None? {
        return Err(Eof);
      }
      if length.value[0] == 0 {
        return Err(Addr(EmptyDomain));
      }
      var name := ReadExact(length.value[0]);
      if name.None? {
        return Err(Eof);
      }
      r := if utf8(name.value) then Ok((port, Domain(name.value))) else Err(Addr(BadDomainUtf8));
    }
  }

  // ----- round trip

  /** The addresses the program can hold: four or sixteen octets, or a name that is UTF-8. */
  predicate Proper(utf8: Utf8, a: Address) {
    match a
    case Ipv4(o) => |o| == 4
    case Ipv6(o) => |o| == 16
    case Domain(d) => utf8(d)
  }

  /** What is written is read back, whatever follows, exactly if a name has 1 to 255 bytes. */
  lemma AddressRoundTrip(utf8: Utf8, port: nat, a: Address, x: bytes)
    requires port < 0x1_0000 && Proper(utf8, a)
    ensures var w := WritePortThenAddress(port, a);
            ParsePortThenAddress(utf8, w + x) == Ok((port, a, |w|)) <==> (a.Domain? ==> 1 <= |a.name| <= 255)
  {
    var w := WritePortThenAddress(port, a);
    var buf := w + x;
    assert buf[0] == Be16(port)[0] && buf[1] == Be16(port)[1];
    match a
    case Ipv4(o) => assert buf[3..7] == o;
    case Ipv6(o) => assert buf[3..19] == o;
    case Domain(d) =>
      assert buf[2] == 2 && buf[3] == |d| % 256;
      if 1 <= |d| <= 255 {
        assert buf[4..4 + |d|] == d;
      }
  }

  /** An address that can be written so that it is read back. */
  predicate Writable(utf8: Utf8, a: Address) { Proper(utf8, a) && (a.Domain? ==> 1 <= |a.name| <= 255) }

  /** Whatever is parsed, from any bytes, is what the bytes used were written from. */
  lemma ParsedIsWritten(utf8: Utf8, buf: bytes)
    requires ParsePortThenAddress(utf8, buf).Ok?
    ensures var (port, a, used) := ParsePortThenAddress(utf8, buf).value;
            port < 0x1_0000 && Writable(utf8, a) && used <= |buf| && buf[..used] == WritePortThenAddress(port, a)
  {
    hide Be16, U16;
    var (port, a, used) := ParsePortThenAddress(utf8, buf).value;
    WordBytes(buf[0], buf[1]);
    assert Be16(port) == buf[..2];
    match a
    case Ipv4(o) => assert buf[..7] == buf[..2] + [1] + buf[3..7];
    case Ipv6(o) => assert buf[..19] == buf[..2] + [3] + buf[3..19];
    case Domain(d) => assert buf[..used] == buf[..2] + [2, buf[3]] + buf[4..used];
  }

  /** Bytes that are cut short anywhere are an underrun. */
  lemma CutIsUnderrun(utf8: Utf8, port: nat, a: Address, n: nat)
    requires port < 0x1_0000 && Writable(utf8, a) && n < |WritePortThenAddress(port, a)|
    ensures ParsePortThenAddress(utf8, WritePortThenAddress(port, a)[..n]) == Err(Underrun)
  {
    var w := WritePortThenAddress(port, a);
    assert a.Domain? ==> w[3] == |a.name|;
  }

  /** A name of that many bytes is written, whatever follows. */
  predicate HasName(buf: bytes, d: bytes) {
    1 <= |d| <= 255 && |buf| >= 4 + |d| && buf[2] == 2 && buf[3] == |d| && buf[4..4 + |d|] == d
  }

  lemma NameWritten(port: nat, d: bytes, x: bytes)
    requires 1 <= |d| <= 255
    ensures HasName(WritePortThenAddress(port, Domain(d)) + x, d)
  {
    hide Be16;
    var w := WritePortThenAddress(port, Domain(d));
    assert w == Be16(port) + ([2, |d|] + d);
    assert (w + x)[4..4 + |d|] == d;
  }

  /** Every other refusal, exactly: the type byte, a name of length zero, a complete name that is not UTF-8. */
  lemma RefusedExactly(utf8: Utf8, buf: bytes)
    ensures var r := ParsePortThenAddress(utf8, buf);
            && (forall b :: r == Err(UnknownType(b)) <==> |buf| >= 3 && buf[2] == b && b != 1 && b != 2 && b != 3)
            && (r == Err(EmptyDomain) <==> |buf| >= 4 && buf[2] == 2 && buf[3] == 0)
            && (r == Err(BadDomainUtf8) <==> exists d :: HasName(buf, d) && !utf8(d))
  {
    var r := ParsePortThenAddress(utf8, buf);
    if r == Err(BadDomainUtf8) {
      var end := 4 + buf[3] as int;
      assert HasName(buf, buf[4..end]) && !utf8(buf[4..end]);
    }
  }
}
