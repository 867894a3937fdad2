/** XUDP frames: a length-prefixed metadata block, then a length-prefixed payload if the DATA bit is set. */
module Xudp {
  import opened Bytes
  import opened Address

  const STATUS_NEW: byte := 1
  const STATUS_KEEP: byte := 2
  const STATUS_END: byte := 3
  const STATUS_KEEP_ALIVE: byte := 4

  predicate KnownStatus(b: byte) { b == STATUS_NEW || b == STATUS_KEEP || b == STATUS_END || b == STATUS_KEEP_ALIVE }

  const NETWORK_UDP: byte := 2
  const MAX_METADATA_LEN := 512

  datatype Target = Target(address: Address, port: nat)

  datatype Frame = Frame(session: nat, status: byte, option: byte, target: Option<Target>, globalId: Option<bytes>,
      payload: bytes)

  datatype XudpError =
    | Io
    | MetadataLength(length: nat)
    | PayloadLength(length: nat)
    | Status(status: byte)
    | Network(network: byte)
    | BadAddress(error: AddrError)

  predicate HasData(option: byte) { option % 2 == 1 }

  function TargetBytes(f: Frame): bytes {
    match f.target
    case None => []
    case Some(t) =>
      [NETWORK_UDP] + WritePortThenAddress(t.port, t.address)
      + if f.status == STATUS_NEW && f.globalId.Some? then f.globalId.value else []
  }

  function Metadata(f: Frame): bytes { Be16(f.session) + [f.status, f.option] + TargetBytes(f) }

  function PayloadBytes(f: Frame): bytes { if HasData(f.option) then Be16(|f.payload|) + f.payload else [] }

  function EncodeFrame(f: Frame): Result<bytes, XudpError> {
    var m := Metadata(f);
    if |m| > MAX_METADATA_LEN then Err(MetadataLength(|m|))
    else if |f.payload| > 0xFFFF then Err(PayloadLength(|f.payload|))
    else Ok(Be16(|m|) + m + PayloadBytes(f))
  }

  /** Session, status, option, target and global id of a metadata block; the payload is still to be read. */
  function ParseMetadata(utf8: Utf8, m: bytes): Result<Frame, XudpError>
    requires |m| >= 4
  {
    var f := Frame(U16(m[0], m[1]), m[2], m[3], None, None, []);
    var network := if |m| > 4 then Some(m[4]) else None;
    if !KnownStatus(m[2]) then Err(Status(m[2]))
    else if m[2] == STATUS_NEW || (m[2] == STATUS_KEEP && network == Some(NETWORK_UDP)) then
      if network != Some(NETWORK_UDP) then Err(Network(if network.Some? then network.value else 0))
      else
        match ParsePortThenAddress(utf8, m[5..])
        case Err(e) => Err(BadAddress(e))
        case Ok((port, a, used)) =>
          var tail := if 5 + used <= |m| then m[5 + used..] else [];
          var id := if m[2] == STATUS_NEW && HasData(m[3]) && |tail| >= 8 then Some(tail[..8]) else None;
          Ok(f.(target := Some(Target(a, port)), globalId := id))
    else Ok(f)
  }

  /** Two bytes of length, then that many bytes; the block and what follows. */
  function ReadBlock(s: bytes): Option<(bytes, bytes)> {
    if |s| < 2 || |s| < 2 + U16(s[0], s[1]) then None
    else var n := U16(s[0], s[1]); Some((s[2..2 + n], s[2 + n..]))
  }

  /** A frame at the front of a stream, and what follows it. */
  function DecodeFrame(utf8: Utf8, s: bytes): Result<(Frame, bytes), XudpError> {
    if |s| < 2 then Err(Io)
    else if !(4 <= U16(s[0], s[1]) <= MAX_METADATA_LEN) then Err(MetadataLength(U16(s[0], s[1])))
    else
      match ReadBlock(s)
      case None => Err(Io)
      case Some((m, rest)) =>
        match ParseMetadata(utf8, m)
        case Err(e) => Err(e)
        case Ok(f) =>
          if !HasData(f.option) then Ok((f, rest))
          else
            match ReadBlock(rest)
            case None => Err(Io)
            case Some((payload, rest')) => Ok((f.(payload := payload), rest'))
  }

  /** The stream reader, which consumes its source field by field, is the decoder. */
  method ReadFrame(utf8: Utf8, reader: Reader) returns (r: Result<Frame, XudpError>)
    modifies reader
    ensures match DecodeFrame(utf8, old(reader.data))
            case Ok((f, rest)) => r == Ok(f) && reader.data == rest
            case Err(e) => r == Err(e)
  {
    hide ParseMetadata;
    ghost var s := reader.data;
    var head := reader.ReadExact(2);
    if head.None? {
      return Err(Io);
    }
    var length := U16(head.value[0], head.value[1]);
    assert head.value[0] == s[0] && head.value[1] == s[1];
    if !(4 <= length <= MAX_METADATA_LEN) {
      return Err(MetadataLength(length));
    }
    var metadata := reader.ReadExact(length);
    if metadata.None? {
      return Err(Io);
    }
    assert s[2..][..length] == s[2..2 + length] && s[2..][length..] == s[2 + length..];
    var parsed := ParseMetadata(utf8, metadata.value);
    if parsed.Err? {
      return Err(parsed.error);
    }
    if !HasData(parsed.value.option) {
      return Ok(parsed.value);
    }
    ghost var t := reader.data;
    var head2 := reader.ReadExact(2);
    if head2.None? {
      return Err(Io);
    }
    var payloadLength := U16(head2.value[0], head2.value[1]);
    assert head2.value[0] == t[0] && head2.value[1] == t[1];
    var payload := reader.ReadExact(payloadLength);
    if payload.None? {
      return Err(Io);
    }
    assert t[2..][..payloadLength] == t[2..2 + payloadLength] && t[2..][payloadLength..] == t[2 + payloadLength..];
    r := Ok(parsed.value.(payload := payload.value));
  }

  // ----- round trip

  predicate GoodTarget(utf8: Utf8, t: Target) {
    t.port < 0x1_0000 && Proper(utf8, t.address) && (t.address.Domain? ==> 1 <= |t.address.name| <= 255)
  }

  /** Target, global id and payload are there exactly where status and DATA bit let a reader expect them. */
  predicate WellFormed(utf8: Utf8, f: Frame) {
    && f.session < 0x1_0000 && KnownStatus(f.status) && |f.payload| <= 0xFFFF
    && (f.status == STATUS_NEW ==> f.target.Some?)
    && (f.target.Some? ==> (f.status == STATUS_NEW || f.status == STATUS_KEEP) && GoodTarget(utf8, f.target.value))
    && (f.globalId.Some? ==> f.status == STATUS_NEW && HasData(f.option) && |f.globalId.value| == 8)
    && (!HasData(f.option) ==> f.payload == [])
  }

  lemma BlockRoundTrip(b: bytes, x: bytes)
    requires |b| < 0x1_0000
    ensures ReadBlock(Be16(|b|) + b + x) == Some((b, x))
  {
    hide Be16, U16;
    var s := Be16(|b|) + b + x;
    assert s[0] == Be16(|b|)[0] && s[1] == Be16(|b|)[1];
    assert s[2..2 + |b|] == b && s[2 + |b|..] == x;
  }

  lemma AddressLength(utf8: Utf8, port: nat, a: Address)
    requires Proper(utf8, a) && (a.Domain? ==> |a.name| <= 255)
    ensures |WritePortThenAddress(port, a)| <= 259
  {
  }

  lemma MetadataRoundTrip(utf8: Utf8, f: Frame)
    requires WellFormed(utf8, f)
    ensures 4 <= |Metadata(f)| <= MAX_METADATA_LEN
    ensures ParseMetadata(utf8, Metadata(f)) == Ok(f.(payload := []))
  {
    hide ParsePortThenAddress, WritePortThenAddress, Be16;
    var m := Metadata(f);
    assert m[0] == Be16(f.session)[0] && m[1] == Be16(f.session)[1] && m[2] == f.status && m[3] == f.option;
    if f.target.Some? {
      var t := f.target.value;
      var w := WritePortThenAddress(t.port, t.address);
      var id := if f.status == STATUS_NEW && f.globalId.Some? then f.globalId.value else [];
      assert m[4..] == TargetBytes(f) && m[4] == NETWORK_UDP;
      assert m[5..] == w + id;
      AddressRoundTrip(utf8, t.port, t.address, id);
      AddressLength(utf8, t.port, t.address);
      assert m[5 + |w|..] == m[5..][|w|..] == id;
      assert f.globalId.Some? ==> id[..8] == f.globalId.value;
    }
  }

  /** A well-formed frame is read back, and what follows it is left. */
  lemma FrameRoundTrip(utf8: Utf8, f: Frame, x: bytes)
    requires WellFormed(utf8, f)
    ensures EncodeFrame(f).Ok? && DecodeFrame(utf8, EncodeFrame(f).value + x) == Ok((f, x))
  {
    hide Metadata, ParseMetadata, ReadBlock, Be16, KnownStatus, GoodTarget;
    MetadataRoundTrip(utf8, f);
    var (m, p) := (Metadata(f), PayloadBytes(f));
    var s := EncodeFrame(f).value + x;
    assert s == Be16(|m|) + m + (p + x);
    BlockRoundTrip(m, p + x);
    assert s[0] == Be16(|m|)[0] && s[1] == Be16(|m|)[1];
    if HasData(f.option) {
      BlockRoundTrip(f.payload, x);
      assert p + x == Be16(|f.payload|) + f.payload + x;
    } else {
      assert p + x == x;
    }
  }

  lemma ParsedIsWellFormed(utf8: Utf8, m: bytes)
    requires |m| >= 4 && ParseMetadata(utf8, m).Ok?
    ensures WellFormed(utf8, ParseMetadata(utf8, m).value)
  {
  }

  /** Whatever is decoded, from any bytes, is well formed. */
  lemma DecodedIsWellFormed(utf8: Utf8, s: bytes)
    requires DecodeFrame(utf8, s).Ok?
    ensures WellFormed(utf8, DecodeFrame(utf8, s).value.0)
  {
    hide ParseMetadata;
    var m := ReadBlock(s).value.0;
    ParsedIsWellFormed(utf8, m);
  }

  /** Exactly the well-formed frames are encoded and read back. */
  lemma FrameRoundTripExactly(utf8: Utf8, f: Frame, x: bytes)
    ensures (EncodeFrame(f).Ok? && DecodeFrame(utf8, EncodeFrame(f).value + x) == Ok((f, x))) <==> WellFormed(utf8, f)
  {
    hide DecodeFrame, EncodeFrame;
    if WellFormed(utf8, f) {
      FrameRoundTrip(utf8, f, x);
    } else if EncodeFrame(f).Ok? && DecodeFrame(utf8, EncodeFrame(f).value + x).Ok? {
      DecodedIsWellFormed(utf8, EncodeFrame(f).value + x);
    }
  }

  function EncodeList(utf8: Utf8, fs: seq<Frame>): bytes
    requires forall f | f in fs :: WellFormed(utf8, f)
  {
    if fs == [] then [] else FrameRoundTrip(utf8, fs[0], []); EncodeFrame(fs[0]).value + EncodeList(utf8, fs[1..])
  }

  /** The next n frames of a stream. */
  function DecodeList(utf8: Utf8, s: bytes, n: nat): Result<(seq<Frame>, bytes), XudpError> {
    if n == 0 then Ok(([], s))
    else
      match DecodeFrame(utf8, s)
      case Err(e) => Err(e)
      case Ok((f, rest)) =>
        match DecodeList(utf8, rest, n - 1)
        case Err(e) => Err(e)
        case Ok((fs, rest')) => Ok(([f] + fs, rest'))
  }

  /** Any list of well-formed frames is read back from the concatenation, with nothing left over. */
  lemma {:induction false} ListRoundTrip(utf8: Utf8, fs: seq<Frame>)
    requires forall f | f in fs :: WellFormed(utf8, f)
    ensures DecodeList(utf8, EncodeList(utf8, fs), |fs|) == Ok((fs, []))
    decreases fs
  {
    hide DecodeFrame, EncodeFrame, WellFormed;
    if fs == [] {
    } else {
      FrameRoundTrip(utf8, fs[0], EncodeList(utf8, fs[1..]));
      ListRoundTrip(utf8, fs[1..]);
      assert fs == [fs[0]] + fs[1..];
    }
  }

  // ----- what is refused, and what is used up

  /** A decoded frame uses up its metadata block and, with the DATA bit, its payload block, and nothing more. */
  lemma DecodeUsesUp(utf8: Utf8, s: bytes)
    requires DecodeFrame(utf8, s).Ok?
    ensures var (f, rest) := DecodeFrame(utf8, s).value;
            exists m :: 4 <= |m| <= 512 && ParseMetadata(utf8, m) == Ok(f.(payload := []))
              && s == Be16(|m|) + m + (if f.option % 2 == 1 then Be16(|f.payload|) + f.payload else []) + rest
  {
    hide ParseMetadata, Be16;
    BlockSplit(s);
    var (m, rest) := ReadBlock(s).value;
    var f := ParseMetadata(utf8, m).value;
    PayloadStartsEmpty(utf8, m);
    if HasData(f.option) {
      BlockSplit(rest);
      var (payload, rest') := ReadBlock(rest).value;
      assert s == Be16(|m|) + m + (Be16(|payload|) + payload) + rest';
    } else {
      assert s == Be16(|m|) + m + [] + rest;
    }
  }

  lemma PayloadStartsEmpty(utf8: Utf8, m: bytes)
    requires |m| >= 4 && ParseMetadata(utf8, m).Ok?
    ensures ParseMetadata(utf8, m).value.payload == []
  {
    hide ParsePortThenAddress;
  }

  lemma BlockSplit(s: bytes)
    requires ReadBlock(s).Some?
    ensures var (b, rest) := ReadBlock(s).value; |b| < 0x1_0000 && s == Be16(|b|) + b + rest
  {
    hide Be16, U16;
    var n := U16(s[0], s[1]);
    WordBytes(s[0], s[1]);
    assert s == [s[0], s[1]] + s[2..2 + n] + s[2 + n..];
  }

  lemma BlockCut(b: bytes, n: nat)
    requires |b| < 0x1_0000 && n < 2 + |b|
    ensures ReadBlock((Be16(|b|) + b)[..n]) == None
    ensures n >= 2 ==> var s := (Be16(|b|) + b)[..n]; U16(s[0], s[1]) == |b|
  {
    hide Be16, U16;
    var s := (Be16(|b|) + b)[..n];
    if n >= 2 {
      assert s[0] == Be16(|b|)[0] && s[1] == Be16(|b|)[1];
    }
  }

  lemma BlockFirst(b: bytes, x: bytes)
    requires |b| < 0x1_0000
    ensures var s := Be16(|b|) + b + x; |s| >= 2 && U16(s[0], s[1]) == |b|
  {
    hide Be16, U16;
    var s := Be16(|b|) + b + x;
    assert s[0] == Be16(|b|)[0] && s[1] == Be16(|b|)[1];
  }

  /** A frame that is cut short anywhere is an input error. */
  lemma CutIsIo(utf8: Utf8, f: Frame, n: nat)
    requires WellFormed(utf8, f) && EncodeFrame(f).Ok? && n < |EncodeFrame(f).value|
    ensures DecodeFrame(utf8, EncodeFrame(f).value[..n]) == Err(Io)
  {
    hide ParseMetadata, Metadata, KnownStatus, GoodTarget, Be16, U16, ReadBlock;
    MetadataRoundTrip(utf8, f);
    var (m, p) := (Metadata(f), PayloadBytes(f));
    var s := EncodeFrame(f).value[..n];
    if n < 2 + |m| {
      assert s == (Be16(|m|) + m)[..n];
      BlockCut(m, n);
    } else {
      var k := n - 2 - |m|;
      assert s == Be16(|m|) + m + p[..k];
      BlockRoundTrip(m, p[..k]);
      BlockFirst(m, p[..k]);
      assert HasData(f.option) && p == Be16(|f.payload|) + f.payload;
      BlockCut(f.payload, k);
    }
  }

  /** A metadata length outside 4 to 512 is refused before anything else is read. */
  lemma LengthRefusedExactly(utf8: Utf8, s: bytes, n: nat)
    ensures DecodeFrame(utf8, s) == Err(MetadataLength(n)) <==>
              |s| >= 2 && s[0] as int * 256 + s[1] == n && (n < 4 || n > 512)
  {
    hide ParsePortThenAddress;
  }

  /** The refusals of a metadata block: its status, its network, and what is wrong with its address. */
  lemma MetadataRefusedExactly(utf8: Utf8, m: bytes)
    requires |m| >= 4
    ensures var r := ParseMetadata(utf8, m);
            var udp := |m| > 4 && m[4] == 2;
            && (forall b :: r == Err(Status(b)) <==> m[2] == b && (b == 0 || b > 4))
            && (forall b :: r == Err(Network(b)) <==> m[2] == 1 && !udp && b == if |m| > 4 then m[4] else 0)
            && (forall e :: r == Err(BadAddress(e)) <==>
                  (m[2] == 1 || m[2] == 2) && udp && ParsePortThenAddress(utf8, m[5..]) == Err(e))
            && (r.Ok? ==> r.value.session == m[0] as int * 256 + m[1])
            && (r.Ok? ==> r.value.status == m[2] && r.value.option == m[3])
            && (r.Ok? ==> (r.value.target.Some? <==> (m[2] == 1 || m[2] == 2) && udp))
  {
    hide ParsePortThenAddress;
  }

  /** What an encoder refuses: metadata of more than 512 bytes, then a payload of more than 65535. */
  lemma EncodeRefusedExactly(f: Frame)
    ensures var (m, n) := (|Metadata(f)|, |f.payload|);
            EncodeFrame(f).Err? <==> m > 512 || n > 65535
    ensures |Metadata(f)| > 512 ==> EncodeFrame(f) == Err(MetadataLength(|Metadata(f)|))
    ensures |Metadata(f)| <= 512 && |f.payload| > 65535 ==> EncodeFrame(f) == Err(PayloadLength(|f.payload|))
  {
    hide Metadata;
  }
}
