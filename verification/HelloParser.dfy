/**
  Parsing a ClientHello (section 4.1.2 of RFC 8446). The functions give the meaning of a byte string
  by what is left to read; the methods advance a bounds-checked cursor in loops, as the program does.
*/
module HelloParser {
  import opened Bytes

  const CLIENT_HELLO: byte := 0x01
  const EXT_SERVER_NAME := 0x0000
  const EXT_SIGNATURE_ALGORITHMS := 0x000d
  const EXT_ALPN := 0x0010
  const EXT_SUPPORTED_VERSIONS := 0x002b
  const EXT_KEY_SHARE := 0x0033
  const TLS13 := 0x0304

  type Utf8 = bytes -> bool

  datatype KeyShare = KeyShare(group: nat, data: bytes)

  datatype ParseError = Truncated | NotClientHello | Malformed

  /** What the extensions say; of a repeated extension the last counts, but key shares accumulate. */
  datatype Fields = Fields(serverName: Option<bytes>, keyShares: seq<KeyShare>, signatures: seq<nat>, tls13: bool,
                           alpn: seq<bytes>)

  const NO_FIELDS := Fields(None, [], [], false, [])

  datatype Hello = Hello(random: bytes, sessionId: bytes, suites: seq<nat>, fields: Fields)

  // ----- meaning, by what is left to read

  /** A block with a one-byte length, and what follows it. */
  function Block8(b: bytes): Option<(bytes, bytes)> {
    if b == [] || |b[1..]| < b[0] then None else Some((b[1..][..b[0]], b[1..][b[0]..]))
  }

  /** A block with a two-byte length, and what follows it. */
  function Block16(b: bytes): Option<(bytes, bytes)> {
    if |b| < 2 || |b[2..]| < U16(b[0], b[1]) then None
    else var n := U16(b[0], b[1]); Some((b[2..][..n], b[2..][n..]))
  }

  function KeySharesFrom(b: bytes, acc: seq<KeyShare>): Option<seq<KeyShare>>
    decreases |b|
  {
    if b == [] then Some(acc)
    else if |b| < 2 then None
    else
      match Block16(b[2..])
      case None => None
      case Some((d, rest)) => KeySharesFrom(rest, acc + [KeyShare(U16(b[0], b[1]), d)])
  }

  function WordsFrom(b: bytes, acc: seq<nat>): seq<nat>
    decreases |b|
  {
    if |b| < 2 then acc else WordsFrom(b[2..], acc + [U16(b[0], b[1])])
  }

  function NameFrom(utf8: Utf8, b: bytes): Option<bytes>
    decreases |b|
  {
    if b == [] then None
    else
      match Block16(b[1..])
      case None => None
      case Some((name, rest)) =>
        if b[0] == 0 then (if utf8(name) then Some(name) else None) else NameFrom(utf8, rest)
  }

  function Tls13From(b: bytes): bool
    decreases |b|
  {
    |b| >= 2 && (U16(b[0], b[1]) == TLS13 || Tls13From(b[2..]))
  }

  function AlpnFrom(utf8: Utf8, b: bytes, acc: seq<bytes>): seq<bytes>
    decreases |b|
  {
    match Block8(b)
    case None => acc
    case Some((name, rest)) => AlpnFrom(utf8, rest, if utf8(name) then acc + [name] else acc)
  }

  function SniOf(utf8: Utf8, data: bytes): Option<bytes> {
    match Block16(data) case None => None case Some((list, _)) => NameFrom(utf8, list)
  }

  function Tls13Of(data: bytes): bool {
    match Block8(data) case None => false case Some((list, _)) => Tls13From(list)
  }

  function AlpnOf(utf8: Utf8, data: bytes): seq<bytes> {
    match Block16(data) case None => [] case Some((list, _)) => AlpnFrom(utf8, list, [])
  }

  function KeySharesOf(data: bytes, acc: seq<KeyShare>): Option<seq<KeyShare>> {
    match Block16(data) case None => None case Some((list, _)) => KeySharesFrom(list, acc)
  }

  function SignaturesOf(data: bytes): Result<seq<nat>, ParseError> {
    if |data| < 2 then Err(Truncated)
    else if U16(data[0], data[1]) % 2 != 0 then Err(Malformed)
    else
      match Block16(data)
      case None => Err(Truncated)
      case Some((list, rest)) => if rest != [] then Err(Malformed) else Ok(WordsFrom(list, []))
  }

  /** What one extension adds to the fields. */
  function Extend(utf8: Utf8, kind: nat, data: bytes, f: Fields): Result<Fields, ParseError> {
    if kind == EXT_SERVER_NAME then Ok(f.(serverName := SniOf(utf8, data)))
    else if kind == EXT_SUPPORTED_VERSIONS then Ok(f.(tls13 := Tls13Of(data)))
    else if kind == EXT_SIGNATURE_ALGORITHMS then
      match SignaturesOf(data) case Err(e) => Err(e) case Ok(ss) => Ok(f.(signatures := ss))
    else if kind == EXT_ALPN then Ok(f.(alpn := AlpnOf(utf8, data)))
    else if kind == EXT_KEY_SHARE then
      match KeySharesOf(data, f.keyShares) case None => Err(Truncated) case Some(ks) => Ok(f.(keyShares := ks))
    else Ok(f)
  }

  function ExtensionsFrom(utf8: Utf8, b: bytes, f: Fields): Result<Fields, ParseError>
    decreases |b|
  {
    if b == [] then Ok(f)
    else if |b| < 2 then Err(Truncated)
    else
      match Block16(b[2..])
      case None => Err(Truncated)
      case Some((data, rest)) =>
        match Extend(utf8, U16(b[0], b[1]), data, f)
        case Err(e) => Err(e)
        case Ok(f') => ExtensionsFrom(utf8, rest, f')
  }

  /** The optional extension block that ends the message. */
  function TailOf(utf8: Utf8, b: bytes): Result<Fields, ParseError> {
    if b == [] then Ok(NO_FIELDS)
    else
      match Block16(b)
      case None => Err(Truncated)
      case Some((list, rest)) =>
        match ExtensionsFrom(utf8, list, NO_FIELDS)
        case Err(e) => Err(e)
        case Ok(f) => if rest != [] then Err(Malformed) else Ok(f)
  }

  /** Everything after the session id. */
  function SuitesOf(utf8: Utf8, b: bytes, random: bytes, sid: bytes): Result<Hello, ParseError> {
    if |b| < 2 then Err(Truncated)
    else if U16(b[0], b[1]) % 2 != 0 then Err(Malformed)
    else
      match Block16(b)
      case None => Err(Truncated)
      case Some((suites, b1)) =>
        match Block8(b1)
        case None => Err(Truncated)
        case Some((_, b2)) =>
          match TailOf(utf8, b2)
          case Err(e) => Err(e)
          case Ok(f) => Ok(Hello(random, sid, WordsFrom(suites, []), f))
  }

  function Parse(utf8: Utf8, m: bytes): Result<Hello, ParseError> {
    if m == [] then Err(Truncated)
    else if m[0] != CLIENT_HELLO then Err(NotClientHello)
    else if |m| < 4 then Err(Truncated)
    else if U24(m[1], m[2], m[3]) != |m| - 4 then Err(Malformed)
    else
      var b := m[4..];
      if |b| < 34 then Err(Truncated)
      else
        match Block8(b[34..])
        case None => Err(Truncated)
        case Some((sid, rest)) => SuitesOf(utf8, rest, b[2..34], sid)
  }

  // ----- the cursor

  class Cursor {
    const all: bytes
    var pos: nat

    ghost predicate InBounds()
      reads this
    {
      pos <= |all|
    }

    /** What is left to read. */
    ghost function Rest(): bytes
      reads this
      requires InBounds()
    {
      all[pos..]
    }

    constructor (all: bytes)
      ensures InBounds() && Rest() == all
    {
      this.all, pos := all, 0;
    }

    method AtEnd() returns (r: bool)
      requires InBounds()
      ensures r <==> Rest() == []
    {
      r := pos >= |all|;
    }

    /** The next n bytes; the cursor stays where it is if there are not as many. */
    method Take(n: nat) returns (r: Option<bytes>)
      requires InBounds()
      modifies this
      ensures InBounds()
      ensures if old(|Rest()|) >= n then r == Some(old(Rest())[..n]) && Rest() == old(Rest())[n..]
              else r == None && Rest() == old(Rest())
    {
      if pos + n > |all| {
        return None;
      }
      r := Some(all[pos..pos + n]);
      assert all[pos..pos + n] == all[pos..][..n] && all[pos + n..] == all[pos..][n..];
      pos := pos + n;
    }

    method U16Next() returns (r: Option<nat>)
      requires InBounds()
      modifies this
      ensures InBounds()
      ensures var b := old(Rest());
              if |b| >= 2 then r == Some(U16(b[0], b[1])) && Rest() == b[2..] else r == None && Rest() == b
    {
      var two := Take(2);
      r := if two.None? then None else Some(U16(two.value[0], two.value[1]));
    }

    /** A length of two bytes and as many bytes. */
    method Take16() returns (r: Option<bytes>)
      requires InBounds()
      modifies this
      ensures InBounds()
      ensures match Block16(old(Rest()))
              case None => r == None
              case Some((block, rest)) => r == Some(block) && Rest() == rest
    {
      var n := U16Next();
      if n.None? {
        return None;
      }
      r := Take(n.value);
    }

    /** A length of one byte and as many bytes. */
    method Take8() returns (r: Option<bytes>)
      requires InBounds()
      modifies this
      ensures InBounds()
      ensures match Block8(old(Rest()))
              case None => r == None
              case Some((block, rest)) => r == Some(block) && Rest() == rest
    {
      var n := Take(1);
      if n.None? {
        return None;
      }
      r := Take(n.value[0]);
    }
  }

  // ----- the parsers

  method ParseKeyShares(data: bytes, shares: seq<KeyShare>) returns (r: Option<seq<KeyShare>>)
    ensures r == KeySharesOf(data, shares)
  {
    hide U16;
    var reader := new Cursor(data);
    var list := reader.Take16();
    if list.None? {
      return None;
    }
    var entries := new Cursor(list.value);
    var acc := shares;
    var done := entries.AtEnd();
    while !done
      invariant entries.InBounds() && (done <==> entries.Rest() == [])
      invariant KeySharesOf(data, shares) == KeySharesFrom(entries.Rest(), acc)
      decreases |entries.Rest()|
    {
      var group := entries.U16Next();
      if group.None? {
        return None;
      }
      var share := entries.Take16();
      if share.None? {
        return None;
      }
      acc := acc + [KeyShare(group.value, share.value)];
      done := entries.AtEnd();
    }
    r := Some(acc);
  }

  method ParseSni(utf8: Utf8, data: bytes) returns (r: Option<bytes>)
    ensures r == SniOf(utf8, data)
  {
    hide U16;
    var reader := new Cursor(data);
    var list := reader.Take16();
    if list.None? {
      return None;
    }
    var names := new Cursor(list.value);
    var done := names.AtEnd();
    while !done
      invariant names.InBounds() && (done <==> names.Rest() == [])
      invariant SniOf(utf8, data) == NameFrom(utf8, names.Rest())
      decreases |names.Rest()|
    {
      var kind := names.Take(1);
      var name := names.Take16();
      if kind.None? || name.None? {
        return None;
      }
      if kind.value[0] == 0 {
        return if utf8(name.value) then Some(name.value) else None;
      }
      done := names.AtEnd();
    }
    r := None;
  }

  method ParseSupportedVersions(data: bytes) returns (r: bool)
    ensures r == Tls13Of(data)
  {
    hide U16;
    var reader := new Cursor(data);
    var list := reader.Take8();
    if list.None? {
      return false;
    }
    var versions := new Cursor(list.value);
    var done := versions.AtEnd();
    while !done
      invariant versions.InBounds() && (done ==> versions.Rest() == [])
      invariant Tls13Of(data) == Tls13From(versions.Rest())
      decreases |versions.Rest()|
    {
      var version := versions.U16Next();
      if version == Some(TLS13) {
        return true;
      }
      if version.None? {
        return false;
      }
      done := versions.AtEnd();
    }
    r := false;
  }

  method ParseAlpn(utf8: Utf8, data: bytes) returns (protocols: seq<bytes>)
    ensures protocols == AlpnOf(utf8, data)
  {
    hide U16;
    protocols := [];
    var reader := new Cursor(data);
    var list := reader.Take16();
    if list.None? {
      return;
    }
    var names := new Cursor(list.value);
    var done := names.AtEnd();
    while !done
      invariant names.InBounds() && (done ==> names.Rest() == [])
      invariant AlpnOf(utf8, data) == AlpnFrom(utf8, names.Rest(), protocols)
      decreases |names.Rest()|
    {
      var name := names.Take8();
      if name.None? {
        return;
      }
      if utf8(name.value) {
        protocols := protocols + [name.value];
      }
      done := names.AtEnd();
    }
  }

  method ParseWords(list: bytes) returns (words: seq<nat>)
    ensures words == WordsFrom(list, [])
  {
    words := [];
    var i := 0;
    while i + 2 <= |list|
      invariant 0 <= i <= |list|
      invariant WordsFrom(list, []) == WordsFrom(list[i..], words)
    {
      words := words + [U16(list[i], list[i + 1])];
      assert list[i..][2..] == list[i + 2..];
      i := i + 2;
    }
  }

  method ParseSignatureSchemes(data: bytes) returns (r: Result<seq<nat>, ParseError>)
    ensures r == SignaturesOf(data)
  {
    hide U16;
    var reader := new Cursor(data);
    var n := reader.U16Next();
    if n.None? {
      return Err(Truncated);
    }
    if n.value % 2 != 0 {
      return Err(Malformed);
    }
    var list := reader.Take(n.value);
    if list.None? {
      return Err(Truncated);
    }
    var done := reader.AtEnd();
    if !done {
      return Err(Malformed);
    }
    var words := ParseWords(list.value);
    r := Ok(words);
  }

  /** One extension, handed to the parser of its kind. */
  method ParseExtension(utf8: Utf8, kind: nat, data: bytes, f: Fields) returns (r: Result<Fields, ParseError>)
    ensures r == Extend(utf8, kind, data, f)
  {
    hide SniOf, Tls13Of, SignaturesOf, AlpnOf, KeySharesOf;
    if kind == EXT_SERVER_NAME {
      var name := ParseSni(utf8, data);
      r := Ok(f.(serverName := name));
    } else if kind == EXT_SUPPORTED_VERSIONS {
      var offered := ParseSupportedVersions(data);
      r := Ok(f.(tls13 := offered));
    } else if kind == EXT_SIGNATURE_ALGORITHMS {
      var schemes := ParseSignatureSchemes(data);
      r := if schemes.Err? then Err(schemes.error) else Ok(f.(signatures := schemes.value));
    } else if kind == EXT_ALPN {
      var protocols := ParseAlpn(utf8, data);
      r := Ok(f.(alpn := protocols));
    } else if kind == EXT_KEY_SHARE {
      var shares := ParseKeyShares(data, f.keyShares);
      r := if shares.None? then Err(Truncated) else Ok(f.(keyShares := shares.value));
    } else {
      r := Ok(f);
    }
  }

  method ParseExtensions(utf8: Utf8, list: bytes) returns (r: Result<Fields, ParseError>)
    ensures r == ExtensionsFrom(utf8, list, NO_FIELDS)
  {
    hide U16, Extend;
    var reader := new Cursor(list);
    var f := NO_FIELDS;
    var done := reader.AtEnd();
    while !done
      invariant reader.InBounds() && (done <==> reader.Rest() == [])
      invariant ExtensionsFrom(utf8, list, NO_FIELDS) == ExtensionsFrom(utf8, reader.Rest(), f)
      decreases |reader.Rest()|
    {
      var kind := reader.U16Next();
      if kind.None? {
        return Err(Truncated);
      }
      var data := reader.Take16();
      if data.None? {
        return Err(Truncated);
      }
      var next := ParseExtension(utf8, kind.value, data.value, f);
      if next.Err? {
        return next;
      }
      f := next.value;
      done := reader.AtEnd();
    }
    r := Ok(f);
  }

  /** The optional extension block; nothing may follow it. */
  method ParseTail(utf8: Utf8, reader: Cursor) returns (r: Result<Fields, ParseError>)
    requires reader.InBounds()
    modifies reader
    ensures r == TailOf(utf8, old(reader.Rest()))
  {
    hide ExtensionsFrom, U16;
    var f := NO_FIELDS;
    var none := reader.AtEnd();
    if !none {
      var list := reader.Take16();
      if list.None? {
        return Err(Truncated);
      }
      var parsed := ParseExtensions(utf8, list.value);
      if parsed.Err? {
        return parsed;
      }
      f := parsed.value;
    }
    var done := reader.AtEnd();
    r := if done then Ok(f) else Err(Malformed);
  }

  method ParseSuites(utf8: Utf8, reader: Cursor, random: bytes, sid: bytes) returns (r: Result<Hello, ParseError>)
    requires reader.InBounds()
    modifies reader
    ensures r == SuitesOf(utf8, old(reader.Rest()), random, sid)
  {
    hide TailOf, U16;
    var n := reader.U16Next();
    if n.None? {
      return Err(Truncated);
    }
    if n.value % 2 != 0 {
      return Err(Malformed);
    }
    var list := reader.Take(n.value);
    if list.None? {
      return Err(Truncated);
    }
    var suites := ParseWords(list.value);
    var compression := reader.Take8();
    if compression.None? {
      return Err(Truncated);
    }
    var f := ParseTail(utf8, reader);
    r := if f.Err? then Err(f.error) else Ok(Hello(random, sid, suites, f.value));
  }

  method ParseMessage(utf8: Utf8, message: bytes) returns (r: Result<Hello, ParseError>)
    ensures r == Parse(utf8, message)
  {
    hide SuitesOf, U24;
    var reader := new Cursor(message);
    var kind := reader.Take(1);
    if kind.None? {
      return Err(Truncated);
    }
    if kind.value[0] != CLIENT_HELLO {
      return Err(NotClientHello);
    }
    var length := reader.Take(3);
    if length.None? {
      return Err(Truncated);
    }
    assert message[1..][3..] == message[4..];
    if U24(length.value[0], length.value[1], length.value[2]) != |message| - 4 {
      return Err(Malformed);
    }
    var version := reader.Take(2);
    if version.None? {
      return Err(Truncated);
    }
    var random := reader.Take(32);
    if random.None? {
      return Err(Truncated);
    }
    assert message[4..][2..][..32] == message[4..][2..34] && message[4..][2..][32..] == message[4..][34..];
    var sid := reader.Take8();
    if sid.None? {
      return Err(Truncated);
    }
    r := ParseSuites(utf8, reader, random.value, sid.value);
  }

  // ----- the wire form of a hello, as section 4.1.2 of RFC 8446 lays it out

  type word = n: nat | n < 0x1_0000

  datatype Share = Share(group: word, data: bytes)

  datatype Name = Name(kind: byte, name: bytes)

  datatype Ext =
    | ServerName(hosts: seq<Name>)
    | Versions(versions: seq<word>)
    | Signatures(schemes: seq<word>)
    | Protocols(names: seq<bytes>)
    | Shares(shares: seq<Share>)
    | Other(kind: word, data: bytes)

  datatype Message = Message(
    version: word, random: bytes, sessionId: bytes, suites: seq<word>, compression: bytes, extensions: Option<seq<Ext>>)

  function Wrap8(b: bytes): bytes
    requires |b| < 0x100
  {
    [|b|] + b
  }

  function Wrap16(b: bytes): bytes
    requires |b| < 0x1_0000
  {
    Be16(|b|) + b
  }

  function EncodeWords(ws: seq<word>): (r: bytes)
    ensures |r| == 2 * |ws|
  {
    if ws == [] then [] else Be16(ws[0]) + EncodeWords(ws[1..])
  }

  predicate NamesFit(names: seq<bytes>) { forall i :: 0 <= i < |names| ==> |names[i]| < 0x100 }

  function EncodeNames(names: seq<bytes>): bytes
    requires NamesFit(names)
  {
    if names == [] then [] else Wrap8(names[0]) + EncodeNames(names[1..])
  }

  predicate HostsFit(hosts: seq<Name>) { forall i :: 0 <= i < |hosts| ==> |hosts[i].name| < 0x1_0000 }

  function EncodeHosts(hosts: seq<Name>): bytes
    requires HostsFit(hosts)
  {
    if hosts == [] then [] else [hosts[0].kind] + Wrap16(hosts[0].name) + EncodeHosts(hosts[1..])
  }

  predicate SharesFit(shares: seq<Share>) { forall i :: 0 <= i < |shares| ==> |shares[i].data| < 0x1_0000 }

  function EncodeShares(shares: seq<Share>): bytes
    requires SharesFit(shares)
  {
    if shares == [] then [] else Be16(shares[0].group) + Wrap16(shares[0].data) + EncodeShares(shares[1..])
  }

  function Kind(e: Ext): word {
    match e
    case ServerName(_) => EXT_SERVER_NAME
    case Versions(_) => EXT_SUPPORTED_VERSIONS
    case Signatures(_) => EXT_SIGNATURE_ALGORITHMS
    case Protocols(_) => EXT_ALPN
    case Shares(_) => EXT_KEY_SHARE
    case Other(kind, _) => kind
  }

  predicate Known(kind: nat) {
    kind in {EXT_SERVER_NAME, EXT_SUPPORTED_VERSIONS, EXT_SIGNATURE_ALGORITHMS, EXT_ALPN, EXT_KEY_SHARE}
  }

  /** The list inside an extension is short enough for its length field. */
  predicate ListFits(e: Ext) {
    match e
    case ServerName(hosts) => HostsFit(hosts) && |EncodeHosts(hosts)| < 0x1_0000 - 2
    case Versions(vs) => |vs| < 0x80
    case Signatures(ss) => |ss| < 0x8000 - 1
    case Protocols(names) => NamesFit(names) && |EncodeNames(names)| < 0x1_0000 - 2
    case Shares(shares) => SharesFit(shares) && |EncodeShares(shares)| < 0x1_0000 - 2
    case Other(kind, data) => |data| < 0x1_0000 && !Known(kind)
  }

  function Data(e: Ext): (r: bytes)
    requires ListFits(e)
    ensures |r| < 0x1_0000
  {
    match e
    case ServerName(hosts) => Wrap16(EncodeHosts(hosts))
    case Versions(vs) => Wrap8(EncodeWords(vs))
    case Signatures(ss) => Wrap16(EncodeWords(ss))
    case Protocols(names) => Wrap16(EncodeNames(names))
    case Shares(shares) => Wrap16(EncodeShares(shares))
    case Other(_, data) => data
  }

  predicate ExtsFit(es: seq<Ext>) { forall i :: 0 <= i < |es| ==> ListFits(es[i]) }

  function EncodeExts(es: seq<Ext>): bytes
    requires ExtsFit(es)
  {
    if es == [] then [] else Be16(Kind(es[0])) + Wrap16(Data(es[0])) + EncodeExts(es[1..])
  }

  predicate TailFits(es: Option<seq<Ext>>) {
    es.Some? ==> ExtsFit(es.value) && |EncodeExts(es.value)| < 0x1_0000
  }

  function EncodeTail(es: Option<seq<Ext>>): bytes
    requires TailFits(es)
  {
    if es.None? then [] else Wrap16(EncodeExts(es.value))
  }

  /** Every list of the message is short enough for its length field. */
  predicate Fits(m: Message) {
    && |m.random| == 32
    && |m.sessionId| < 0x100
    && |m.suites| < 0x8000
    && |m.compression| < 0x100
    && TailFits(m.extensions)
  }

  function EncodeSuites(m: Message): bytes
    requires Fits(m)
  {
    Wrap16(EncodeWords(m.suites)) + (Wrap8(m.compression) + EncodeTail(m.extensions))
  }

  function EncodeBody(m: Message): bytes
    requires Fits(m)
  {
    Be16(m.version) + m.random + (Wrap8(m.sessionId) + EncodeSuites(m))
  }

  function Encode(m: Message): bytes
    requires Fits(m)
  {
    [CLIENT_HELLO] + Be24(|EncodeBody(m)|) + EncodeBody(m)
  }

  // ----- what a hello says

  function Valid(utf8: Utf8, names: seq<bytes>): seq<bytes> {
    if names == [] then [] else (if utf8(names[0]) then [names[0]] else []) + Valid(utf8, names[1..])
  }

  function AsKeyShares(shares: seq<Share>): seq<KeyShare> {
    if shares == [] then [] else [KeyShare(shares[0].group, shares[0].data)] + AsKeyShares(shares[1..])
  }

  /** The first name of type 0, if it is valid; a later one does not replace it. */
  function FirstHost(utf8: Utf8, hosts: seq<Name>): Option<bytes> {
    if hosts == [] then None
    else if hosts[0].kind != 0 then FirstHost(utf8, hosts[1..])
    else if utf8(hosts[0].name) then Some(hosts[0].name)
    else None
  }

  function Says(utf8: Utf8, e: Ext, f: Fields): Fields {
    match e
    case ServerName(hosts) => f.(serverName := FirstHost(utf8, hosts))
    case Versions(vs) => f.(tls13 := TLS13 in vs)
    case Signatures(ss) => f.(signatures := ss)
    case Protocols(names) => f.(alpn := Valid(utf8, names))
    case Shares(shares) => f.(keyShares := f.keyShares + AsKeyShares(shares))
    case Other(_, _) => f
  }

  function AllSay(utf8: Utf8, es: seq<Ext>, f: Fields): Fields {
    if es == [] then f else AllSay(utf8, es[1..], Says(utf8, es[0], f))
  }

  function Meaning(utf8: Utf8, m: Message): Hello {
    Hello(m.random, m.sessionId, m.suites,
          if m.extensions.None? then NO_FIELDS else AllSay(utf8, m.extensions.value, NO_FIELDS))
  }

  // ----- parsing gives back what was encoded

  lemma Block8Wrap(b: bytes, rest: bytes)
    requires |b| < 0x100
    ensures Block8(Wrap8(b) + rest) == Some((b, rest))
  {
    var w := Wrap8(b) + rest;
    assert w[1..] == b + rest;
    assert w[1..][..|b|] == b && w[1..][|b|..] == rest;
  }

  lemma Block16Wrap(b: bytes, rest: bytes)
    requires |b| < 0x1_0000
    ensures Block16(Wrap16(b) + rest) == Some((b, rest))
  {
    hide U16, Be16;
    var w := Wrap16(b) + rest;
    assert w[0] == Be16(|b|)[0] && w[1] == Be16(|b|)[1];
    assert w[2..] == b + rest;
    assert w[2..][..|b|] == b && w[2..][|b|..] == rest;
  }

  lemma WholeBlock16(b: bytes)
    requires |b| < 0x1_0000
    ensures Block16(Wrap16(b)) == Some((b, []))
  {
    assert Wrap16(b) + [] == Wrap16(b);
    Block16Wrap(b, []);
  }

  lemma WordFirst(w: word, rest: bytes)
    ensures var b := Be16(w) + rest; |b| >= 2 && U16(b[0], b[1]) == w && b[2..] == rest
  {
    hide U16, Be16;
  }

  lemma {:induction false} WordsBack(ws: seq<word>, acc: seq<nat>)
    ensures WordsFrom(EncodeWords(ws), acc) == acc + ws
  {
    hide U16, Be16;
    if ws == [] {
      assert acc + ws == acc;
    } else {
      WordFirst(ws[0], EncodeWords(ws[1..]));
      WordsBack(ws[1..], acc + [ws[0]]);
      assert acc + [ws[0]] + ws[1..] == acc + ws;
    }
  }

  lemma {:induction false} VersionsBack(vs: seq<word>)
    ensures Tls13From(EncodeWords(vs)) <==> TLS13 in vs
  {
    hide U16, Be16;
    if vs == [] {
    } else {
      WordFirst(vs[0], EncodeWords(vs[1..]));
      VersionsBack(vs[1..]);
    }
  }

  lemma {:induction false} NamesBack(utf8: Utf8, names: seq<bytes>, acc: seq<bytes>)
    requires NamesFit(names)
    ensures AlpnFrom(utf8, EncodeNames(names), acc) == acc + Valid(utf8, names)
  {
    hide Wrap8;
    if names == [] {
    } else {
      Block8Wrap(names[0], EncodeNames(names[1..]));
      NamesBack(utf8, names[1..], if utf8(names[0]) then acc + [names[0]] else acc);
    }
  }

  lemma {:induction false} SharesBack(shares: seq<Share>, acc: seq<KeyShare>)
    requires SharesFit(shares)
    ensures KeySharesFrom(EncodeShares(shares), acc) == Some(acc + AsKeyShares(shares))
  {
    hide Block16, Wrap16, U16, Be16;
    if shares == [] {
      assert acc + AsKeyShares(shares) == acc;
    } else {
      var first := KeyShare(shares[0].group, shares[0].data);
      var tail := Wrap16(shares[0].data) + EncodeShares(shares[1..]);
      assert EncodeShares(shares) == Be16(shares[0].group) + tail;
      WordFirst(shares[0].group, tail);
      Block16Wrap(shares[0].data, EncodeShares(shares[1..]));
      SharesBack(shares[1..], acc + [first]);
      assert acc + [first] + AsKeyShares(shares[1..]) == acc + AsKeyShares(shares);
    }
  }

  lemma {:induction false} HostsBack(utf8: Utf8, hosts: seq<Name>)
    requires HostsFit(hosts)
    ensures NameFrom(utf8, EncodeHosts(hosts)) == FirstHost(utf8, hosts)
  {
    hide Block16, Wrap16;
    if hosts == [] {
    } else {
      var rest := EncodeHosts(hosts[1..]);
      var wire := EncodeHosts(hosts);
      assert wire[0] == hosts[0].kind && wire[1..] == Wrap16(hosts[0].name) + rest;
      Block16Wrap(hosts[0].name, rest);
      HostsBack(utf8, hosts[1..]);
    }
  }

  lemma {:induction false} SchemesBack(ss: seq<word>)
    requires |ss| < 0x8000
    ensures SignaturesOf(Wrap16(EncodeWords(ss))) == Ok(ss)
  {
    hide Block16, U16, Be16, WordsFrom, EncodeWords;
    var list := EncodeWords(ss);
    WholeBlock16(list);
    WordFirst(|list|, list);
    WordsBack(ss, []);
    assert [] + ss == ss;
  }

  /** An extension says to the parser what it was encoded to say. */
  lemma ExtBack(utf8: Utf8, e: Ext, f: Fields)
    requires ListFits(e)
    ensures Extend(utf8, Kind(e), Data(e), f) == Ok(Says(utf8, e, f))
  {
    hide Block16, Block8, Wrap16, Wrap8, NameFrom, SignaturesOf, AlpnFrom, KeySharesFrom, Tls13From, EncodeWords,
         EncodeNames,
         EncodeShares, EncodeHosts, Valid, AsKeyShares, FirstHost;
    match e
    case ServerName(hosts) =>
      WholeBlock16(EncodeHosts(hosts));
      HostsBack(utf8, hosts);
    case Versions(vs) =>
      Block8Wrap(EncodeWords(vs), []);
      assert Wrap8(EncodeWords(vs)) + [] == Wrap8(EncodeWords(vs));
      VersionsBack(vs);
    case Signatures(ss) =>
      SchemesBack(ss);
    case Protocols(names) =>
      WholeBlock16(EncodeNames(names));
      NamesBack(utf8, names, []);
      assert [] + Valid(utf8, names) == Valid(utf8, names);
    case Shares(shares) =>
      WholeBlock16(EncodeShares(shares));
      SharesBack(shares, f.keyShares);
    case Other(_, _) =>
  }

  lemma {:induction false} ExtsBack(utf8: Utf8, es: seq<Ext>, f: Fields)
    requires ExtsFit(es)
    ensures ExtensionsFrom(utf8, EncodeExts(es), f) == Ok(AllSay(utf8, es, f))
  {
    hide Block16, Wrap16, U16, Be16, Extend, Says, Data, Kind, ListFits;
    if es == [] {
    } else {
      var rest := EncodeExts(es[1..]);
      var tail := Wrap16(Data(es[0])) + rest;
      assert EncodeExts(es) == Be16(Kind(es[0])) + tail;
      WordFirst(Kind(es[0]), tail);
      Block16Wrap(Data(es[0]), rest);
      ExtBack(utf8, es[0], f);
      ExtsBack(utf8, es[1..], Says(utf8, es[0], f));
    }
  }

  lemma TailBack(utf8: Utf8, es: Option<seq<Ext>>)
    requires TailFits(es)
    ensures TailOf(utf8, EncodeTail(es)) == Ok(if es.None? then NO_FIELDS else AllSay(utf8, es.value, NO_FIELDS))
  {
    hide Block16, ExtensionsFrom, EncodeExts, ExtsFit;
    if es.Some? {
      WholeBlock16(EncodeExts(es.value));
      ExtsBack(utf8, es.value, NO_FIELDS);
    }
  }

  lemma SuitesBack(utf8: Utf8, m: Message)
    requires Fits(m)
    ensures SuitesOf(utf8, EncodeSuites(m), m.random, m.sessionId) == Ok(Meaning(utf8, m))
  {
    hide Block16, Block8, Wrap8, U16, TailOf, EncodeTail, TailFits, EncodeWords, WordsFrom, AllSay;
    var list := EncodeWords(m.suites);
    var rest := Wrap8(m.compression) + EncodeTail(m.extensions);
    Block16Wrap(list, rest);
    WordFirst(|list|, list + rest);
    assert EncodeSuites(m) == Be16(|list|) + (list + rest);
    Block8Wrap(m.compression, EncodeTail(m.extensions));
    TailBack(utf8, m.extensions);
    WordsBack(m.suites, []);
    assert [] + m.suites == m.suites;
  }

  lemma BodyIsShort(m: Message)
    requires Fits(m)
    ensures |EncodeBody(m)| < 0x100_0000
  {
    hide Be16, EncodeExts, ExtsFit;
  }

  /** Parsing a message gives what the message says, for every ClientHello there is a wire form of. */
  lemma HelloRoundTrip(utf8: Utf8, m: Message)
    requires Fits(m)
    ensures Parse(utf8, Encode(m)) == Ok(Meaning(utf8, m))
  {
    hide Block8, Wrap8, U24, Be24, EncodeSuites, SuitesOf, TailFits, Meaning;
    BodyIsShort(m);
    var body := EncodeBody(m);
    var wire := Encode(m);
    var length := Be24(|body|);
    assert wire[0] == CLIENT_HELLO && wire[1] == length[0] && wire[2] == length[1] && wire[3] == length[2];
    assert wire[4..] == body;
    assert body[2..34] == m.random;
    assert body[34..] == Wrap8(m.sessionId) + EncodeSuites(m);
    Block8Wrap(m.sessionId, EncodeSuites(m));
    SuitesBack(utf8, m);
  }

  // ----- whatever is accepted was laid out like this

  lemma Block8Split(b: bytes)
    requires Block8(b).Some?
    ensures var (block, rest) := Block8(b).value; |block| < 0x100 && b == Wrap8(block) + rest
  {
    var n := b[0];
    assert b == [n] + b[1..] && b[1..] == b[1..][..n] + b[1..][n..];
  }

  lemma Block16Split(b: bytes)
    requires Block16(b).Some?
    ensures var (block, rest) := Block16(b).value; |block| < 0x1_0000 && b == Wrap16(block) + rest
  {
    hide Be16, U16;
    var n := U16(b[0], b[1]);
    WordBytes(b[0], b[1]);
    assert b == [b[0], b[1]] + b[2..] && b[2..] == b[2..][..n] + b[2..][n..];
  }

  lemma {:induction false} WordsSplit(b: bytes, acc: seq<nat>) returns (ws: seq<word>)
    requires |b| % 2 == 0
    ensures EncodeWords(ws) == b && WordsFrom(b, acc) == acc + ws
    decreases |b|
  {
    hide Be16, U16;
    if b == [] {
      ws := [];
      assert acc + ws == acc;
    } else {
      var w: word := U16(b[0], b[1]);
      var rest := WordsSplit(b[2..], acc + [w]);
      ws := [w] + rest;
      WordBytes(b[0], b[1]);
      assert b == [b[0], b[1]] + b[2..];
      assert ws[1..] == rest && acc + [w] + rest == acc + ws;
    }
  }

  lemma {:induction false} SharesSplit(b: bytes, acc: seq<KeyShare>) returns (shares: seq<Share>)
    requires KeySharesFrom(b, acc).Some?
    ensures SharesFit(shares) && EncodeShares(shares) == b
    ensures KeySharesFrom(b, acc) == Some(acc + AsKeyShares(shares))
    decreases |b|
  {
    hide Block16, Wrap16, Be16, U16;
    if b == [] {
      shares := [];
      assert acc + AsKeyShares(shares) == acc;
    } else {
      Block16Split(b[2..]);
      var (data, rest) := Block16(b[2..]).value;
      var group: word := U16(b[0], b[1]);
      var first := KeyShare(group, data);
      var others := SharesSplit(rest, acc + [first]);
      shares := [Share(group, data)] + others;
      assert shares[1..] == others;
      WordBytes(b[0], b[1]);
      assert b == [b[0], b[1]] + b[2..];
      assert EncodeShares(shares) == Be16(group) + (Wrap16(data) + EncodeShares(others));
      assert acc + [first] + AsKeyShares(others) == acc + AsKeyShares(shares);
    }
  }

  /** A list of signature schemes is accepted exactly if it fills its extension and has an even length. */
  lemma SchemesExactly(data: bytes)
    ensures var r := SignaturesOf(data);
            var n := if |data| >= 2 then data[0] as int * 256 + data[1] else 0;
            && (r == Err(Truncated) <==> |data| < 2 || (n % 2 == 0 && |data| < 2 + n))
            && (r == Err(Malformed) <==> |data| >= 2 && (n % 2 == 1 || |data| > 2 + n))
            && (r.Ok? ==> |data| == 2 + n && n % 2 == 0 && r.value == WordsFrom(data[2..], []))
  {
    hide WordsFrom;
    if |data| >= 2 {
      var n := U16(data[0], data[1]);
      if |data| >= 2 + n {
        assert data[2..][n..] == [] <==> |data| == 2 + n;
        assert |data| == 2 + n ==> data[2..][..n] == data[2..];
      }
    }
  }

  /** One extension as it stands on the wire. */
  datatype Raw = Raw(kind: word, data: bytes)

  predicate RawsFit(raws: seq<Raw>) { forall i :: 0 <= i < |raws| ==> |raws[i].data| < 0x1_0000 }

  function EncodeRaws(raws: seq<Raw>): bytes
    requires RawsFit(raws)
  {
    if raws == [] then [] else Be16(raws[0].kind) + Wrap16(raws[0].data) + EncodeRaws(raws[1..])
  }

  /** The extensions one after the other, as long as none is refused. */
  function ExtendAll(utf8: Utf8, raws: seq<Raw>, f: Fields): Result<Fields, ParseError> {
    if raws == [] then Ok(f)
    else
      match Extend(utf8, raws[0].kind, raws[0].data, f)
      case Err(e) => Err(e)
      case Ok(f') => ExtendAll(utf8, raws[1..], f')
  }

  lemma {:induction false} ExtsSplit(utf8: Utf8, b: bytes, f: Fields) returns (raws: seq<Raw>)
    requires ExtensionsFrom(utf8, b, f).Ok?
    ensures RawsFit(raws) && EncodeRaws(raws) == b && ExtensionsFrom(utf8, b, f) == ExtendAll(utf8, raws, f)
    decreases |b|
  {
    hide Block16, Wrap16, Extend, Be16, U16;
    if b == [] {
      raws := [];
    } else {
      Block16Split(b[2..]);
      var (data, rest) := Block16(b[2..]).value;
      var kind: word := U16(b[0], b[1]);
      var others := ExtsSplit(utf8, rest, Extend(utf8, kind, data, f).value);
      raws := [Raw(kind, data)] + others;
      assert raws[1..] == others;
      WordBytes(b[0], b[1]);
      assert b == [b[0], b[1]] + b[2..];
      assert EncodeRaws(raws) == Be16(kind) + (Wrap16(data) + EncodeRaws(others));
    }
  }

  /** What follows the session id in a message that is accepted. */
  lemma SuitesSplit(utf8: Utf8, b: bytes, random: bytes, sid: bytes)
      returns (suites: seq<word>, compression: bytes, raws: Option<seq<Raw>>)
    requires SuitesOf(utf8, b, random, sid).Ok?
    ensures |suites| < 0x8000 && |compression| < 0x100
    ensures raws.Some? ==> RawsFit(raws.value) && |EncodeRaws(raws.value)| < 0x1_0000
    ensures b == Wrap16(EncodeWords(suites)) + Wrap8(compression)
                 + if raws.None? then [] else Wrap16(EncodeRaws(raws.value))
    ensures var f := if raws.None? then Ok(NO_FIELDS) else ExtendAll(utf8, raws.value, NO_FIELDS);
            f.Ok? && SuitesOf(utf8, b, random, sid) == Ok(Hello(random, sid, suites, f.value))
  {
    hide WordsFrom, ExtensionsFrom, EncodeRaws, RawsFit, ExtendAll, Wrap16, Wrap8, Block8, EncodeWords, U16;
    Block16Split(b);
    var (list, b1) := Block16(b).value;
    assert |list| % 2 == 0;
    hide Block16;
    suites := WordsSplit(list, []);
    assert [] + suites == suites;
    Block8Split(b1);
    var (comp, b2) := Block8(b1).value;
    compression := comp;
    if b2 == [] {
      raws := None;
      assert b == Wrap16(list) + (Wrap8(comp) + []);
    } else {
      Block16Split(b2);
      var (exts, rest) := Block16(b2).value;
      var all := ExtsSplit(utf8, exts, NO_FIELDS);
      raws := Some(all);
      assert b == Wrap16(list) + (Wrap8(comp) + (Wrap16(exts) + []));
    }
  }

  /**
    Every message that is accepted, from any bytes, is laid out as section 4.1.2 of RFC 8446 says, with
    the fields that were found: nothing is missing, left over or of the wrong length.
  */
  lemma AcceptedIsLaidOut(utf8: Utf8, m: bytes)
      returns (version: bytes, suites: seq<word>, compression: bytes, raws: Option<seq<Raw>>)
    requires Parse(utf8, m).Ok?
    ensures var h := Parse(utf8, m).value;
            && |version| == 2 && |h.random| == 32 && |h.sessionId| < 0x100 && |suites| < 0x8000 && |compression| < 0x100
            && (raws.Some? ==> RawsFit(raws.value) && |EncodeRaws(raws.value)| < 0x1_0000)
            && var f := (if raws.None? then Ok(NO_FIELDS) else ExtendAll(utf8, raws.value, NO_FIELDS));
               var tail := if raws.None? then [] else Wrap16(EncodeRaws(raws.value));
               var body := version + h.random + (Wrap8(h.sessionId)
                           + (Wrap16(EncodeWords(suites)) + Wrap8(compression) + tail));
            && f == Ok(h.fields) && h.suites == suites
            && |body| < 0x100_0000 && m == [1] + Be24(|body|) + body
  {
    hide SuitesOf, EncodeRaws, RawsFit, ExtendAll, Wrap16, Wrap8, Block8, EncodeWords;
    var b := m[4..];
    Block8Split(b[34..]);
    var (sid, rest) := Block8(b[34..]).value;
    version := b[..2];
    suites, compression, raws := SuitesSplit(utf8, rest, b[2..34], sid);
    assert b == version + b[2..34] + b[34..];
    assert Be24(|b|) == m[1..4] by { LengthBytes(m[1], m[2], m[3]); }
    assert m == [m[0]] + m[1..4] + b;
  }

  // ----- what is refused, and what is read past

  /** The refusals that come before the fields. */
  lemma RefusedExactly(utf8: Utf8, m: bytes)
    ensures m == [] ==> Parse(utf8, m) == Err(Truncated)
    ensures Parse(utf8, m) == Err(NotClientHello) <==> m != [] && m[0] != 1
    ensures m != [] && m[0] == 1 && |m| < 4 ==> Parse(utf8, m) == Err(Truncated)
    ensures |m| >= 4 && m[0] == 1 && m[1] as int * 0x1_0000 + m[2] as int * 256 + m[3] != |m| - 4 ==>
              Parse(utf8, m) == Err(Malformed)
  {
    hide Block8, SuitesOf;
    SuitesKeepKind(utf8, m);
  }

  /** The refusals of the part behind the session id: what is cut off is truncated, an odd number of suite bytes and
      anything behind the extensions is malformed, and an extension's own refusal is passed on. */
  lemma SuitesRefused(utf8: Utf8, b: bytes, random: bytes, sid: bytes)
    ensures |b| < 2 ==> SuitesOf(utf8, b, random, sid) == Err(Truncated)
    ensures |b| >= 2 && (b[0] as int * 256 + b[1]) % 2 == 1 ==> SuitesOf(utf8, b, random, sid) == Err(Malformed)
    ensures |b| >= 2 && (b[0] as int * 256 + b[1]) % 2 == 0 && Broken16(b) ==>
              SuitesOf(utf8, b, random, sid) == Err(Truncated)
  {
    hide WordsFrom, TailOf, Block8;
  }

  lemma TailRefused(utf8: Utf8, ws: seq<word>, junk: bytes, compression: bytes, list: bytes, random: bytes, sid: bytes)
    requires |ws| < 0x8000 && |compression| < 0x100 && |list| < 0x1_0000
    ensures var front := Wrap16(EncodeWords(ws));
            var whole := front + (Wrap8(compression) + (Wrap16(list) + junk));
            var exts := ExtensionsFrom(utf8, list, NO_FIELDS);
            && (Broken8(junk) ==> SuitesOf(utf8, front + junk, random, sid) == Err(Truncated))
            && (junk != [] && Broken16(junk) ==>
                  SuitesOf(utf8, front + (Wrap8(compression) + junk), random, sid) == Err(Truncated))
            && (exts.Err? ==> SuitesOf(utf8, whole, random, sid) == Err(exts.error))
            && (exts.Ok? && junk != [] ==> SuitesOf(utf8, whole, random, sid) == Err(Malformed))
  {
    hide WordsFrom, ExtensionsFrom, Wrap16, Wrap8, Block8, Block16, EncodeWords, U16, Be16;
    BrokenListsSayNothing(utf8, junk);
    var (suites, tail) := (EncodeWords(ws), Wrap16(list) + junk);
    EvenFirst(suites, junk);
    EvenFirst(suites, Wrap8(compression) + junk);
    EvenFirst(suites, Wrap8(compression) + tail);
    Block16Wrap(suites, junk);
    Block16Wrap(suites, Wrap8(compression) + junk);
    Block16Wrap(suites, Wrap8(compression) + tail);
    Block8Wrap(compression, junk);
    Block8Wrap(compression, tail);
    Block16Wrap(list, junk);
  }

  lemma EvenFirst(list: bytes, rest: bytes)
    requires |list| < 0x1_0000
    ensures var b := Wrap16(list) + rest; |b| >= 2 && U16(b[0], b[1]) == |list|
  {
    hide U16, Be16;
    assert Wrap16(list) + rest == Be16(|list|) + (list + rest);
    WordFirst(|list|, list + rest);
  }

  /** A message whose length is right is truncated if it ends before the session id does. */
  lemma HeadRefused(utf8: Utf8, m: bytes)
    requires |m| >= 4 && m[0] == 1 && m[1] as int * 0x1_0000 + m[2] as int * 256 + m[3] == |m| - 4
    requires |m| < 39 || |m| < 39 + m[38] as int
    ensures Parse(utf8, m) == Err(Truncated)
  {
    hide SuitesOf;
  }

  /** The parts of a message never say that it is no ClientHello. */
  lemma SuitesKeepKind(utf8: Utf8, m: bytes)
    ensures forall b, random, sid :: SuitesOf(utf8, b, random, sid) != Err(NotClientHello)
  {
    hide Block8, Block16, WordsFrom, ExtensionsFrom;
    forall b, random, sid
      ensures SuitesOf(utf8, b, random, sid) != Err(NotClientHello)
    {
      forall list
        ensures ExtensionsFrom(utf8, list, NO_FIELDS) != Err(NotClientHello)
      {
        ExtensionsKeepKind(utf8, list, NO_FIELDS);
      }
    }
  }

  lemma {:induction false} ExtensionsKeepKind(utf8: Utf8, b: bytes, f: Fields)
    ensures ExtensionsFrom(utf8, b, f) != Err(NotClientHello)
    decreases |b|
  {
    hide SniOf, Tls13Of, AlpnOf, KeySharesOf, WordsFrom;
    if |b| < 2 || Block16(b[2..]).None? {
    } else {
      var (data, rest) := Block16(b[2..]).value;
      var next := Extend(utf8, U16(b[0], b[1]), data, f);
      if next.Ok? {
        ExtensionsKeepKind(utf8, rest, next.value);
      }
    }
  }

  /** A message that is cut short anywhere is refused. */
  lemma CutIsRefused(utf8: Utf8, m: Message, n: nat)
    requires Fits(m) && n < |Encode(m)|
    ensures Parse(utf8, Encode(m)[..n]) == Err(if n < 4 then Truncated else Malformed)
  {
    hide EncodeBody, Be24, U24;
    BodyIsShort(m);
    var w := Encode(m);
    var length := Be24(|EncodeBody(m)|);
    assert w[1] == length[0] && w[2] == length[1] && w[3] == length[2];
    U24Bytes(w[1], w[2], w[3]);
    RefusedExactly(utf8, w[..n]);
  }

  lemma U24Bytes(b2: byte, b1: byte, b0: byte)
    ensures U24(b2, b1, b0) == b2 as int * 0x1_0000 + b1 as int * 256 + b0
  {
  }

  /** Not a block: too short for its length, or for what the length says. */
  predicate Broken8(b: bytes) { b == [] || |b| - 1 < b[0] }

  predicate Broken16(b: bytes) { |b| < 2 || |b| - 2 < b[0] as int * 256 + b[1] }

  /** A server_name, ALPN or supported_versions extension without a whole list says nothing. */
  lemma BrokenListsSayNothing(utf8: Utf8, data: bytes)
    ensures Broken16(data) ==> SniOf(utf8, data) == None && AlpnOf(utf8, data) == []
    ensures Broken16(data) <==> Block16(data) == None
    ensures Broken8(data) <==> Block8(data) == None
    ensures Broken8(data) ==> !Tls13Of(data)
    ensures forall acc :: Broken16(data) ==> KeySharesOf(data, acc) == None
  {
    hide NameFrom, AlpnFrom, Tls13From, KeySharesFrom;
  }

  /** Names behind a broken one are not seen, those before it are; what follows a list is not looked at. */
  lemma {:induction false} NamesThenJunk(utf8: Utf8, names: seq<bytes>, junk: bytes, acc: seq<bytes>)
    requires NamesFit(names) && Broken8(junk)
    ensures AlpnFrom(utf8, EncodeNames(names) + junk, acc) == acc + Valid(utf8, names)
    decreases names
  {
    hide Wrap8, Block8;
    if names == [] {
      BrokenListsSayNothing(utf8, junk);
      assert EncodeNames(names) + junk == junk;
    } else {
      var rest := EncodeNames(names[1..]) + junk;
      assert EncodeNames(names) + junk == Wrap8(names[0]) + rest;
      Block8Wrap(names[0], rest);
      NamesThenJunk(utf8, names[1..], junk, if utf8(names[0]) then acc + [names[0]] else acc);
    }
  }

  lemma {:induction false} HostsThenJunk(utf8: Utf8, hosts: seq<Name>, junk: bytes)
    requires HostsFit(hosts) && (junk == [] || Broken16(junk[1..]))
    ensures NameFrom(utf8, EncodeHosts(hosts) + junk) == FirstHost(utf8, hosts)
    decreases hosts
  {
    hide Wrap16, Block16;
    if hosts == [] {
      BrokenListsSayNothing(utf8, if junk == [] then [] else junk[1..]);
      assert EncodeHosts(hosts) + junk == junk;
    } else {
      var rest := EncodeHosts(hosts[1..]) + junk;
      var wire := EncodeHosts(hosts) + junk;
      assert wire == [hosts[0].kind] + (Wrap16(hosts[0].name) + rest);
      assert wire[1..] == Wrap16(hosts[0].name) + rest;
      Block16Wrap(hosts[0].name, rest);
      HostsThenJunk(utf8, hosts[1..], junk);
    }
  }

  lemma {:induction false} VersionsThenJunk(vs: seq<word>, junk: bytes)
    requires |junk| < 2
    ensures Tls13From(EncodeWords(vs) + junk) <==> 0x0304 in vs
    decreases vs
  {
    hide U16, Be16;
    if vs == [] {
      assert EncodeWords(vs) + junk == junk;
    } else {
      var rest := EncodeWords(vs[1..]) + junk;
      assert EncodeWords(vs) + junk == Be16(vs[0]) + rest;
      WordFirst(vs[0], rest);
      VersionsThenJunk(vs[1..], junk);
    }
  }

  /** What stands behind the list of an extension is not looked at. */
  lemma TailIgnored(utf8: Utf8, list: bytes, tail: bytes, acc: seq<KeyShare>)
    requires |list| < 0x1_0000
    ensures SniOf(utf8, Wrap16(list) + tail) == NameFrom(utf8, list)
    ensures AlpnOf(utf8, Wrap16(list) + tail) == AlpnFrom(utf8, list, [])
    ensures KeySharesOf(Wrap16(list) + tail, acc) == KeySharesFrom(list, acc)
    ensures |list| < 0x100 ==> Tls13Of(Wrap8(list) + tail) == Tls13From(list)
  {
    hide NameFrom, AlpnFrom, KeySharesFrom, Tls13From;
    Block16Wrap(list, tail);
    if |list| < 0x100 {
      Block8Wrap(list, tail);
    }
  }
}
