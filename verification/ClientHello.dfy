/**
  The ClientHello of the TLS backend: it may arrive split over any number of handshake records
  (section 5.1 of RFC 8446), and is then parsed field by field (section 4.1.2). Which names are
  UTF-8 is a parameter.
*/
module ClientHello {
  import opened Bytes

  const RECORD_HANDSHAKE: byte := 0x16
  const CLIENT_HELLO: byte := 0x01

  // ----- reassembly

  datatype BufferError =
    | TruncatedRecord | NotHandshakeRecord | TrailingRecordBytes | NotClientHelloMessage | PayloadTooLarge
    | TrailingHandshakeBytes

  function TryMessage(payload: bytes, max: nat): Result<Option<bytes>, BufferError> {
    if |payload| < 4 then Ok(None)
    else if payload[0] != CLIENT_HELLO then Err(NotClientHelloMessage)
    else
      var total := 4 + U24(payload[1], payload[2], payload[3]);
      if total > max then Err(PayloadTooLarge)
      else if |payload| < total then Ok(None)
      else if |payload| != total then Err(TrailingHandshakeBytes)
      else Ok(Some(payload))
  }

  /** The payload after a record and the outcome; a rejected record leaves the payload as it was. */
  function Append(payload: bytes, max: nat, record: bytes): (bytes, Result<Option<bytes>, BufferError>) {
    if |record| < 5 then (payload, Err(TruncatedRecord))
    else if record[0] != RECORD_HANDSHAKE then (payload, Err(NotHandshakeRecord))
    else
      var length := U16(record[3], record[4]);
      if |record| < 5 + length then (payload, Err(TruncatedRecord))
      else if |record| != 5 + length then (payload, Err(TrailingRecordBytes))
      else if |payload| + length > max then (payload, Err(PayloadTooLarge))
      else (payload + record[5..], TryMessage(payload + record[5..], max))
  }

  class RecordBuffer {
    var payload: bytes
    const maxPayload: nat

    constructor (maxPayload: nat)
      ensures payload == [] && this.maxPayload == maxPayload
    {
      payload, this.maxPayload := [], maxPayload;
    }

    method AppendRecord(record: bytes) returns (r: Result<Option<bytes>, BufferError>)
      modifies this
      ensures (payload, r) == Append(old(payload), maxPayload, record)
    {
      if |record| < 5 {
        return Err(TruncatedRecord);
      }
      if record[0] != RECORD_HANDSHAKE {
        return Err(NotHandshakeRecord);
      }
      var length := U16(record[3], record[4]);
      if |record| < 5 + length {
        return Err(TruncatedRecord);
      }
      var body := record[5..5 + length];
      if |record| != 5 + length {
        return Err(TrailingRecordBytes);
      }
      if |payload| + |body| > maxPayload {
        return Err(PayloadTooLarge);
      }
      assert body == record[5..];
      payload := payload + body;
      r := TryMessage(payload, maxPayload);
    }
  }

  /** A handshake record with any version bytes. */
  function Record(v1: byte, v2: byte, body: bytes): bytes { [RECORD_HANDSHAKE, v1, v2] + Be16(|body|) + body }

  /** A complete ClientHello: type, and a length that is right. */
  predicate IsHello(m: bytes) { |m| >= 4 && m[0] == CLIENT_HELLO && U24(m[1], m[2], m[3]) == |m| - 4 }

  /**
    Whatever the split: while part of the message is missing a record is taken and gives nothing, and
    the record that completes the message gives exactly the message.
  */
  lemma AnySplitReassembles(m: bytes, max: nat, n: nat, v1: byte, v2: byte, body: bytes)
    requires IsHello(m) && |m| <= max && |body| < 0x1_0000 && n + |body| <= |m| && body == m[n..n + |body|]
    ensures var (payload, r) := Append(m[..n], max, Record(v1, v2, body));
            payload == m[..n + |body|] && r == Ok(if n + |body| == |m| then Some(m) else None)
  {
    var record := Record(v1, v2, body);
    assert record[3] == Be16(|body|)[0] && record[4] == Be16(|body|)[1] && record[5..] == body;
    assert m[..n] + body == m[..n + |body|];
    assert m[..|m|] == m;
  }

  /** The outcomes of a list of records, one by one. */
  function Outcomes(payload: bytes, max: nat, records: seq<bytes>): seq<Result<Option<bytes>, BufferError>>
    decreases records
  {
    if records == [] then []
    else
      var (p, r) := Append(payload, max, records[0]);
      [r] + Outcomes(p, max, records[1..])
  }

  /** One record of a split: its version bytes and its part of the message. */
  datatype Part = Part(v1: byte, v2: byte, body: bytes)

  function Bodies(parts: seq<Part>): bytes { if parts == [] then [] else parts[0].body + Bodies(parts[1..]) }

  function Records(parts: seq<Part>): seq<bytes> {
    if parts == [] then [] else [Record(parts[0].v1, parts[0].v2, parts[0].body)] + Records(parts[1..])
  }

  /** Nothing, n times, and then the message. */
  function NothingThen(n: nat, m: bytes): seq<Result<Option<bytes>, BufferError>> {
    if n == 0 then [Ok(Some(m))] else [Ok(None)] + NothingThen(n - 1, m)
  }

  /** Any split whose last part is not empty: nothing for each record before the last, then the message. */
  lemma {:induction false} SplitRunReassembles(m: bytes, max: nat, n: nat, parts: seq<Part>)
    requires IsHello(m) && |m| <= max && n <= |m|
    requires parts != [] && Bodies(parts) == m[n..] && parts[|parts| - 1].body != []
    requires forall p | p in parts :: |p.body| < 0x1_0000
    ensures Outcomes(m[..n], max, Records(parts)) == NothingThen(|parts| - 1, m)
    decreases parts
  {
    hide Append, Record, IsHello;
    var (body, rest) := (parts[0].body, Bodies(parts[1..]));
    var next := n + |body|;
    assert m[n..] == body + rest;
    assert body == m[n..][..|body|] == m[n..next];
    AnySplitReassembles(m, max, n, parts[0].v1, parts[0].v2, body);
    assert Records(parts)[1..] == Records(parts[1..]);
    if |parts| == 1 {
      assert rest == [];
    } else {
      assert m[next..] == m[n..][|body|..] == rest;
      LastPart(parts[1..]);
      SplitRunReassembles(m, max, next, parts[1..]);
    }
  }

  lemma {:induction false} LastPart(parts: seq<Part>)
    requires parts != [] && parts[|parts| - 1].body != []
    ensures Bodies(parts) != []
  {
    if |parts| == 1 {
    } else {
      LastPart(parts[1..]);
    }
  }

  // ----- what is refused

  /** A record is taken exactly if it is a whole handshake record and its body fits; else the payload stays. */
  lemma TakenExactly(payload: bytes, max: nat, record: bytes)
    ensures var (p, r) := Append(payload, max, record);
            var n := |record| - 5;
            var whole := 0 <= n < 0x1_0000 && record == [22, record[1], record[2], n / 256, n % 256] + record[5..];
            if whole && |payload| + n <= max then
              p == payload + record[5..] && r == TryMessage(p, max) && |p| <= max
            else p == payload && r.Err?
  {
    if |record| >= 5 {
      var n := U16(record[3], record[4]);
      assert record == record[..5] + record[5..];
      assert record[..5] == [record[0], record[1], record[2], record[3], record[4]];
      assert record[3] == n / 256 && record[4] == n % 256;
    }
  }

  /** The five refusals of a record. */
  lemma RecordRefused(payload: bytes, max: nat, record: bytes)
    ensures var r := Append(payload, max, record).1;
            if |record| < 5 then r == Err(TruncatedRecord)
            else if record[0] != 22 then r == Err(NotHandshakeRecord)
            else
              var (declared, there) := (record[3] as int * 256 + record[4], |record| - 5);
              && (there < declared ==> r == Err(TruncatedRecord))
              && (there > declared ==> r == Err(TrailingRecordBytes))
              && (there == declared && |payload| + there > max ==> r == Err(PayloadTooLarge))
  {
  }

  /** The payload is given back exactly if it is a complete hello within the limit; what it is otherwise. */
  lemma MessageExactly(payload: bytes, max: nat)
    ensures var r := TryMessage(payload, max);
            var known := |payload| >= 4 && payload[0] == 1;
            var total := if |payload| >= 4 then 4 + U24(payload[1], payload[2], payload[3]) else 0;
            && (r.Ok? && r.value.Some? <==> IsHello(payload) && |payload| <= max)
            && (r.Ok? && r.value.Some? ==> r.value.value == payload)
            && (r == Ok(None) <==> |payload| < 4 || (known && |payload| < total <= max))
            && (r == Err(NotClientHelloMessage) <==> |payload| >= 4 && payload[0] != 1)
            && (r == Err(PayloadTooLarge) <==> known && total > max)
            && (r == Err(TrailingHandshakeBytes) <==> known && total <= max && |payload| > total)
  {
  }
}
