/**
  The TLS byte stream over a transport that may stall and that takes or gives any part of what it is
  offered. The writer seals one record per accepted write and keeps what the transport has not taken
  yet; the reader reassembles records from any fragmentation.
*/
module TlsStream {
  import opened Bytes
  import opened RecordCipher
  import opened TlsRecord

  const APPLICATION_DATA: byte := 23
  const ALERT: byte := 21
  const CLOSE_NOTIFY: bytes := [1, 0]
  const MAX_TLS_RECORD := 18 * 1024
  const MAX_APP_PLAINTEXT := 16 * 1024

  datatype Rec = Rec(kind: byte, text: bytes)

  /** The records sealed one after the other. */
  function SealList(c: Crypto, k: Keys, rs: seq<Rec>): (r: (Keys, bytes))
    requires |k.iv| == NONCE_LEN
    ensures |r.0.iv| == NONCE_LEN
    decreases rs
  {
    if rs == [] then (k, [])
    else
      var (k', rest) := SealList(c, NextKeys(k), rs[1..]);
      (k', SealRecord(c, k, rs[0].kind, rs[0].text, 0) + rest)
  }

  lemma {:induction false} SealListSnoc(c: Crypto, k: Keys, rs: seq<Rec>, r: Rec)
    requires |k.iv| == NONCE_LEN
    ensures var (k1, wire) := SealList(c, k, rs);
            SealList(c, k, rs + [r]).0 == NextKeys(k1)
            && SealList(c, k, rs + [r]).1 == wire + SealRecord(c, k1, r.kind, r.text, 0)
    decreases rs
  {
    hide SealRecord;
    if rs == [] {
      assert [] + [r] == [r] && [r][1..] == [];
      assert SealList(c, NextKeys(k), []) == (NextKeys(k), []);
    } else {
      assert (rs + [r])[0] == rs[0] && (rs + [r])[1..] == rs[1..] + [r];
      SealListSnoc(c, NextKeys(k), rs[1..], r);
    }
  }

  lemma SealNothing(c: Crypto, k: Keys)
    requires |k.iv| == NONCE_LEN
    ensures SealList(c, k, []) == (k, [])
  {
  }

  /** Two lists sealed one after the other. */
  lemma {:induction false} SealListJoin(c: Crypto, k: Keys, a: seq<Rec>, b: seq<Rec>)
    requires |k.iv| == NONCE_LEN
    ensures |SealList(c, k, a).0.iv| == NONCE_LEN
    ensures SealList(c, k, a + b).1 == SealList(c, k, a).1 + SealList(c, SealList(c, k, a).0, b).1
    decreases a
  {
    hide SealRecord;
    if a == [] {
      assert a + b == b;
    } else {
      assert (a + b)[0] == a[0] && (a + b)[1..] == a[1..] + b;
      SealListJoin(c, NextKeys(k), a[1..], b);
    }
  }

  /** The keys the next record is sealed with are those of the first, with the number of records added. */
  lemma {:induction false} NumbersAdvance(c: Crypto, k: Keys, rs: seq<Rec>)
    requires |k.iv| == NONCE_LEN && k.number <= U64_MAX
    ensures SealList(c, k, rs).0 == k.(number := (k.number + |rs|) % 0x1_0000_0000_0000_0000)
    decreases rs
  {
    hide SealRecord;
    if rs == [] {
    } else {
      NumbersAdvance(c, NextKeys(k), rs[1..]);
      var m := 0x1_0000_0000_0000_0000;
      assert ((k.number + 1) % m + |rs[1..]|) % m == (k.number + |rs|) % m;
    }
  }

  /** In a connection of fewer than 2^64 records no nonce is used twice. */
  lemma NonceNeverReused(c: Crypto, k: Keys, rs: seq<Rec>, i: nat, j: nat)
    requires |k.iv| == NONCE_LEN && k.number <= U64_MAX && i < j < |rs| && j - i <= U64_MAX
    ensures Nonce(SealList(c, k, rs[..i]).0) != Nonce(SealList(c, k, rs[..j]).0)
  {
    hide SealList, Nonce;
    NumbersAdvance(c, k, rs[..i]);
    NumbersAdvance(c, k, rs[..j]);
    var m := 0x1_0000_0000_0000_0000;
    var (a, b) := ((k.number + i) % m, (k.number + j) % m);
    ApartModulo(k.number + i, k.number + j);
    NoncesDiffer(k, a, b);
  }

  lemma ApartModulo(x: nat, y: nat)
    requires x < y <= x + U64_MAX
    ensures x % 0x1_0000_0000_0000_0000 != y % 0x1_0000_0000_0000_0000
  {
  }

  // ----- the meaning of a received byte string

  datatype Status = Open | Closed | Failed

  /** Text of the records up to the first alert or failure, keys after them, bytes left over. */
  datatype Parsed = Parsed(plain: bytes, keys: Keys, rest: bytes, status: Status)

  /** No complete record at the front, and not too long a one either. */
  predicate Waiting(b: bytes) {
    |b| < 5 || (U16(b[3], b[4]) <= MAX_TLS_RECORD && |b| < 5 + U16(b[3], b[4]))
  }

  function ReadTls(c: Crypto, k: Keys, b: bytes): Parsed
    requires |k.iv| == NONCE_LEN
    decreases |b|
  {
    if Waiting(b) then Parsed([], k, b, Open)
    else if U16(b[3], b[4]) > MAX_TLS_RECORD then Parsed([], k, b, Failed)
    else
      var n := 5 + U16(b[3], b[4]);
      var (k', r) := OpenRecord(c, k, b[..n]);
      if r.None? then Parsed([], k', b[n..], Failed)
      else if r.value.0 == APPLICATION_DATA then
        var q := ReadTls(c, k', b[n..]);
        q.(plain := r.value.1 + q.plain)
      else if r.value.0 == ALERT then Parsed([], k', b[n..], Closed)
      else Parsed([], k', b[n..], Failed)
  }

  lemma OpenKeepsIv(c: Crypto, k: Keys, record: bytes)
    requires |k.iv| == NONCE_LEN
    ensures |OpenRecord(c, k, record).0.iv| == NONCE_LEN
  {
  }

  lemma ReadWaiting(c: Crypto, k: Keys, b: bytes)
    requires |k.iv| == NONCE_LEN && Waiting(b)
    ensures ReadTls(c, k, b) == Parsed([], k, b, Open)
  {
  }

  lemma ReadOne(c: Crypto, k: Keys, b: bytes)
    requires |k.iv| == NONCE_LEN && !Waiting(b)
    ensures U16(b[3], b[4]) > 18432 ==> ReadTls(c, k, b) == Parsed([], k, b, Failed)
    ensures U16(b[3], b[4]) <= 18432 ==>
              var n := 5 + U16(b[3], b[4]);
              var (k', r) := OpenRecord(c, k, b[..n]);
              && |k'.iv| == NONCE_LEN
              && (r.Some? && r.value.0 == APPLICATION_DATA ==>
                    var q := ReadTls(c, k', b[n..]);
                    ReadTls(c, k, b) == q.(plain := r.value.1 + q.plain))
              && (r.None? || r.value.0 != APPLICATION_DATA ==>
                    ReadTls(c, k, b) == Parsed([], k', b[n..], if r.Some? && r.value.0 == ALERT then Closed
                        else Failed))
  {
    hide OpenRecord;
    if U16(b[3], b[4]) <= MAX_TLS_RECORD {
      OpenKeepsIv(c, k, b[..5 + U16(b[3], b[4])]);
    }
  }

  /** More bytes continue where the parse stopped; after an alert or a failure they are only left over. */
  lemma {:induction false} ReadMore(c: Crypto, k: Keys, a: bytes, x: bytes)
    requires |k.iv| == NONCE_LEN
    ensures var q := ReadTls(c, k, a);
            |q.keys.iv| == NONCE_LEN
            && if q.status == Open then
                 var q' := ReadTls(c, q.keys, q.rest + x);
                 ReadTls(c, k, a + x) == q'.(plain := q.plain + q'.plain)
               else ReadTls(c, k, a + x) == q.(rest := q.rest + x)
    decreases |a|
  {
    hide OpenRecord, ReadTls;
    if Waiting(a) {
      ReadWaiting(c, k, a);
      var q := ReadTls(c, k, a + x);
      assert [] + q.plain == q.plain;
    } else {
      ReadOne(c, k, a);
      assert (a + x)[3] == a[3] && (a + x)[4] == a[4];
      ReadOne(c, k, a + x);
      if U16(a[3], a[4]) <= MAX_TLS_RECORD {
        var n := 5 + U16(a[3], a[4]);
        assert (a + x)[..n] == a[..n] && (a + x)[n..] == a[n..] + x;
        var (k', r) := OpenRecord(c, k, a[..n]);
        if r.Some? && r.value.0 == APPLICATION_DATA {
          ReadMore(c, k', a[n..], x);
        }
      }
    }
  }

  lemma ReadPrefix(c: Crypto, k: Keys, a: bytes, x: bytes)
    requires |k.iv| == NONCE_LEN
    ensures ReadTls(c, k, a).plain <= ReadTls(c, k, a + x).plain
    ensures ReadTls(c, k, a).status == Failed ==> ReadTls(c, k, a + x).status == Failed
    ensures ReadTls(c, k, a).status == Closed ==> ReadTls(c, k, a + x).status == Closed
                                                  && ReadTls(c, k, a + x).plain == ReadTls(c, k, a).plain
  {
    hide ReadTls;
    ReadMore(c, k, a, x);
  }

  // ----- what a peer makes of sealed records

  predicate Sendable(r: Rec) { r.kind == APPLICATION_DATA && 1 <= |r.text| <= MAX_APP_PLAINTEXT }

  function Texts(rs: seq<Rec>): bytes { if rs == [] then [] else rs[0].text + Texts(rs[1..]) }

  lemma {:induction false} TextsSnoc(rs: seq<Rec>, r: Rec)
    ensures Texts(rs + [r]) == Texts(rs) + r.text
  {
    if rs == [] {
      assert [] + [r] == [r];
    } else {
      assert (rs + [r])[1..] == rs[1..] + [r];
      TextsSnoc(rs[1..], r);
    }
  }

  lemma ReadSealed(c: Crypto, k: Keys, r: Rec)
    requires OpenUndoesSeal(c) && |k.iv| == NONCE_LEN && (Sendable(r) || r == Rec(ALERT, CLOSE_NOTIFY))
    ensures var record := SealRecord(c, k, r.kind, r.text, 0);
            ReadTls(c, k, record)
            == if r.kind == ALERT then Parsed([], NextKeys(k), [], Closed) else Parsed(r.text, NextKeys(k), [], Open)
  {
    var record := SealRecord(c, k, r.kind, r.text, 0);
    OpenUndoesSealRecord(c, k, r.kind, r.text, 0);
    hide OpenRecord, SealRecord, ReadTls, NextKeys, OpenUndoesSeal;
    ReadOne(c, k, record);
    assert record[..|record|] == record && record[|record|..] == [];
    if r.kind != ALERT {
      OpenKeepsIv(c, k, record);
      ReadWaiting(c, NextKeys(k), []);
      assert r.text + [] == r.text;
    }
  }

  /** Data records, then at most one close_notify. */
  predicate Orderly(rs: seq<Rec>, closed: bool) {
    && (closed ==> rs != [] && rs[|rs| - 1] == Rec(ALERT, CLOSE_NOTIFY))
    && forall i | 0 <= i < |rs| - (if closed then 1 else 0) :: Sendable(rs[i])
  }

  function DataOf(rs: seq<Rec>, closed: bool): bytes
    requires Orderly(rs, closed)
  {
    if closed then Texts(rs[..|rs| - 1]) else Texts(rs)
  }

  lemma OrderlySnoc(rs: seq<Rec>, closed: bool, r: Rec)
    requires Orderly(rs, closed)
    ensures !closed && Sendable(r) ==> Orderly(rs + [r], false) && DataOf(rs + [r], false) == DataOf(rs, false) + r.text
    ensures !closed && r == Rec(ALERT, CLOSE_NOTIFY) ==>
              Orderly(rs + [r], true) && DataOf(rs + [r], true) == DataOf(rs, false)
  {
    TextsSnoc(rs, r);
    assert (rs + [r])[..|rs + [r]| - 1] == rs;
  }

  lemma {:induction false} PeerReadsData(c: Crypto, k: Keys, rs: seq<Rec>)
    requires OpenUndoesSeal(c) && |k.iv| == NONCE_LEN && Orderly(rs, false)
    ensures ReadTls(c, k, SealList(c, k, rs).1) == Parsed(Texts(rs), SealList(c, k, rs).0, [], Open)
    decreases |rs|
  {
    if rs == [] {
      ReadWaiting(c, k, []);
    } else {
      var (front, r) := (rs[..|rs| - 1], rs[|rs| - 1]);
      assert rs == front + [r];
      PeerReadsData(c, k, front);
      var (k1, wire) := SealList(c, k, front);
      SealListSnoc(c, k, front, r);
      TextsSnoc(front, r);
      ReadSealed(c, k1, r);
      hide ReadTls, SealList, SealRecord, Texts, NextKeys, OpenUndoesSeal;
      var record := SealRecord(c, k1, r.kind, r.text, 0);
      ReadMore(c, k, wire, record);
      assert [] + record == record;
    }
  }

  /** A peer that sees all the records reads all the data, and an end of stream exactly if there is a close_notify. */
  lemma PeerReads(c: Crypto, k: Keys, rs: seq<Rec>, closed: bool)
    requires OpenUndoesSeal(c) && |k.iv| == NONCE_LEN && Orderly(rs, closed)
    ensures ReadTls(c, k, SealList(c, k, rs).1)
         == Parsed(DataOf(rs, closed), SealList(c, k, rs).0, [], if closed then Closed else Open)
  {
    if closed {
      var (front, r) := (rs[..|rs| - 1], rs[|rs| - 1]);
      assert rs == front + [r];
      PeerReadsData(c, k, front);
      var (k1, wire) := SealList(c, k, front);
      SealListSnoc(c, k, front, r);
      ReadSealed(c, k1, r);
      hide ReadTls, SealList, SealRecord, Texts, NextKeys, OpenUndoesSeal;
      var record := SealRecord(c, k1, r.kind, r.text, 0);
      ReadMore(c, k, wire, record);
      assert [] + record == record && Texts(front) + [] == Texts(front);
    } else {
      PeerReadsData(c, k, rs);
    }
  }

  // ----- the writing half

  function Alerts(rs: seq<Rec>): nat {
    if rs == [] then 0 else Alerts(rs[..|rs| - 1]) + if rs[|rs| - 1].kind == ALERT then 1 else 0
  }

  lemma AlertsSnoc(rs: seq<Rec>, r: Rec)
    ensures Alerts(rs + [r]) == Alerts(rs) + if r.kind == ALERT then 1 else 0
  {
    assert (rs + [r])[..|rs + [r]| - 1] == rs;
  }

  datatype Flush = Flushed | Stalled | Broken
  datatype WriteResult = Ready(n: nat) | Pending | Error

  class TlsWriter {
    const c: Crypto
    const steady: bool               // the transport neither stalls nor fails
    ghost const keys0: Keys
    var keys: Keys
    var writeBuf: bytes
    var writePos: nat
    var closeSent: bool
    ghost var wire: bytes            // what the transport has taken
    ghost var records: seq<Rec>      // what was sealed
    ghost var accepted: bytes        // the bytes whose writes were reported as accepted
    ghost var timely: seq<Rec>       // the records up to the close_notify
    ghost var inTime: bytes          // the bytes accepted before the close_notify

    /** The wire and what is still buffered are the sealed records, in order. */
    ghost predicate Valid()
      reads this
    {
      && |keys0.iv| == NONCE_LEN && writePos <= |writeBuf|
      && keys == SealList(c, keys0, records).0
      && wire + writeBuf[writePos..] == SealList(c, keys0, records).1
      && Alerts(records) == (if closeSent then 1 else 0)
      && timely <= records && Orderly(timely, closeSent) && DataOf(timely, closeSent) == inTime <= accepted
      && (!closeSent ==> timely == records && inTime == accepted)
    }

    constructor (c: Crypto, steady: bool, keys: Keys)
      requires |keys.iv| == NONCE_LEN
      ensures this.steady == steady
      ensures Valid() && this.c == c && keys0 == keys && wire == [] && records == [] && accepted == [] && !closeSent
    {
      this.c, this.steady, keys0, this.keys := c, steady, keys, keys;
      writeBuf, writePos, closeSent, wire, records, accepted, timely, inTime := [], 0, false, [], [], [], [], [];
    }

    /** The transport takes any part of what it is offered, stalls, or fails; taking nothing counts as failing. */
    method PollFlushPending() returns (r: Flush)
      requires Valid()
      modifies `writeBuf, `writePos, `wire
      ensures Valid() && old(wire) <= wire
      ensures r == Flushed ==> writeBuf == [] && wire == SealList(c, keys0, records).1
      ensures steady ==> r == Flushed
    {
      hide SealList, Orderly, Alerts;
      while writePos < |writeBuf|
        invariant Valid() && old(wire) <= wire
        decreases |writeBuf| - writePos
      {
        var stalled: bool, broken: bool := *, *;
        if stalled && !steady {
          return Stalled;
        }
        if broken && !steady {
          return Broken;
        }
        var n: nat := 1;
        n :| 0 <= n <= |writeBuf| - writePos && (steady ==> n > 0);
        if n == 0 {
          return Broken;
        }
        ghost var total := wire + writeBuf[writePos..];
        wire := wire + writeBuf[writePos..writePos + n];
        writePos := writePos + n;
        assert wire + writeBuf[writePos..] == total;
      }
      assert wire + writeBuf[writePos..] == wire;
      writeBuf, writePos := [], 0;
      r := Flushed;
    }

    /** Seals one record into the empty buffer. */
    method SealNext(kind: byte, text: bytes)
      requires Valid() && writeBuf == []
               && (Sendable(Rec(kind, text)) || (Rec(kind, text) == Rec(ALERT, CLOSE_NOTIFY) && !closeSent))
      modifies `keys, `writeBuf, `writePos, `closeSent, `records, `accepted, `timely, `inTime
      ensures Valid() && records == old(records) + [Rec(kind, text)]
      ensures accepted == old(accepted) + if kind == ALERT then [] else text
      ensures closeSent == (old(closeSent) || kind == ALERT) && (closeSent ==> inTime == old(inTime))
    {
      hide SealList, Alerts, SealRecord, Texts, Orderly, DataOf, NextKeys;
      var r := Rec(kind, text);
      SealListSnoc(c, keys0, records, r);
      AlertsSnoc(records, r);
      OrderlySnoc(timely, closeSent, r);
      assert wire + writeBuf[writePos..] == wire;
      writeBuf, writePos := SealRecord(c, keys, kind, text, 0), 0;
      assert writeBuf[writePos..] == writeBuf;
      keys := NextKeys(keys);
      if !closeSent {
        timely := timely + [r];
        inTime := inTime + if kind == ALERT then [] else text;
      }
      closeSent := closeSent || kind == ALERT;
      records := records + [r];
      accepted := accepted + if kind == ALERT then [] else text;
    }

    /** Accepts at most 16 KiB, as one record, once everything older has been taken; what becomes of the
        record's own flush is not reported. */
    method PollWrite(buf: bytes) returns (r: WriteResult)
      requires Valid()
      modifies this
      ensures Valid() && old(wire) <= wire && closeSent == old(closeSent)
      ensures r.Ready? ==> r.n == Min(|buf|, 16384)
      ensures records == if r.Ready? && r.n > 0 then old(records) + [Rec(APPLICATION_DATA, buf[..r.n])]
              else old(records)
      ensures accepted == old(accepted) + if r.Ready? then buf[..r.n] else []
      ensures closeSent ==> inTime == old(inTime)
      ensures steady ==> r.Ready? && wire == SealList(c, keys0, records).1
    {
      hide SealList, Orderly, Alerts;
      var flush := PollFlushPending();
      if flush == Stalled {
        return Pending;
      }
      if flush == Broken {
        return Error;
      }
      if buf == [] {
        return Ready(0);
      }
      var n := Min(|buf|, MAX_APP_PLAINTEXT);
      SealNext(APPLICATION_DATA, buf[..n]);
      var _ := PollFlushPending();
      r := Ready(n);
    }

    method PollShutdown() returns (r: WriteResult)
      requires Valid()
      modifies this
      ensures Valid() && old(wire) <= wire && accepted == old(accepted) && inTime == old(inTime)
      ensures records == if closeSent && !old(closeSent) then old(records) + [Rec(ALERT, CLOSE_NOTIFY)]
              else old(records)
      ensures r.Ready? ==> closeSent && wire == SealList(c, keys0, records).1
      ensures steady ==> r.Ready?
    {
      hide SealList, Orderly, Alerts;
      var flush := PollFlushPending();
      if flush == Stalled {
        return Pending;
      }
      if flush == Broken {
        return Error;
      }
      if !closeSent {
        SealNext(ALERT, CLOSE_NOTIFY);
        flush := PollFlushPending();
        if flush == Stalled {
          return Pending;
        }
        if flush == Broken {
          return Error;
        }
      }
      var stalled: bool, broken: bool := *, *;    // the transport's own flush and shutdown
      r := if steady then Ready(0) else if stalled then Pending else if broken then Error else Ready(0);
    }

    method PollFlush() returns (r: WriteResult)
      requires Valid()
      modifies `writeBuf, `writePos, `wire
      ensures Valid() && old(wire) <= wire
      ensures r.Ready? ==> wire == SealList(c, keys0, records).1
      ensures steady ==> r.Ready?
    {
      hide SealList, Orderly, Alerts;
      var flush := PollFlushPending();
      if flush == Stalled {
        return Pending;
      }
      if flush == Broken {
        return Error;
      }
      var stalled: bool, broken: bool := *, *;    // the transport's own flush
      r := if steady then Ready(0) else if stalled then Pending else if broken then Error else Ready(0);
    }

    /** At any moment a peer reads, without error, a prefix of the bytes accepted before the close_notify;
        once everything is flushed it reads all of them, and the end of the stream exactly if a
        close_notify was sent. What was accepted later stays behind the close_notify. */
    lemma PeerSeesPrefix()
      requires Valid() && OpenUndoesSeal(c)
      ensures var q := ReadTls(c, keys0, wire);
              && q.status != Failed && q.plain <= inTime
              && (wire == SealList(c, keys0, records).1 ==>
                    q.plain == inTime && (q.status == Closed <==> closeSent) && (!closeSent ==> q.rest == [])
                    && q.rest == SealList(c, SealList(c, keys0, timely).0, records[|timely|..]).1)
    {
      hide ReadTls, SealList, Orderly, OpenUndoesSeal, DataOf, Alerts;
      PeerReads(c, keys0, timely, closeSent);
      var rest := records[|timely|..];
      assert timely + rest == records;
      SealListJoin(c, keys0, timely, rest);
      var (k, early) := SealList(c, keys0, timely);
      var late := SealList(c, k, rest).1;
      if !closeSent {
        assert rest == [];
        SealNothing(c, k);
      }
      ReadMore(c, keys0, early, late);
      assert [] + late == late && early + [] == early;
      ReadPrefix(c, keys0, wire, writeBuf[writePos..]);
    }
  }

  // ----- the reading half

  /** Having handed out `out`, keys k and buffer enc still produce the rest of what was received. */
  ghost predicate Caught(c: Crypto, k0: Keys, received: bytes, out: bytes, k: Keys, enc: bytes) {
    |k0.iv| == NONCE_LEN && |k.iv| == NONCE_LEN
    && var q := ReadTls(c, k, enc);
       ReadTls(c, k0, received) == q.(plain := out + q.plain)
  }

  lemma CaughtStart(c: Crypto, k: Keys)
    requires |k.iv| == NONCE_LEN
    ensures Caught(c, k, [], [], k, [])
  {
  }

  lemma CaughtOpen(c: Crypto, k0: Keys, received: bytes, out: bytes, k: Keys, enc: bytes)
    requires Caught(c, k0, received, out, k, enc) && !Waiting(enc) && U16(enc[3], enc[4]) <= MAX_TLS_RECORD
    ensures var n := 5 + U16(enc[3], enc[4]);
            var (k', r) := OpenRecord(c, k, enc[..n]);
            if r.Some? && r.value.0 == APPLICATION_DATA then Caught(c, k0, received, out + r.value.1, k', enc[n..])
            else ReadTls(c, k0, received)
                 == Parsed(out, k', enc[n..], if r.Some? && r.value.0 == ALERT then Closed else Failed)
  {
    ReadOne(c, k, enc);
    hide ReadTls, OpenRecord;
    var n := 5 + U16(enc[3], enc[4]);
    var (k', r) := OpenRecord(c, k, enc[..n]);
    if r.Some? && r.value.0 == APPLICATION_DATA {
      var q := ReadTls(c, k', enc[n..]);
      assert out + (r.value.1 + q.plain) == out + r.value.1 + q.plain;
    } else {
      assert out + [] == out;
    }
  }

  lemma CaughtWaiting(c: Crypto, k0: Keys, received: bytes, out: bytes, k: Keys, enc: bytes)
    requires Caught(c, k0, received, out, k, enc) && Waiting(enc)
    ensures ReadTls(c, k0, received) == Parsed(out, k, enc, Open)
  {
    ReadWaiting(c, k, enc);
    hide ReadTls;
    assert out + [] == out;
  }

  lemma CaughtMore(c: Crypto, k0: Keys, received: bytes, out: bytes, k: Keys, enc: bytes, x: bytes)
    requires Caught(c, k0, received, out, k, enc) && Waiting(enc)
    ensures Caught(c, k0, received + x, out, k, enc + x)
  {
    CaughtWaiting(c, k0, received, out, k, enc);
    hide ReadTls;
    ReadMore(c, k0, received, x);
  }

  datatype ReadError = InvalidData | UnexpectedEof | Transport
  datatype ReadResult = Data(data: bytes) | NotYet | Fault(kind: ReadError)

  class TlsReader {
    const c: Crypto
    const steady: bool               // the transport neither stalls nor fails
    ghost var keys0: Keys
    ghost var wire: bytes            // everything the transport gives before it ends
    ghost var delivered: bytes
    var source: bytes                // the part of the wire still to come
    var keys: Keys
    var encrypted: bytes
    var plaintext: bytes
    var expected: Option<nat>

    ghost predicate Valid()
      reads this
    {
      && |source| <= |wire| && source == wire[|wire| - |source|..]
      && Caught(c, keys0, wire[..|wire| - |source|], delivered + plaintext, keys, encrypted)
      && (expected.Some? ==>
            |encrypted| >= 5 && expected.value == U16(encrypted[3], encrypted[4]) && expected.value <= MAX_TLS_RECORD)
    }

    /** The meaning of the whole wire. */
    ghost function Whole(): Parsed
      reads this
      requires |keys0.iv| == NONCE_LEN
    {
      ReadTls(c, keys0, wire)
    }

    /** The reader has met an alert or a failure: it stands behind what it has read, with the keys for the rest. */
    ghost predicate Stopped()
      reads this
      requires |keys0.iv| == NONCE_LEN
    {
      && Whole().status != Open && plaintext == [] && expected == None && |keys.iv| == NONCE_LEN
      && delivered == Whole().plain && keys == Whole().keys && encrypted + source == Whole().rest
    }

    constructor (c: Crypto, steady: bool, keys: Keys, wire: bytes)
      requires |keys.iv| == NONCE_LEN
      ensures Valid() && delivered == [] && this.steady == steady
      ensures this.c == c && keys0 == keys && this.wire == wire && source == wire
    {
      this.c, this.steady, keys0, this.keys, this.wire, source := c, steady, keys, keys, wire, wire;
      delivered, encrypted, plaintext, expected := [], [], [], None;
      new;
      CaughtStart(c, keys);
    }

    /** A stopped reader goes on as a new reader of the rest of the wire would. */
    ghost method Resume()
      requires |keys0.iv| == NONCE_LEN && Stopped()
      modifies `keys0, `wire, `delivered
      ensures Valid() && delivered == [] && keys0 == old(Whole().keys) && wire == old(Whole().rest)
    {
      hide ReadTls;
      keys0, wire, delivered := keys, encrypted + source, [];
      assert wire[..|wire| - |source|] == encrypted && wire[|wire| - |source|..] == source;
      var q := ReadTls(c, keys, encrypted);
      assert [] + plaintext + q.plain == q.plain;
    }

    /** What was received is a prefix of the wire. */
    lemma ReceivedIsPrefix()
      requires Valid()
      ensures var q := ReadTls(c, keys0, wire[..|wire| - |source|]);
              && q.plain <= Whole().plain
              && (q.status == Failed ==> Whole().status == Failed)
              && (q.status == Closed ==> Whole().status == Closed && Whole().plain == q.plain)
              && (q.status != Open ==> Whole() == q.(rest := q.rest + source))
              && (source == [] ==> q == Whole())
    {
      var n := |wire| - |source|;
      hide ReadTls;
      ReadMore(c, keys0, wire[..n], wire[n..]);
      ReadPrefix(c, keys0, wire[..n], wire[n..]);
      assert wire[..n] + wire[n..] == wire;
      assert source == [] ==> wire[..n] == wire;
    }

    lemma HandedOut()
      requires Valid()
      ensures |keys0.iv| == NONCE_LEN && delivered + plaintext <= Whole().plain
      ensures |encrypted| >= 5 && U16(encrypted[3], encrypted[4]) > MAX_TLS_RECORD ==> Whole().status == Failed
    {
      ReceivedIsPrefix();
    }

    lemma TooLong()
      requires Valid() && plaintext == [] && expected == None
      requires |encrypted| >= 5 && U16(encrypted[3], encrypted[4]) > MAX_TLS_RECORD
      ensures |keys0.iv| == NONCE_LEN && Stopped() && Whole().status == Failed
    {
      hide ReadTls;
      ReadOne(c, keys, encrypted);
      ReceivedIsPrefix();
      assert delivered + plaintext + [] == delivered;
    }

    /** Takes n more bytes from the transport. */
    method Receive(n: nat)
      requires Valid() && 1 <= n <= |source| && Waiting(encrypted)
      modifies `source, `encrypted
      ensures Valid() && |source| == old(|source|) - n
    {
      hide Caught;
      ghost var taken := |wire| - |source|;
      CaughtMore(c, keys0, wire[..taken], delivered + plaintext, keys, encrypted, source[..n]);
      assert wire[..taken] + source[..n] == wire[..taken + n];
      encrypted := encrypted + source[..n];
      source := source[n..];
    }

    method HandOut(room: nat) returns (data: bytes)
      requires Valid() && plaintext != []
      modifies `plaintext, `delivered
      ensures data == old(plaintext)[..Min(|old(plaintext)|, room)]
      ensures Valid() && |data| <= room && delivered == old(delivered) + data <= old(delivered + plaintext)
      ensures room > 0 ==> data != []
    {
      hide Caught, U16;
      var n := Min(|plaintext|, room);
      data := plaintext[..n];
      ghost var handed := delivered + plaintext;
      plaintext := plaintext[n..];
      delivered := delivered + data;
      assert delivered + plaintext == handed && delivered <= handed;
    }

    /** Opens the complete record at the front of the buffer. */
    method OpenNext() returns (r: Option<ReadResult>)
      requires Valid() && plaintext == [] && expected.Some? && |encrypted| >= 5 + expected.value
      modifies `keys, `encrypted, `plaintext, `expected
      ensures r.None? ==> Valid() && |encrypted| < old(|encrypted|)
      ensures |keys0.iv| == NONCE_LEN
      ensures r.Some? ==> plaintext == [] && Stopped() && (r.value == Data([]) || r.value == Fault(InvalidData))
      ensures r == Some(Data([])) ==> Whole().status == Closed && delivered == Whole().plain
      ensures r == Some(Fault(InvalidData)) ==> Whole().status == Failed
    {
      hide ReadTls, OpenRecord;
      var end := 5 + expected.value;
      assert delivered + plaintext == delivered && |keys0.iv| == NONCE_LEN;
      OpenKeepsIv(c, keys, encrypted[..end]);
      CaughtOpen(c, keys0, wire[..|wire| - |source|], delivered, keys, encrypted);
      ReceivedIsPrefix();
      hide Caught;
      var (k, found) := OpenRecord(c, keys, encrypted[..end]);
      keys, expected := k, None;
      encrypted := encrypted[end..];
      if found.None? {
        return Some(Fault(InvalidData));
      }
      if found.value.0 == APPLICATION_DATA {
        plaintext := found.value.1;
        return None;
      }
      r := Some(if found.value.0 == ALERT then Data([]) else Fault(InvalidData));
    }

    /** One read from the transport, which may stall, fail, end, or give any part of what is left. */
    method Fill() returns (r: Option<ReadResult>)
      requires Valid() && plaintext == [] && Waiting(encrypted)
      modifies `source, `encrypted
      ensures Valid() && |keys0.iv| == NONCE_LEN
      ensures r.None? ==> |source| < old(|source|)
      ensures r.Some? ==> r.value != Fault(InvalidData) && (r.value.Data? ==> r.value.data == [])
      ensures r == Some(Data([])) ==> source == [] && Whole() == Parsed(delivered, keys, [], Open)
      ensures r == Some(Fault(UnexpectedEof)) ==>
                source == [] && encrypted != [] && Whole() == Parsed(delivered, keys, encrypted, Open)
      ensures r == Some(NotYet) || r == Some(Fault(Transport)) ==>
                !steady && ReadTls(c, keys0, wire[..|wire| - |source|]) == Parsed(delivered, keys, encrypted, Open)
    {
      hide Caught, ReadTls;
      HandedOut();
      assert delivered + plaintext == delivered;
      CaughtWaiting(c, keys0, wire[..|wire| - |source|], delivered, keys, encrypted);
      var stalled: bool, broken: bool := *, *;
      if stalled && !steady {
        return Some(NotYet);
      }
      if broken && !steady {
        return Some(Fault(Transport));
      }
      if source == [] {
        ReceivedIsPrefix();
        return Some(if encrypted == [] then Data([]) else Fault(UnexpectedEof));
      }
      var n := 1;
      n :| 1 <= n <= |source| && n <= 8192;
      Receive(n);
      r := None;
    }

    /**
      One poll with a buffer of `room` bytes. Data is the next part of the meaning of the wire. An
      empty result into a non-empty buffer is the close_notify, or the end of the wire exactly at a
      record boundary; an end-of-file error is the end of the wire inside a record. What is already
      decrypted is handed out at once, and when the transport stalls or fails everything received has
      been.
    */
    method PollRead(room: nat) returns (r: ReadResult)
      requires Valid()
      modifies `delivered, `source, `keys, `encrypted, `plaintext, `expected
      ensures |keys0.iv| == NONCE_LEN
      ensures Valid() || (Stopped() && (r == Data([]) || r == Fault(InvalidData)))
      ensures r == Fault(InvalidData) || (r == Data([]) && room > 0 && Whole().status == Closed) ==> Stopped()
      ensures r.Data? ==> |r.data| <= room && delivered == old(delivered) + r.data <= Whole().plain
      ensures !r.Data? ==> delivered == old(delivered)
      ensures r == Data([]) && room > 0 ==>
                delivered == Whole().plain
                && (Whole().status == Closed || (source == [] && Whole() == Parsed(delivered, keys, [], Open)))
      ensures r == Fault(UnexpectedEof) ==>
                source == [] && encrypted != [] && Whole() == Parsed(delivered, keys, encrypted, Open)
      ensures r == Fault(InvalidData) ==> Whole().status == Failed
      ensures old(plaintext) != [] ==> r == Data(old(plaintext)[..Min(|old(plaintext)|, room)])
      ensures !r.Data? ==> plaintext == []
      ensures r == NotYet || r == Fault(Transport) ==>
                !steady && Valid()
                && ReadTls(c, keys0, wire[..|wire| - |source|]) == Parsed(delivered, keys, encrypted, Open)
    {
      hide Caught, ReadTls, U16, Stopped;
      HandedOut();
      while true
        invariant Valid() && delivered == old(delivered)
        invariant old(plaintext) != [] ==> plaintext == old(plaintext)
        decreases |source|, |encrypted|
      {
        HandedOut();
        if plaintext != [] {
          var data := HandOut(room);
          return Data(data);
        }
        if expected.None? && |encrypted| >= 5 {
          var length := U16(encrypted[3], encrypted[4]);
          if length > MAX_TLS_RECORD {
            TooLong();
            return Fault(InvalidData);
          }
          expected := Some(length);
        }
        var step: Option<ReadResult> := None;
        if expected.Some? && |encrypted| >= 5 + expected.value {
          step := OpenNext();
        } else {
          step := Fill();
        }
        if step.Some? {
          assert delivered + [] == delivered;
          return step.value;
        }
      }
    }
  }

  /** A peer with any sequence of non-empty buffers, on any prefix of what a writer has sent; it stops at the first
      empty read. Over a transport that neither stalls nor fails, with more buffers than bytes, it gets to an end. */
  method ReadPeer(w: TlsWriter, steady: bool, keys: Keys, wire: bytes, rooms: seq<nat>)
      returns (out: bytes, last: ReadResult)
    requires w.Valid() && OpenUndoesSeal(w.c) && keys == w.keys0 && wire <= w.wire
    requires forall n | n in rooms :: n > 0
    ensures out <= w.inTime && last != Fault(InvalidData)
    ensures last == Data([]) && wire == SealList(w.c, keys, w.records).1 ==> out == w.inTime
    ensures last == Fault(UnexpectedEof) ==> wire != SealList(w.c, keys, w.records).1
    ensures last == Data([]) || last == Fault(UnexpectedEof) ==>
              var q := ReadTls(w.c, keys, wire);
              out == q.plain && (last == Data([]) <==> q.status == Closed || q.rest == [])
    ensures steady && |rooms| > |ReadTls(w.c, keys, wire).plain| ==> last == Data([]) || last == Fault(UnexpectedEof)
  {
    hide ReadTls, SealList, OpenUndoesSeal, Orderly, DataOf, Caught, Alerts;
    w.PeerSeesPrefix();
    ghost var tail := w.wire[|wire|..];
    assert w.wire == wire + tail;
    ReadPrefix(w.c, keys, wire, tail);
    assert wire == SealList(w.c, keys, w.records).1 ==> wire == w.wire;
    ghost var inTime := w.inTime;
    assert |keys.iv| == NONCE_LEN && ReadTls(w.c, keys, wire).plain <= inTime;
    var reader := new TlsReader(w.c, steady, keys, wire);
    out, last := [], NotYet;
    for i := 0 to |rooms|
      invariant reader.Valid() && reader.keys0 == keys && reader.wire == wire
      invariant reader.delivered == out <= ReadTls(w.c, keys, wire).plain && (steady ==> |out| >= i)
      invariant (last.Data? || last.NotYet?) && last != Data([])
    {
      assert rooms[i] in rooms;
      last := reader.PollRead(rooms[i]);
      if last.Fault? {
        assert last.kind == InvalidData || last.kind == UnexpectedEof || last.kind == Transport;
        return;
      }
      if last.Data? {
        out := out + last.data;
        if last.data == [] {
          assert last == Data([]) && out == reader.delivered;
          return;
        }
      }
    }
  }
}
