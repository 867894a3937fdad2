/**
  The uplink of a session: packets arrive in any order, with duplicates, and leave as one byte
  stream in sequence order. `Push` is the value-level step; the class `Uplink` holds the pending
  map, the counters, the bounded channel and the chunk a reader has half consumed.
*/
module Reorder {
  import opened Bytes
  import opened Sums

  datatype PushResult =
    | Accepted | Duplicate | TooManyPending | TooManyPendingBytes | GlobalBufferExceeded | Closed

  /** Bounds of the out-of-order buffer; zero bytes means no byte bound. */
  datatype Limits = Limits(maxPackets: nat, maxBytes: nat)

  /** `sent` is every byte ever handed to the channel; `open` says whether a send still succeeds. */
  datatype Sink = Sink(nextSeq: nat, exhausted: bool, pending: map<nat, bytes>, sent: bytes,
                       pendingBytes: nat, pendingCount: nat, open: bool)

  const EMPTY := Sink(0, false, map[], [], 0, 0, true)

  /** The 64-bit wrapping subtraction of the atomic counters. */
  function WrapSub(a: nat, b: nat): nat {
    if b <= a then a - b else (a - b) % (U64_MAX + 1)
  }

  /** Hands one payload to the channel; an empty payload always succeeds and leaves no trace. */
  function Send(s: Sink, p: bytes): (Sink, bool) {
    if p == [] then (s, true) else if s.open then (s.(sent := s.sent + p), true) else (s, false)
  }

  function TakeNext(s: Sink): Sink
    requires s.nextSeq in s.pending
  {
    s.(pending := s.pending - {s.nextSeq},
       pendingBytes := WrapSub(s.pendingBytes, |s.pending[s.nextSeq]|),
       pendingCount := WrapSub(s.pendingCount, 1))
  }

  /** After a delivery: one further, or the end of the 64-bit number space. */
  function Advance(s: Sink): Sink {
    if s.nextSeq == U64_MAX then s.(exhausted := true) else s.(nextSeq := s.nextSeq + 1)
  }

  /** Delivers the contiguous followers that are already pending. */
  function Drain(s: Sink): (Sink, PushResult)
    decreases |s.pending|
  {
    if s.exhausted || s.nextSeq !in s.pending then (s, Accepted)
    else
      var (s', ok) := Send(TakeNext(s), s.pending[s.nextSeq]);
      if !ok then (s', Closed) else Drain(Advance(s'))
  }

  /** One packet; `granted` is the answer of the global byte budget. */
  function Push(l: Limits, s: Sink, seqNo: nat, payload: bytes, granted: bool): (Sink, PushResult) {
    if s.exhausted || seqNo < s.nextSeq then (s, Duplicate)
    else if seqNo > s.nextSeq then
      if seqNo in s.pending then (s, Duplicate)
      else if |s.pending| >= l.maxPackets then (s, TooManyPending)
      else if s.pendingBytes + |payload| > U64_MAX then (s, TooManyPendingBytes)
      else if l.maxBytes != 0 && s.pendingBytes + |payload| > l.maxBytes then (s, TooManyPendingBytes)
      else if !granted then (s, GlobalBufferExceeded)
      else (s.(pending := s.pending[seqNo := payload], pendingBytes := s.pendingBytes + |payload|,
               pendingCount := s.pendingCount + 1), Accepted)
    else if !granted then (s, GlobalBufferExceeded)
    else
      var (s', ok) := Send(s, payload);
      if !ok then (s', Closed) else Drain(Advance(s'))
  }

  // ----- the byte sum of the pending map

  ghost function SumLen(m: map<nat, bytes>): nat { SumBy(m, (p: bytes) => |p|) }

  // ----- what every push keeps

  /** In the middle of a drain the next packet may still be pending. */
  ghost predicate Sound(l: Limits, s: Sink) {
    && s.nextSeq <= U64_MAX
    && (s.exhausted ==> s.nextSeq == U64_MAX && s.pending == map[])
    && (forall k | k in s.pending :: s.nextSeq <= k <= U64_MAX)
    && |s.pending| <= l.maxPackets
    && |s.pending| <= s.pendingCount
    && SumLen(s.pending) <= s.pendingBytes <= U64_MAX
  }

  /** Between pushes: sound, and every pending packet is strictly ahead. */
  ghost predicate Settled(l: Limits, s: Sink) { Sound(l, s) && s.nextSeq !in s.pending }

  /** The counters are exact and within the limits. */
  ghost predicate Exact(l: Limits, s: Sink) {
    && s.pendingCount == |s.pending| <= l.maxPackets
    && s.pendingBytes == SumLen(s.pending)
    && (l.maxBytes != 0 ==> s.pendingBytes <= l.maxBytes)
  }

  /** Neither counter underflows when a pending packet is taken out. */
  lemma TakeNextSound(l: Limits, s: Sink)
    requires Sound(l, s) && s.nextSeq in s.pending
    ensures 1 <= s.pendingCount && |s.pending[s.nextSeq]| <= s.pendingBytes
    ensures Settled(l, TakeNext(s)) && !s.exhausted && |TakeNext(s).pending| < |s.pending|
    ensures Exact(l, s) ==> Exact(l, TakeNext(s))
  {
    SumByRemove(s.pending, (p: bytes) => |p|, s.nextSeq);
    assert |s.pending - {s.nextSeq}| == |s.pending| - 1 by {
      assert (s.pending - {s.nextSeq}).Keys == s.pending.Keys - {s.nextSeq};
      assert |s.pending.Keys| == |s.pending|;
    }
  }

  lemma AdvanceSound(l: Limits, s: Sink)
    requires Settled(l, s) && !s.exhausted
    ensures Sound(l, Advance(s))
  {
    if s.nextSeq == U64_MAX {
      assert s.pending == map[] by { assert forall k | k in s.pending :: k == s.nextSeq; }
    }
  }

  lemma {:induction false} DrainSettles(l: Limits, s: Sink)
    requires Sound(l, s)
    ensures Settled(l, Drain(s).0)
    ensures Exact(l, s) ==> Exact(l, Drain(s).0)
    ensures s.open ==> Drain(s).1 == Accepted
    decreases |s.pending|
  {
    hide Exact, Sound;
    if !s.exhausted && s.nextSeq in s.pending {
      TakeNextSound(l, s);
      var (s', ok) := Send(TakeNext(s), s.pending[s.nextSeq]);
      SoundFrame(l, TakeNext(s), s');
      if ok {
        AdvanceSound(l, s');
        AdvanceExact(l, s');
        DrainSettles(l, Advance(s'));
      }
    } else if s.exhausted {
      ExhaustedSettled(l, s);
    }
  }

  lemma DrainStep(s: Sink)
    requires !s.exhausted && s.nextSeq in s.pending
    ensures var (s', ok) := Send(TakeNext(s), s.pending[s.nextSeq]);
            Drain(s) == if ok then Drain(Advance(s')) else (s', Closed)
  {
  }

  lemma DrainDone(s: Sink)
    requires s.exhausted || s.nextSeq !in s.pending
    ensures Drain(s) == (s, Accepted)
  {
  }

  lemma AdvanceSends(s: Sink)
    ensures Advance(s).sent == s.sent
  {
  }

  /** A drain only adds to what was sent. */
  lemma {:induction false} DrainExtends(s: Sink)
    ensures s.sent <= Drain(s).0.sent
    decreases |s.pending|
  {
    hide TakeNext;
    if s.exhausted || s.nextSeq !in s.pending {
    } else {
      var (s', ok) := Send(TakeNext(s), s.pending[s.nextSeq]);
      TakeNextSmaller(s);
      if ok {
        DrainExtends(Advance(s'));
      }
    }
  }

  lemma TakeNextSmaller(s: Sink)
    requires s.nextSeq in s.pending
    ensures |TakeNext(s).pending| < |s.pending| && TakeNext(s).sent == s.sent && TakeNext(s).open == s.open
  {
    assert (s.pending - {s.nextSeq}).Keys == s.pending.Keys - {s.nextSeq};
    assert |s.pending.Keys| == |s.pending|;
  }

  lemma PushExtends(s: Sink, p: bytes)
    ensures s.sent <= Drain(Advance(Send(s, p).0)).0.sent
  {
    hide Drain;
    DrainExtends(Advance(Send(s, p).0));
  }

  lemma ExhaustedSettled(l: Limits, s: Sink)
    requires Sound(l, s) && s.exhausted
    ensures Settled(l, s)
  {
  }

  lemma AdvanceExact(l: Limits, s: Sink)
    ensures Exact(l, s) <==> Exact(l, Advance(s))
  {
  }

  /** Soundness does not look at what was sent, nor at whether sends succeed. */
  lemma SoundFrame(l: Limits, s: Sink, s': Sink)
    requires s' == s.(sent := s'.sent, open := s'.open)
    ensures Sound(l, s) <==> Sound(l, s')
    ensures Exact(l, s) <==> Exact(l, s')
  {
  }

  lemma InsertSettles(l: Limits, s: Sink, seqNo: nat, payload: bytes)
    requires Settled(l, s) && s.nextSeq < seqNo <= U64_MAX && seqNo !in s.pending && !s.exhausted
    requires |s.pending| < l.maxPackets && s.pendingBytes + |payload| <= U64_MAX
    requires l.maxBytes == 0 || s.pendingBytes + |payload| <= l.maxBytes
    ensures var s' := s.(pending := s.pending[seqNo := payload], pendingBytes := s.pendingBytes + |payload|,
                         pendingCount := s.pendingCount + 1);
            Settled(l, s') && (Exact(l, s) ==> Exact(l, s'))
  {
    SumByInsert(s.pending, (p: bytes) => |p|, seqNo, payload);
    assert |s.pending[seqNo := payload]| == |s.pending| + 1 by {
      assert s.pending[seqNo := payload].Keys == s.pending.Keys + {seqNo};
    }
  }

  /** Every push, whatever its outcome, keeps pending ahead of nextSeq, the counters and the bounds. */
  lemma PushSettles(l: Limits, s: Sink, seqNo: nat, payload: bytes, granted: bool)
    requires Settled(l, s) && seqNo <= U64_MAX
    ensures Settled(l, Push(l, s, seqNo, payload, granted).0)
    ensures Exact(l, s) ==> Exact(l, Push(l, s, seqNo, payload, granted).0)
  {
    hide Sound, Exact, Drain, Advance;
    if s.exhausted || seqNo < s.nextSeq || !granted {
    } else if seqNo > s.nextSeq {
      if seqNo !in s.pending && |s.pending| < l.maxPackets && s.pendingBytes + |payload| <= U64_MAX
         && (l.maxBytes == 0 || s.pendingBytes + |payload| <= l.maxBytes) {
        InsertSettles(l, s, seqNo, payload);
      }
    } else {
      var (s', ok) := Send(s, payload);
      SoundFrame(l, s, s');
      if ok {
        AdvanceSound(l, s');
        AdvanceExact(l, s');
        DrainSettles(l, Advance(s'));
      }
    }
  }

  datatype Event = Arrive(packet: Packet) | CloseSink | DropReader

  function Handle(l: Limits, s: Sink, e: Event): Sink {
    match e
    case Arrive(p) => Push(l, s, p.seqNo, p.payload, p.granted).0
    case CloseSink => s.(pending := map[], open := false)
    case DropReader => s.(open := false)
  }

  function HandleAll(l: Limits, s: Sink, es: seq<Event>): Sink
    decreases es
  {
    if es == [] then s else HandleAll(l, Handle(l, s, es[0]), es[1..])
  }

  /** Over every run the counters cover the pending map, so no subtraction underflows; without a close they are
      exact. */
  lemma {:induction false} CountersOverRuns(l: Limits, s: Sink, es: seq<Event>)
    requires Settled(l, s) && forall e | e in es :: e.Arrive? ==> e.packet.seqNo <= U64_MAX
    ensures Settled(l, HandleAll(l, s, es))
    ensures Exact(l, s) && CloseSink !in es ==> Exact(l, HandleAll(l, s, es))
    decreases es
  {
    if es == [] {
    } else {
      var e := es[0];
      if e.Arrive? {
        PushSettles(l, s, e.packet.seqNo, e.packet.payload, e.packet.granted);
      }
      CountersOverRuns(l, Handle(l, s, e), es[1..]);
    }
  }

  // ----- the stream that a run of pushes delivers

  datatype Packet = Packet(seqNo: nat, payload: bytes, granted: bool)

  /** A sink together with the payload accepted for each sequence number. */
  datatype History = History(sink: Sink, accepted: map<nat, bytes>)

  function Step(l: Limits, h: History, p: Packet): History {
    var (s, r) := Push(l, h.sink, p.seqNo, p.payload, p.granted);
    History(s, if r == Accepted then h.accepted[p.seqNo := p.payload] else h.accepted)
  }

  function Run(l: Limits, h: History, ps: seq<Packet>): History
    decreases ps
  {
    if ps == [] then h else Run(l, Step(l, h, ps[0]), ps[1..])
  }

  /** Sequence numbers below this one have been delivered. */
  function Top(s: Sink): nat { if s.exhausted then U64_MAX + 1 else s.nextSeq }

  /** Concatenation of m[0], m[1], ..., m[n - 1]. */
  function InOrder(m: map<nat, bytes>, n: nat): bytes
    requires forall k | 0 <= k < n :: k in m
  {
    if n == 0 then [] else InOrder(m, n - 1) + m[n - 1]
  }

  lemma {:induction false} InOrderFrame(m: map<nat, bytes>, m': map<nat, bytes>, n: nat)
    requires forall k | 0 <= k < n :: k in m && k in m' && m[k] == m'[k]
    ensures InOrder(m, n) == InOrder(m', n)
  {
    if n == 0 {
    } else {
      InOrderFrame(m, m', n - 1);
    }
  }

  /** What was accepted is either delivered, in order, or pending; nothing else is. */
  ghost predicate Faithful(s: Sink, accepted: map<nat, bytes>) {
    && (forall k :: k in accepted <==> 0 <= k < Top(s) || k in s.pending)
    && (forall k | k in s.pending :: accepted[k] == s.pending[k])
    && s.sent == InOrder(accepted, Top(s))
  }

  lemma AdvanceFaithful(s: Sink, accepted: map<nat, bytes>, p: bytes)
    requires s.open && !s.exhausted && s.nextSeq <= U64_MAX
    requires s.nextSeq !in s.pending && s.nextSeq in accepted && accepted[s.nextSeq] == p
    requires Faithful(s, accepted - {s.nextSeq})
    ensures Faithful(Advance(Send(s, p).0), accepted)
  {
    var n := s.nextSeq;
    var before := accepted - {n};
    forall k | 0 <= k < n
      ensures k in before && k in accepted
    {
      assert k in before <==> 0 <= k < Top(s) || k in s.pending;
    }
    InOrderFrame(before, accepted, n);
    assert InOrder(accepted, n + 1) == InOrder(accepted, n) + p;
    var t := Advance(Send(s, p).0);
    assert s.sent + [] == s.sent;
    assert Top(t) == n + 1;
    forall k
      ensures k in accepted <==> 0 <= k < n + 1 || k in t.pending
    {
      assert k != n ==> (k in accepted <==> k in accepted - {n});
    }
    forall k | k in t.pending
      ensures accepted[k] == t.pending[k]
    {
      assert k in accepted - {n};
    }
  }

  lemma {:induction false} DrainFaithful(l: Limits, s: Sink, accepted: map<nat, bytes>)
    requires Sound(l, s) && s.open && Faithful(s, accepted)
    ensures Faithful(Drain(s).0, accepted) && Drain(s).0.open
    decreases |s.pending|
  {
    if !s.exhausted && s.nextSeq in s.pending {
      TakeNextSound(l, s);
      var (t, p) := (TakeNext(s), s.pending[s.nextSeq]);
      TakeNextFaithful(s, accepted);
      AdvanceFaithful(t, accepted, p);
      hide Faithful, Sound;
      var t' := Send(t, p).0;
      SoundFrame(l, t, t');
      AdvanceSound(l, t');
      DrainFaithful(l, Advance(t'), accepted);
    }
  }

  lemma TakeNextFaithful(s: Sink, accepted: map<nat, bytes>)
    requires Faithful(s, accepted) && !s.exhausted && s.nextSeq in s.pending
    ensures s.nextSeq in accepted && accepted[s.nextSeq] == s.pending[s.nextSeq]
    ensures Faithful(TakeNext(s), accepted - {s.nextSeq})
  {
    InOrderFrame(accepted, accepted - {s.nextSeq}, s.nextSeq);
  }

  /** One push on an open sink: the history stays faithful, and an accepted number was never accepted before. */
  lemma StepFaithful(l: Limits, h: History, p: Packet)
    requires Settled(l, h.sink) && h.sink.open && Faithful(h.sink, h.accepted) && p.seqNo <= U64_MAX
    ensures var h' := Step(l, h, p);
            Settled(l, h'.sink) && h'.sink.open && Faithful(h'.sink, h'.accepted)
    ensures Push(l, h.sink, p.seqNo, p.payload, p.granted).1 == Accepted ==> p.seqNo !in h.accepted && p.granted
  {
    PushSettles(l, h.sink, p.seqNo, p.payload, p.granted);
    hide Drain, Sound;
    var s := h.sink;
    var accepted := h.accepted[p.seqNo := p.payload];
    if !s.exhausted && p.seqNo == s.nextSeq && p.granted {
      assert accepted - {s.nextSeq} == h.accepted;
      AdvanceFaithful(s, accepted, p.payload);
      hide Faithful;
      var t := Send(s, p.payload).0;
      SoundFrame(l, s, t);
      AdvanceSound(l, t);
      DrainFaithful(l, Advance(t), accepted);
      DrainSettles(l, Advance(t));
      OwnNumberNew(s, h.accepted);
    } else if Push(l, s, p.seqNo, p.payload, p.granted).1 == Accepted {
      HoldFaithful(s, Push(l, s, p.seqNo, p.payload, p.granted).0, h.accepted, p.seqNo, p.payload);
      hide Faithful;
    }
  }

  /** A packet ahead of its turn is held back: nothing more is sent. */
  lemma HoldFaithful(s: Sink, s': Sink, accepted: map<nat, bytes>, n: nat, p: bytes)
    requires Faithful(s, accepted) && !s.exhausted && n > s.nextSeq && n !in s.pending
    requires s' == s.(pending := s.pending[n := p], pendingBytes := s'.pendingBytes, pendingCount := s'.pendingCount)
    ensures n !in accepted && Faithful(s', accepted[n := p])
  {
    assert n !in accepted;
    InOrderFrame(accepted, accepted[n := p], Top(s));
  }

  lemma OwnNumberNew(s: Sink, accepted: map<nat, bytes>)
    requires Faithful(s, accepted) && !s.exhausted && s.nextSeq !in s.pending
    ensures s.nextSeq !in accepted
  {
  }

  lemma {:induction false} RunFaithful(l: Limits, h: History, ps: seq<Packet>)
    requires Settled(l, h.sink) && h.sink.open && Faithful(h.sink, h.accepted)
    requires forall p | p in ps :: p.seqNo <= U64_MAX
    ensures var h' := Run(l, h, ps);
            Settled(l, h'.sink) && h'.sink.open && Faithful(h'.sink, h'.accepted)
    decreases ps
  {
    if ps == [] {
    } else {
      StepFaithful(l, h, ps[0]);
      RunFaithful(l, Step(l, h, ps[0]), ps[1..]);
    }
  }

  const START := History(EMPTY, map[])

  lemma StartFaithful(l: Limits)
    ensures Settled(l, EMPTY) && Exact(l, EMPTY) && Faithful(EMPTY, map[])
  {
  }

  /**
    Any arrival order, duplicates and empty payloads included: the stream is the concatenation of the
    accepted payloads up to the first number not accepted.
  */
  lemma DeliversInOrder(l: Limits, ps: seq<Packet>)
    requires forall p | p in ps :: p.seqNo <= U64_MAX
    ensures var h := Run(l, START, ps);
            && (forall k | 0 <= k < Top(h.sink) :: k in h.accepted)
            && h.sink.sent == InOrder(h.accepted, Top(h.sink))
            && (h.sink.exhausted || h.sink.nextSeq !in h.accepted)
            && (forall k | k in h.sink.pending :: h.sink.nextSeq < k)
  {
    StartFaithful(l);
    RunFaithful(l, START, ps);
  }

  /** The stream depends only on what was accepted, not on the order or the rejected packets. */
  lemma SameAcceptedSameStream(l: Limits, l': Limits, ps: seq<Packet>, ps': seq<Packet>)
    requires forall p | p in ps + ps' :: p.seqNo <= U64_MAX
    requires Run(l, START, ps).accepted == Run(l', START, ps').accepted
    ensures Run(l, START, ps).sink.sent == Run(l', START, ps').sink.sent
  {
    assert forall p | p in ps :: p in ps + ps';
    assert forall p | p in ps' :: p in ps + ps';
    DeliversInOrder(l, ps);
    DeliversInOrder(l', ps');
    var (a, b) := (Run(l, START, ps), Run(l', START, ps'));
    assert Top(a.sink) == Top(b.sink) by {
      StartFaithful(l);
      StartFaithful(l');
      RunFaithful(l, START, ps);
      RunFaithful(l', START, ps');
      hide Run, InOrder;
      assert a.sink.nextSeq in b.accepted <==> a.sink.nextSeq < Top(b.sink) || a.sink.nextSeq in b.sink.pending;
      assert b.sink.nextSeq in a.accepted <==> b.sink.nextSeq < Top(a.sink) || b.sink.nextSeq in a.sink.pending;
    }
  }

  predicate FullyAccepted(l: Limits, h: History, ps: seq<Packet>)
    decreases ps
  {
    ps != [] ==> Push(l, h.sink, ps[0].seqNo, ps[0].payload, ps[0].granted).1 == Accepted
                 && FullyAccepted(l, Step(l, h, ps[0]), ps[1..])
  }

  /** If all packets are accepted, the accepted map holds exactly the packets. */
  lemma {:induction false} AcceptedIsPackets(l: Limits, h: History, ps: seq<Packet>, k: nat, v: bytes)
    requires Settled(l, h.sink) && h.sink.open && Faithful(h.sink, h.accepted) && FullyAccepted(l, h, ps)
    requires forall p | p in ps :: p.seqNo <= U64_MAX
    ensures var acc := Run(l, h, ps).accepted;
            (k in acc && acc[k] == v) <==> ((k in h.accepted && h.accepted[k] == v) || Packet(k, v, true) in ps)
    ensures k in h.accepted ==> k in Run(l, h, ps).accepted && Run(l, h, ps).accepted[k] == h.accepted[k]
    decreases ps
  {
    if ps == [] {
    } else {
      var p := ps[0];
      StepFaithful(l, h, p);
      hide Faithful, Sound, Push;
      AcceptedIsPackets(l, Step(l, h, p), ps[1..], k, v);
      assert ps == [p] + ps[1..];
      assert Packet(k, v, true) in ps <==> Packet(k, v, true) == p || Packet(k, v, true) in ps[1..];
    }
  }

  /** Two fully accepted arrival orders of the same packets deliver the same stream. */
  lemma ArrivalOrderDoesNotMatter(l: Limits, ps: seq<Packet>, ps': seq<Packet>)
    requires forall p | p in ps :: p.seqNo <= U64_MAX
    requires multiset(ps) == multiset(ps')
    requires FullyAccepted(l, START, ps) && FullyAccepted(l, START, ps')
    ensures Run(l, START, ps).sink.sent == Run(l, START, ps').sink.sent
  {
    assert forall p :: p in ps <==> p in ps' by {
      assert forall p :: p in ps <==> p in multiset(ps);
      assert forall p :: p in ps' <==> p in multiset(ps');
    }
    StartFaithful(l);
    var (a, b) := (Run(l, START, ps).accepted, Run(l, START, ps').accepted);
    hide Run, FullyAccepted, Faithful, Sound;
    forall k | k in a
      ensures k in b && b[k] == a[k]
    {
      AcceptedIsPackets(l, START, ps, k, a[k]);
      AcceptedIsPackets(l, START, ps', k, a[k]);
    }
    forall k | k in b
      ensures k in a
    {
      AcceptedIsPackets(l, START, ps, k, b[k]);
      AcceptedIsPackets(l, START, ps', k, b[k]);
    }
    assert a == b;
    SameAcceptedSameStream(l, l, ps, ps');
  }

  // ----- what is accepted

  /** What was accepted ahead of the first missing number. */
  function Held(accepted: map<nat, bytes>, next: nat): map<nat, bytes> {
    map k | k in accepted && k > next :: accepted[k]
  }

  lemma HeldIsPending(l: Limits, s: Sink, accepted: map<nat, bytes>)
    requires Settled(l, s) && Faithful(s, accepted)
    ensures Held(accepted, Top(s)) == s.pending && Top(s) !in accepted
    ensures forall k | 0 <= k < Top(s) :: k in accepted
  {
  }

  /**
    The outcome of a push on an open sink, from what was accepted before: a number that was accepted is
    a duplicate; the first missing number needs only the grant; a later one needs room among those held,
    a sum of their bytes within 64 bits and the limit, and then the grant.
  */
  lemma PushOutcome(l: Limits, h: History, p: Packet)
    requires Settled(l, h.sink) && Exact(l, h.sink) && h.sink.open && Faithful(h.sink, h.accepted) && p.seqNo <= U64_MAX
    ensures var next := Top(h.sink);
            var held := Held(h.accepted, next);
            var total := SumLen(held) + |p.payload|;
            Push(l, h.sink, p.seqNo, p.payload, p.granted).1 ==
              if p.seqNo in h.accepted then Duplicate
              else if p.seqNo == next then (if p.granted then Accepted else GlobalBufferExceeded)
              else if |held| >= l.maxPackets then TooManyPending
              else if total > U64_MAX || (l.maxBytes != 0 && total > l.maxBytes) then TooManyPendingBytes
              else if p.granted then Accepted
              else GlobalBufferExceeded
  {
    hide Drain;
    HeldIsPending(l, h.sink, h.accepted);
    var s := h.sink;
    if !s.exhausted && p.seqNo == s.nextSeq && p.granted {
      hide Sound;
      var t := Send(s, p.payload).0;
      SoundFrame(l, s, t);
      AdvanceSound(l, t);
      DrainSettles(l, Advance(t));
    }
  }

  /** Once the sender or the reader is gone nothing more is sent, and the next packet with data is refused. */
  lemma PushClosed(l: Limits, s: Sink, p: Packet)
    requires !s.open
    ensures var (s', r) := Push(l, s, p.seqNo, p.payload, p.granted);
            && s'.sent == s.sent
            && (!s.exhausted && p.seqNo == s.nextSeq && p.granted && p.payload != [] ==> r == Closed && s' == s)
  {
    hide Drain;
    DrainClosed(Advance(s));
  }

  /** A packet without data needs no channel: it is counted even then. */
  lemma EmptyCounts(l: Limits, s: Sink, p: Packet)
    requires !s.exhausted && p.seqNo == s.nextSeq && p.granted && p.payload == [] && s.nextSeq + 1 !in s.pending
    ensures var s' := if s.nextSeq == U64_MAX then s.(exhausted := true) else s.(nextSeq := s.nextSeq + 1);
            Push(l, s, p.seqNo, p.payload, p.granted) == (s', Accepted)
  {
    DrainDone(Advance(s));
  }

  /** Once the sink is closed or its reader gone, no later event sends anything. */
  lemma {:induction false} ClosedForever(l: Limits, s: Sink, es: seq<Event>)
    requires !s.open || (es != [] && !es[0].Arrive?)
    ensures HandleAll(l, s, es).sent == s.sent && !HandleAll(l, s, es).open
    decreases es
  {
    hide Push;
    if es == [] {
    } else {
      if es[0].Arrive? {
        PushClosed(l, s, es[0].packet);
        PushKeepsOpen(l, s, es[0].packet);
      }
      ClosedForever(l, Handle(l, s, es[0]), es[1..]);
    }
  }

  lemma PushKeepsOpen(l: Limits, s: Sink, p: Packet)
    ensures Push(l, s, p.seqNo, p.payload, p.granted).0.open == s.open
  {
    hide Drain;
    DrainKeepsOpen(Advance(Send(s, p.payload).0));
  }

  lemma {:induction false} DrainKeepsOpen(s: Sink)
    ensures Drain(s).0.open == s.open
    decreases |s.pending|
  {
    hide TakeNext;
    if s.exhausted || s.nextSeq !in s.pending {
    } else {
      TakeNextSmaller(s);
      var (s', ok) := Send(TakeNext(s), s.pending[s.nextSeq]);
      if ok {
        DrainKeepsOpen(Advance(s'));
      }
    }
  }

  /** A close drops what is pending but not the counters; a run of arrivals is a run of pushes. */
  lemma CloseDropsPending(l: Limits, s: Sink)
    ensures HandleAll(l, s, [CloseSink]) == s.(pending := map[], open := false)
    ensures HandleAll(l, s, [DropReader]) == s.(open := false)
  {
    assert [CloseSink][1..] == [] && [DropReader][1..] == [];
    assert HandleAll(l, Handle(l, s, CloseSink), []) == Handle(l, s, CloseSink);
    assert HandleAll(l, Handle(l, s, DropReader), []) == Handle(l, s, DropReader);
  }

  function Arrivals(ps: seq<Packet>): seq<Event> { if ps == [] then [] else [Arrive(ps[0])] + Arrivals(ps[1..]) }

  lemma {:induction false} ArrivalsAreRun(l: Limits, h: History, ps: seq<Packet>)
    ensures HandleAll(l, h.sink, Arrivals(ps)) == Run(l, h, ps).sink
    decreases ps
  {
    hide Push;
    if ps == [] {
    } else {
      ArrivalsAreRun(l, Step(l, h, ps[0]), ps[1..]);
      assert Arrivals(ps)[1..] == Arrivals(ps[1..]);
    }
  }

  /** The counters are those of 64-bit words: subtracting undoes adding. */
  lemma SubUndoesAdd(a: nat, b: nat)
    requires a <= U64_MAX && b <= U64_MAX
    ensures (WrapSub(a, b) + b) % 0x1_0000_0000_0000_0000 == a && WrapSub(a, b) <= U64_MAX
  {
  }

  lemma {:induction false} DrainClosed(s: Sink)
    requires !s.open
    ensures Drain(s).0.sent == s.sent
    decreases |s.pending|
  {
    hide TakeNext;
    if s.exhausted || s.nextSeq !in s.pending {
    } else {
      TakeNextSmaller(s);
      var (s', ok) := Send(TakeNext(s), s.pending[s.nextSeq]);
      if ok {
        DrainClosed(Advance(s'));
      }
    }
  }

  // ----- with room enough, every order of arrival is accepted

  function TotalLen(ps: seq<Packet>): nat { if ps == [] then 0 else |ps[0].payload| + TotalLen(ps[1..]) }

  /** New numbers, each once, all granted. */
  ghost predicate AllNew(accepted: map<nat, bytes>, ps: seq<Packet>) {
    && (forall p | p in ps :: p.granted && p.seqNo <= U64_MAX && p.seqNo !in accepted)
    && (forall i, j | 0 <= i < j < |ps| :: ps[i].seqNo != ps[j].seqNo)
  }

  predicate RoomFor(l: Limits, s: Sink, ps: seq<Packet>) {
    && |s.pending| + |ps| <= l.maxPackets
    && s.pendingBytes + TotalLen(ps) <= U64_MAX
    && (l.maxBytes != 0 ==> s.pendingBytes + TotalLen(ps) <= l.maxBytes)
  }

  lemma {:induction false} DrainShrinks(l: Limits, s: Sink)
    requires Sound(l, s)
    ensures |Drain(s).0.pending| <= |s.pending| && Drain(s).0.pendingBytes <= s.pendingBytes
    decreases |s.pending|
  {
    hide Sound;
    if s.exhausted || s.nextSeq !in s.pending {
    } else {
      TakeNextSound(l, s);
      var (s', ok) := Send(TakeNext(s), s.pending[s.nextSeq]);
      if ok {
        SoundFrame(l, TakeNext(s), s');
        AdvanceSound(l, s');
        DrainShrinks(l, Advance(s'));
      }
    }
  }

  /** A push holds at most one packet more. */
  lemma PushHolds(l: Limits, s: Sink, p: Packet)
    requires Settled(l, s) && p.seqNo <= U64_MAX
    ensures var s' := Push(l, s, p.seqNo, p.payload, p.granted).0;
            |s'.pending| <= |s.pending| + 1 && s'.pendingBytes <= s.pendingBytes + |p.payload|
  {
    hide Drain, Sound;
    if !s.exhausted && p.seqNo == s.nextSeq && p.granted {
      var (t, ok) := Send(s, p.payload);
      SoundFrame(l, s, t);
      AdvanceSound(l, t);
      DrainShrinks(l, Advance(t));
    } else if p.seqNo !in s.pending {
      assert s.pending[p.seqNo := p.payload].Keys == s.pending.Keys + {p.seqNo};
      assert |s.pending[p.seqNo := p.payload].Keys| == |s.pending| + 1;
    }
  }

  /** What a run keeps on an open sink. */
  ghost predicate Sane(l: Limits, h: History) {
    Settled(l, h.sink) && Exact(l, h.sink) && h.sink.open && Faithful(h.sink, h.accepted)
  }

  lemma SaneStep(l: Limits, h: History, p: Packet)
    requires Sane(l, h) && p.seqNo <= U64_MAX
    ensures Sane(l, Step(l, h, p))
  {
    hide Push, Sound, Exact, Faithful;
    StepFaithful(l, h, p);
    PushSettles(l, h.sink, p.seqNo, p.payload, p.granted);
  }

  /** With room for all of them, packets with new numbers are accepted in any order. */
  lemma {:induction false} RoomAccepts(l: Limits, h: History, ps: seq<Packet>)
    requires Sane(l, h) && AllNew(h.accepted, ps) && RoomFor(l, h.sink, ps)
    ensures FullyAccepted(l, h, ps)
    decreases ps
  {
    hide Sane;
    if ps == [] {
    } else {
      var p := ps[0];
      assert p in ps;
      FirstAccepted(l, h, ps);
      SaneStep(l, h, p);
      RoomAccepts(l, Step(l, h, p), ps[1..]);
    }
  }

  lemma FirstAccepted(l: Limits, h: History, ps: seq<Packet>)
    requires ps != [] && Sane(l, h) && AllNew(h.accepted, ps) && RoomFor(l, h.sink, ps)
    ensures Push(l, h.sink, ps[0].seqNo, ps[0].payload, ps[0].granted).1 == Accepted
    ensures AllNew(Step(l, h, ps[0]).accepted, ps[1..]) && RoomFor(l, Step(l, h, ps[0]).sink, ps[1..])
  {
    hide Push, Sound, Faithful;
    var p := ps[0];
    assert p in ps;
    PushOutcome(l, h, p);
    HeldIsPending(l, h.sink, h.accepted);
    PushHolds(l, h.sink, p);
    var rest := ps[1..];
    forall q | q in rest
      ensures q in ps && q.seqNo != p.seqNo
    {
      var i :| 0 <= i < |rest| && rest[i] == q;
      assert ps[i + 1] == q;
    }
  }

  /** Packet k carries payload k. */
  function Numbered(payloads: seq<bytes>): seq<Packet> {
    seq(|payloads|, k requires 0 <= k < |payloads| => Packet(k, payloads[k], true))
  }

  lemma TotalLenSnoc(ps: seq<Packet>, qs: seq<Packet>)
    ensures TotalLen(ps + qs) == TotalLen(ps) + TotalLen(qs)
  {
    if ps == [] {
      assert ps + qs == qs;
    } else {
      TotalLenSnoc(ps[1..], qs);
      assert (ps + qs)[1..] == ps[1..] + qs;
    }
  }

  lemma RemoveOne(ps: seq<Packet>, qs: seq<Packet>, i: nat)
    requires ps != [] && i < |qs| && qs[i] == ps[0] && multiset(ps) == multiset(qs)
    ensures qs == qs[..i] + [ps[0]] + qs[i + 1..] && multiset(ps[1..]) == multiset(qs[..i] + qs[i + 1..])
  {
    var (a, b) := (qs[..i], qs[i + 1..]);
    assert qs == a + [ps[0]] + b;
    assert ps == [ps[0]] + ps[1..];
    assert multiset(a + b) == multiset(a) + multiset(b);
    assert multiset(qs) == multiset(a) + multiset{ps[0]} + multiset(b);
    assert multiset(ps) == multiset{ps[0]} + multiset(ps[1..]);
    assert multiset(ps[1..]) == multiset(ps) - multiset{ps[0]} == multiset(a) + multiset(b);
  }

  lemma TotalLenWithout(a: seq<Packet>, p: Packet, b: seq<Packet>)
    ensures TotalLen(a + [p] + b) == |p.payload| + TotalLen(a + b)
  {
    TotalLenSnoc(a, b);
    TotalLenSnoc(a, [p] + b);
    TotalLenSnoc([p], b);
    assert a + ([p] + b) == a + [p] + b;
    assert TotalLen([p]) == |p.payload|;
  }

  /** The sum of the lengths does not depend on the order. */
  lemma {:induction false} TotalLenOfOrder(ps: seq<Packet>, qs: seq<Packet>)
    requires multiset(ps) == multiset(qs)
    ensures TotalLen(ps) == TotalLen(qs)
    decreases ps
  {
    if ps == [] {
      assert |multiset(qs)| == |qs| == 0;
    } else {
      var p := ps[0];
      assert p in multiset(ps);
      assert p in qs;
      var i :| 0 <= i < |qs| && qs[i] == p;
      var (a, b) := (qs[..i], qs[i + 1..]);
      RemoveOne(ps, qs, i);
      TotalLenOfOrder(ps[1..], a + b);
      TotalLenWithout(a, p, b);
      assert a + [p] + b == qs;
    }
  }

  lemma {:induction false} NumberedOnce(payloads: seq<bytes>, n: nat, p: Packet)
    requires n <= |payloads|
    ensures multiset(Numbered(payloads)[..n])[p] <= 1
    ensures p in Numbered(payloads)[..n] ==> p.seqNo < n
  {
    var all := Numbered(payloads);
    if n == 0 {
    } else {
      NumberedOnce(payloads, n - 1, p);
      assert all[..n] == all[..n - 1] + [all[n - 1]];
    }
  }

  lemma OrderIsNew(payloads: seq<bytes>, ps: seq<Packet>)
    requires multiset(ps) == multiset(Numbered(payloads)) && |payloads| <= U64_MAX + 1
    ensures AllNew(map[], ps)
  {
    var all := Numbered(payloads);
    forall p | p in ps
      ensures p in all
    {
      assert p in multiset(ps);
    }
    assert all[..|payloads|] == all;
    forall i, j | 0 <= i < j < |ps|
      ensures ps[i].seqNo != ps[j].seqNo
    {
      assert ps[i] in ps && ps[j] in ps;
      if ps[i].seqNo == ps[j].seqNo {
        assert ps == ps[..j] + ps[j..] && ps[i] in ps[..j] && ps[j] in ps[j..];
        assert multiset(ps)[ps[i]] >= 2;
        NumberedOnce(payloads, |payloads|, ps[i]);
      }
    }
  }

  lemma {:induction false} InOrderIsFlatten(payloads: seq<bytes>, m: map<nat, bytes>, n: nat)
    requires n <= |payloads| && forall k | 0 <= k < n :: k in m && m[k] == payloads[k]
    ensures InOrder(m, n) == Flatten(payloads[..n])
  {
    if n == 0 {
    } else {
      InOrderIsFlatten(payloads, m, n - 1);
      assert payloads[..n] == payloads[..n - 1] + [payloads[n - 1]];
      FlattenSnoc(payloads[..n - 1], payloads[n - 1]);
    }
  }

  /** With room for n packets, packets 0 to n - 1 are all accepted in every order of arrival, and sent in theirs. */
  lemma AnyOrderDelivers(l: Limits, payloads: seq<bytes>, ps: seq<Packet>)
    requires multiset(ps) == multiset(Numbered(payloads)) && |payloads| <= l.maxPackets && |payloads| <= U64_MAX + 1
    requires TotalLen(Numbered(payloads)) <= U64_MAX
    requires l.maxBytes == 0 || TotalLen(Numbered(payloads)) <= l.maxBytes
    ensures FullyAccepted(l, START, ps)
    ensures Run(l, START, ps).sink.sent == Flatten(payloads)
  {
    hide Push, Step, Run, FullyAccepted, Flatten, Sound;
    var n := |payloads|;
    OrderIsNew(payloads, ps);
    TotalLenOfOrder(ps, Numbered(payloads));
    assert |ps| == n by { assert |multiset(ps)| == |ps| && |multiset(Numbered(payloads))| == n; }
    StartFaithful(l);
    RoomAccepts(l, START, ps);
    DeliversInOrder(l, ps);
    var h := Run(l, START, ps);
    forall k: nat
      ensures k in h.accepted <==> k < n
      ensures k < n ==> h.accepted[k] == payloads[k]
    {
      NumberAccepted(l, payloads, ps, k);
    }
    assert Top(h.sink) == n;
    InOrderIsFlatten(payloads, h.accepted, n);
    assert payloads[..n] == payloads;
  }

  lemma NumberAccepted(l: Limits, payloads: seq<bytes>, ps: seq<Packet>, k: nat)
    requires multiset(ps) == multiset(Numbered(payloads)) && FullyAccepted(l, START, ps)
    requires forall p | p in ps :: p.seqNo <= U64_MAX
    ensures var accepted := Run(l, START, ps).accepted;
            (k in accepted <==> k < |payloads|) && (k < |payloads| ==> accepted[k] == payloads[k])
  {
    hide Push, Step, Run, FullyAccepted, Sound;
    StartFaithful(l);
    var accepted := Run(l, START, ps).accepted;
    var all := Numbered(payloads);
    if k < |payloads| {
      assert all[k] in multiset(all);
      assert all[k] in ps;
      AcceptedIsPackets(l, START, ps, k, payloads[k]);
    } else if k in accepted {
      var v := accepted[k];
      assert Packet(k, v, true) in ps ==> Packet(k, v, true) in multiset(all);
      AcceptedIsPackets(l, START, ps, k, v);
    }
  }

  // ----- the object

  datatype ReadResult = Ready(data: bytes) | Pending

  class Uplink {
    const limits: Limits
    const depth: nat                 // capacity of the channel
    const lasting: bool              // the reader is not dropped while a push waits
    var nextSeq: nat
    var exhausted: bool
    var pending: map<nat, bytes>
    var pendingBytes: nat
    var pendingCount: nat
    var channel: seq<bytes>          // chunks sent and not yet received
    var cur: bytes                   // rest of the chunk the reader holds; empty when it holds none
    var txOpen: bool                 // the sender still points at this channel
    var rxOpen: bool                 // the reader has not been dropped
    ghost var consumed: bytes        // bytes the reader has handed out
    ghost var sent: bytes            // bytes handed to the channel

    ghost function Value(): Sink
      reads this
    {
      Sink(nextSeq, exhausted, pending, sent, pendingBytes, pendingCount, txOpen && rxOpen)
    }

    /** The channel holds at most `depth` chunks, none of them empty. */
    ghost predicate Queued()
      reads this
    {
      depth >= 1 && |channel| <= depth && forall c | c in channel :: c != []
    }

    /** What was sent is what was read, what the reader holds and what is in the channel, in this order. */
    ghost predicate Valid()
      reads this
    {
      && Queued()
      && Settled(limits, Value())
      && (rxOpen ==> sent == consumed + (cur + Flatten(channel)))
    }

    constructor (maxPackets: nat, maxBytes: nat, channelDepth: nat, lasting: bool)
      ensures this.lasting == lasting && depth == if channelDepth == 0 then 1 else channelDepth
      ensures rxOpen && txOpen && Valid() && Exact(limits, Value()) && Value() == EMPTY && consumed == []
      ensures limits == Limits(if maxPackets == 0 then 1 else maxPackets, maxBytes)
    {
      limits := Limits(if maxPackets == 0 then 1 else maxPackets, maxBytes);
      depth, this.lasting := if channelDepth == 0 then 1 else channelDepth, lasting;
      nextSeq, exhausted, pending, pendingBytes, pendingCount := 0, false, map[], 0, 0;
      channel, cur, txOpen, rxOpen, consumed, sent := [], [], true, true, [], [];
    }

    /** Takes the next chunk out of the channel when the reader holds none. */
    method Refill()
      requires Queued()
      modifies `channel, `cur
      ensures cur + Flatten(channel) == old(cur + Flatten(channel)) && |channel| <= old(|channel|)
      ensures Queued()
      ensures cur == [] ==> old(channel) == [] && channel == []
    {
      if cur == [] && channel != [] {
        assert channel[0] in channel;
        assert forall c | c in channel[1..] :: c in channel;
        cur, channel := channel[0], channel[1..];
      }
    }

    /** The reader: never reorders, never drops; an empty result into a non-empty buffer is end of file. */
    method PollRead(room: nat) returns (r: ReadResult)
      requires rxOpen && Queued() && sent == consumed + (cur + Flatten(channel))
      modifies `channel, `cur, `consumed
      ensures Queued() && sent == consumed + (cur + Flatten(channel))
      ensures |channel| <= old(|channel|)
      ensures r.Ready? ==> |r.data| <= room && consumed == old(consumed) + r.data
      ensures r.Pending? ==> txOpen && consumed == old(consumed) == sent
      ensures r == Ready([]) && room > 0 ==> !txOpen && consumed == sent
      ensures old(channel) != [] && room > 0 ==> |cur + Flatten(channel)| < old(|cur + Flatten(channel)|)
    {
      Refill();
      if cur == [] {
        return if txOpen then Pending else Ready([]);
      }
      hide Flatten;
      var n := Min(|cur|, room);
      var data := cur[..n];
      ghost var queue := cur + Flatten(channel);
      cur := cur[n..];
      assert queue == data + (cur + Flatten(channel));
      consumed := consumed + data;
      r := Ready(data);
    }

    /** Waiting for room in the channel, the reader goes on reading, or goes away. */
    method AwaitCapacity()
      requires rxOpen && Queued() && sent == consumed + (cur + Flatten(channel))
      modifies `channel, `cur, `consumed, `rxOpen
      ensures Queued() && (rxOpen ==> sent == consumed + (cur + Flatten(channel)))
      ensures rxOpen ==> |channel| < depth
      ensures lasting ==> rxOpen
    {
      var dropped: bool := *;
      if dropped && !lasting {
        rxOpen := false;
        return;
      }
      while |channel| >= depth
        invariant rxOpen && Queued() && sent == consumed + (cur + Flatten(channel))
        decreases |cur + Flatten(channel)|
      {
        var room: nat := 1;
        room :| room >= 1;
        var r := PollRead(room);
      }
    }

    method SendInOrder(p: bytes) returns (ok: bool)
      requires Queued()
      requires rxOpen ==> sent == consumed + (cur + Flatten(channel))
      modifies `channel, `cur, `consumed, `rxOpen, `sent
      ensures Queued() && (rxOpen ==> sent == consumed + (cur + Flatten(channel)))
      ensures rxOpen ==> old(rxOpen)
      ensures rxOpen == old(rxOpen) ==> (Value(), ok) == Send(old(Value()), p)
      ensures rxOpen != old(rxOpen) ==> !ok && sent == old(sent)
      ensures lasting ==> rxOpen == old(rxOpen)
    {
      if p == [] {
        return true;
      }
      if !txOpen || !rxOpen {
        return false;
      }
      AwaitCapacity();
      if !rxOpen {
        return false;
      }
      FlattenSnoc(channel, p);
      channel := channel + [p];
      sent := sent + p;
      ok := true;
    }

    /** Takes out the next packet, sends it and counts it. */
    method DeliverNext() returns (ok: bool)
      requires !exhausted && nextSeq in pending && Sound(limits, Value())
      requires Queued()
               && (rxOpen ==> sent == consumed + (cur + Flatten(channel)))
      modifies this
      ensures Queued()
      ensures rxOpen ==> old(rxOpen) && sent == consumed + (cur + Flatten(channel))
      ensures Sound(limits, Value()) && (ok || nextSeq !in pending) && |pending| < old(|pending|)
      ensures old(Exact(limits, Value())) ==> Exact(limits, Value())
      ensures rxOpen == old(rxOpen) ==> Drain(old(Value())) == if ok then Drain(Value()) else (Value(), Closed)
      ensures old(sent) <= sent && (rxOpen != old(rxOpen) ==> !ok && sent == old(sent))
      ensures lasting ==> rxOpen == old(rxOpen)
    {
      hide Sound, Exact, Flatten, Drain, WrapSub;
      ghost var s := Value();
      DrainStep(s);
      TakeNextSound(limits, s);
      var p := pending[nextSeq];
      pending := pending - {nextSeq};
      pendingBytes := WrapSub(pendingBytes, |p|);
      pendingCount := WrapSub(pendingCount, 1);
      assert Value() == TakeNext(s);
      ok := SendInOrder(p);
      SoundFrame(limits, TakeNext(s), Value());
      if ok {
        CountDelivered();
      }
    }

    method CountDelivered()
      requires !exhausted && Settled(limits, Value())
      modifies `nextSeq, `exhausted
      ensures Value() == Advance(old(Value()))
      ensures Sound(limits, Value()) && (Exact(limits, Value()) <==> old(Exact(limits, Value())))
    {
      AdvanceSound(limits, Value());
      AdvanceExact(limits, Value());
      if nextSeq == U64_MAX {
        exhausted := true;
      } else {
        nextSeq := nextSeq + 1;
      }
    }

    /** Counts the delivered packet and delivers the contiguous followers that are already pending. */
    method AdvanceAndDrain() returns (r: PushResult)
      requires Valid() && !exhausted
      modifies this
      ensures Valid() && (old(Exact(limits, Value())) ==> Exact(limits, Value()))
      ensures rxOpen ==> old(rxOpen)
      ensures rxOpen == old(rxOpen) ==> (Value(), r) == Drain(Advance(old(Value())))
      ensures rxOpen != old(rxOpen) ==> r == Closed && old(sent) <= sent <= Drain(Advance(old(Value()))).0.sent
      ensures lasting ==> rxOpen == old(rxOpen)
    {
      hide Sound, Exact, Flatten, Drain, Advance;
      AdvanceSends(Value());
      CountDelivered();
      while !exhausted && nextSeq in pending
        invariant Queued()
        invariant rxOpen == old(rxOpen) && (rxOpen ==> sent == consumed + (cur + Flatten(channel)))
        invariant Sound(limits, Value()) && (old(Exact(limits, Value())) ==> Exact(limits, Value()))
        invariant Drain(Value()) == Drain(Advance(old(Value()))) && old(sent) <= sent
        decreases |pending|
      {
        DrainExtends(Value());
        var ok := DeliverNext();
        if !ok {
          return Closed;
        }
      }
      DrainDone(Value());
      if exhausted {
        ExhaustedSettled(limits, Value());
      }
      r := Accepted;
    }

    /** Closing does nothing while a push holds the lock. Otherwise it drops the sender and what is
        pending, but not the counters, which then only count too much. */
    method Close(lockFree: bool)
      requires Valid()
      modifies `txOpen, `pending
      ensures Valid()
      ensures Value() == if lockFree then old(Value()).(pending := map[], open := false) else old(Value())
    {
      if lockFree {
        txOpen := false;
        pending := map[];
      }
    }

    /**
      One packet. As long as the reader is not dropped meanwhile, this is the value-level Push, no
      matter how often the reader reads while a send waits for room. If the reader is dropped
      meanwhile the answer is Closed, and part of what Push would have sent was sent.
    */
    method PushPacket(seqNo: nat, payload: bytes, granted: bool) returns (r: PushResult)
      requires Valid() && seqNo <= U64_MAX
      modifies this
      ensures Valid() && (old(Exact(limits, Value())) ==> Exact(limits, Value()))
      ensures rxOpen ==> old(rxOpen)
      ensures rxOpen == old(rxOpen) ==>
                var (s, p) := Push(limits, old(Value()), seqNo, payload, granted); Value() == s && r == p
      ensures rxOpen != old(rxOpen) ==>
                r == Closed && old(sent) <= sent <= Push(limits, old(Value()), seqNo, payload, granted).0.sent
      ensures lasting ==> rxOpen == old(rxOpen)
    {
      hide Sound, Exact, Flatten, Drain, Advance;
      PushSettles(limits, Value(), seqNo, payload, granted);
      if exhausted || seqNo < nextSeq {
        return Duplicate;
      }
      if seqNo > nextSeq {
        if seqNo in pending {
          return Duplicate;
        }
        if |pending| >= limits.maxPackets {
          return TooManyPending;
        }
        var nextBytes := pendingBytes + |payload|;
        if nextBytes > U64_MAX {
          return TooManyPendingBytes;
        }
        if limits.maxBytes != 0 && nextBytes > limits.maxBytes {
          return TooManyPendingBytes;
        }
        if !granted {
          return GlobalBufferExceeded;
        }
        pendingBytes := nextBytes;
        pendingCount := pendingCount + 1;
        pending := pending[seqNo := payload];
        return Accepted;
      }

      if !granted {
        return GlobalBufferExceeded;
      }
      PushExtends(Value(), payload);
      var ok := SendInOrder(payload);
      SoundFrame(limits, old(Value()), Value());
      if !ok {
        return Closed;
      }
      r := AdvanceAndDrain();
    }
  }

  // ----- any use of the object

  datatype Use = PushUse(packet: Packet) | ReadUse(room: nat)

  function Pushes(uses: seq<Use>): seq<Packet> {
    if uses == [] then [] else (if uses[0].PushUse? then [uses[0].packet] else []) + Pushes(uses[1..])
  }

  lemma {:induction false} PushesSnoc(uses: seq<Use>, u: Use)
    ensures Pushes(uses + [u]) == Pushes(uses) + if u.PushUse? then [u.packet] else []
  {
    if uses == [] {
      assert uses + [u] == [u];
    } else {
      PushesSnoc(uses[1..], u);
      assert (uses + [u])[1..] == uses[1..] + [u];
    }
  }

  lemma {:induction false} RunSnoc(l: Limits, h: History, ps: seq<Packet>, p: Packet)
    ensures Run(l, h, ps + [p]) == Step(l, Run(l, h, ps), p)
    decreases ps
  {
    hide Step;
    if ps == [] {
      assert ps + [p] == [p] && [p][1..] == [];
    } else {
      RunSnoc(l, Step(l, h, ps[0]), ps[1..], p);
      assert (ps + [p])[1..] == ps[1..] + [p];
    }
  }

  /** The history after the first n uses. */
  function HistoryOf(l: Limits, uses: seq<Use>, n: nat): History
    requires n <= |uses|
  {
    Run(l, START, Pushes(uses[..n]))
  }

  lemma HistoryNext(l: Limits, uses: seq<Use>, n: nat)
    requires n < |uses|
    ensures var h := HistoryOf(l, uses, n);
            HistoryOf(l, uses, n + 1) == match uses[n] case PushUse(p) => Step(l, h, p) case ReadUse(_) => h
  {
    hide Step, Run, Pushes;
    assert uses[..n + 1] == uses[..n] + [uses[n]];
    PushesSnoc(uses[..n], uses[n]);
    if uses[n].PushUse? {
      RunSnoc(l, START, Pushes(uses[..n]), uses[n].packet);
    } else {
      assert Pushes(uses[..n]) + [] == Pushes(uses[..n]);
    }
  }

  /** What the object holds after n uses, if the reader was not dropped. */
  ghost predicate Mirrors(up: Uplink, h: History)
    reads up
  {
    up.Valid() && up.rxOpen && up.txOpen && up.Value() == h.sink && Faithful(h.sink, h.accepted)
  }

  lemma HistoryStart(l: Limits, uses: seq<Use>)
    ensures HistoryOf(l, uses, 0) == START && Faithful(EMPTY, map[])
  {
    assert uses[..0] == [];
  }

  /**
    Pushes and reads in any order, with reads also while a push waits. As long as the reader is there,
    what was read, what the reader holds and what is in the channel are the accepted payloads in
    order. If it is dropped during use n, that much was sent before, and no more than that push would
    have sent in all.
  */
  method UseUplink(maxPackets: nat, maxBytes: nat, channelDepth: nat, lasting: bool, uses: seq<Use>)
      returns (up: Uplink, n: nat)
    requires forall u | u in uses && u.PushUse? :: u.packet.seqNo <= U64_MAX
    ensures fresh(up) && up.Valid() && n <= |uses| && (up.rxOpen ==> n == |uses|) && (lasting ==> up.rxOpen)
    ensures Faithful(HistoryOf(up.limits, uses, n).sink, HistoryOf(up.limits, uses, n).accepted)
    ensures up.rxOpen ==>
              var h := HistoryOf(up.limits, uses, n);
              up.consumed + (up.cur + Flatten(up.channel)) == InOrder(h.accepted, Top(h.sink))
    ensures !up.rxOpen ==>
              n < |uses|
              && HistoryOf(up.limits, uses, n).sink.sent <= up.sent <= HistoryOf(up.limits, uses, n + 1).sink.sent
  {
    hide Faithful, HistoryOf, Flatten, Settled, Exact, Push;
    up := new Uplink(maxPackets, maxBytes, channelDepth, lasting);
    HistoryStart(up.limits, uses);
    n := 0;
    while n < |uses|
      invariant 0 <= n <= |uses| && fresh(up) && Mirrors(up, HistoryOf(up.limits, uses, n))
    {
      ghost var h := HistoryOf(up.limits, uses, n);
      assert uses[n] in uses;
      HistoryNext(up.limits, uses, n);
      match uses[n] {
        case PushUse(p) =>
          StepFaithful(up.limits, h, p);
          var r := up.PushPacket(p.seqNo, p.payload, p.granted);
          if !up.rxOpen {
            return;
          }
        case ReadUse(room) =>
          var r := up.PollRead(room);
      }
      n := n + 1;
    }
    FaithfulStream(HistoryOf(up.limits, uses, n));
  }

  lemma FaithfulStream(h: History)
    requires Faithful(h.sink, h.accepted)
    ensures (forall k | 0 <= k < Top(h.sink) :: k in h.accepted) && h.sink.sent == InOrder(h.accepted, Top(h.sink))
  {
  }
}
