/**
  The process-wide byte budget: an atomic counter raised by a compare-and-swap loop and lowered when
  a reservation is dropped. The machine interleaves, one atomic step at a time, the pushes of any
  number of sessions, their readers and every drop. A reservation lives in one slot: with a packet
  that is pending, being sent, in the channel, or held by a reader.
*/
module Budget {
  import opened Bytes
  import opened Sums

  datatype Slot =
    | PendingSlot(session: nat, seqNo: nat)
    | SendingSlot(session: nat)
    | ChannelSlot(session: nat, chunk: nat)
    | ReaderSlot(session: nat)

  /** Where the push that holds the session's lock stands; `cur` is the last value it saw of the counter. */
  datatype Pc = Idle | Reserving(seqNo: nat, bytes: nat, inOrder: bool, cur: nat) | Sending | Draining

  /** A limit of zero means unlimited. */
  datatype State = State(limit: nat, used: nat, held: map<Slot, nat>, pc: map<nat, Pc>)

  datatype Action =
    | Begin(session: nat, seqNo: nat, bytes: nat, inOrder: bool)  // load of the counter
    | CasOk(session: nat)
    | CasFail(session: nat)                                       // changed meanwhile, or spurious
    | Refuse(session: nat)
    | FetchAdd(session: nat)                                      // the unlimited branch
    | Sent(session: nat, chunk: nat)
    | SendLost(session: nat, stop: bool)                          // empty payload, or a closed channel
    | TakePending(session: nat, seqNo: nat)
    | Finish(session: nat)
    | Receive(session: nat, chunk: nat)
    | Drop(slot: Slot)                                            // chunk read up, reader gone, session closed

  function Init(limit: nat): State { State(limit, 0, map[], map[]) }

  function PcOf(s: State, session: nat): Pc { if session in s.pc then s.pc[session] else Idle }

  function SaturatingAdd(a: nat, b: nat): nat { Min(a + b, U64_MAX) }

  function WrappingAdd(a: nat, b: nat): nat { (a + b) % (U64_MAX + 1) }

  function WrappingSub(a: nat, b: nat): nat { (a - b) % (U64_MAX + 1) }

  /** The slot a granted reservation goes to. */
  function Target(session: nat, pc: Pc): Slot
    requires pc.Reserving?
  {
    if pc.inOrder then SendingSlot(session) else PendingSlot(session, pc.seqNo)
  }

  predicate Enabled(s: State, a: Action) {
    match a
    case Begin(n, q, bytes, inOrder) =>
      PcOf(s, n) == Idle && bytes <= U64_MAX && (inOrder || PendingSlot(n, q) !in s.held)
    case CasOk(n) =>
      var pc := PcOf(s, n);
      pc.Reserving? && s.limit != 0 && SaturatingAdd(pc.cur, pc.bytes) <= s.limit && s.used == pc.cur
    case CasFail(n) =>
      var pc := PcOf(s, n);
      pc.Reserving? && s.limit != 0 && SaturatingAdd(pc.cur, pc.bytes) <= s.limit
    case Refuse(n) =>
      var pc := PcOf(s, n);
      pc.Reserving? && s.limit != 0 && SaturatingAdd(pc.cur, pc.bytes) > s.limit
    case FetchAdd(n) => PcOf(s, n).Reserving? && s.limit == 0
    case Sent(n, c) => PcOf(s, n) == Sending && SendingSlot(n) in s.held && ChannelSlot(n, c) !in s.held
    case SendLost(n, _) => PcOf(s, n) == Sending && SendingSlot(n) in s.held
    case TakePending(n, q) => PcOf(s, n) == Draining && PendingSlot(n, q) in s.held && SendingSlot(n) !in s.held
    case Finish(n) => PcOf(s, n) == Draining
    case Receive(n, c) => ChannelSlot(n, c) in s.held && ReaderSlot(n) !in s.held
    case Drop(slot) => slot in s.held && !slot.SendingSlot?
  }

  function Grant(s: State, n: nat, used: nat): State
    requires PcOf(s, n).Reserving?
  {
    var pc := PcOf(s, n);
    s.(used := used, held := s.held[Target(n, pc) := pc.bytes], pc := s.pc[n := if pc.inOrder then Sending else Idle])
  }

  function Move(s: State, from: Slot, to: Slot): State
    requires from in s.held
  {
    s.(held := (s.held - {from})[to := s.held[from]])
  }

  function Release(s: State, slot: Slot): State
    requires slot in s.held
  {
    s.(used := WrappingSub(s.used, s.held[slot]), held := s.held - {slot})
  }

  function Apply(s: State, a: Action): State
    requires Enabled(s, a)
  {
    match a
    case Begin(n, q, bytes, inOrder) => s.(pc := s.pc[n := Reserving(q, bytes, inOrder, s.used)])
    case CasOk(n) => Grant(s, n, SaturatingAdd(PcOf(s, n).cur, PcOf(s, n).bytes))
    case CasFail(n) => s.(pc := s.pc[n := PcOf(s, n).(cur := s.used)])
    case Refuse(n) => s.(pc := s.pc[n := Idle])
    case FetchAdd(n) => Grant(s, n, WrappingAdd(s.used, PcOf(s, n).bytes))
    case Sent(n, c) => Move(s, SendingSlot(n), ChannelSlot(n, c)).(pc := s.pc[n := Draining])
    case SendLost(n, stop) => Release(s, SendingSlot(n)).(pc := s.pc[n := if stop then Idle else Draining])
    case TakePending(n, q) => Move(s, PendingSlot(n, q), SendingSlot(n)).(pc := s.pc[n := Sending])
    case Finish(n) => s.(pc := s.pc[n := Idle])
    case Receive(n, c) => Move(s, ChannelSlot(n, c), ReaderSlot(n))
    case Drop(slot) => Release(s, slot)
  }

  predicate Runs(s: State, acts: seq<Action>)
    decreases acts
  {
    acts != [] ==> Enabled(s, acts[0]) && Runs(Apply(s, acts[0]), acts[1..])
  }

  function After(s: State, acts: seq<Action>): State
    requires Runs(s, acts)
    decreases acts
  {
    if acts == [] then s else After(Apply(s, acts[0]), acts[1..])
  }

  // ----- conservation

  ghost function Total(s: State): nat { SumBy(s.held, (b: nat) => b) }

  /** One lock per session: only the push that is sending has a slot there, and only it targets its slots. */
  ghost predicate SlotsOwned(s: State) {
    && (forall n :: SendingSlot(n) in s.held <==> PcOf(s, n) == Sending)
    && (forall n | n in s.pc :: s.pc[n].Reserving? && !s.pc[n].inOrder ==> PendingSlot(n, s.pc[n].seqNo) !in s.held)
  }

  lemma SlotsOwnedStep(s: State, a: Action)
    requires SlotsOwned(s) && Enabled(s, a)
    ensures SlotsOwned(Apply(s, a))
  {
    var t := Apply(s, a);
    forall n
      ensures SendingSlot(n) in t.held <==> PcOf(t, n) == Sending
    {
      assert SendingSlot(n) in s.held <==> PcOf(s, n) == Sending;
    }
  }

  /** How the counter and the reservations change together, whatever the step. */
  lemma TotalStep(s: State, a: Action)
    requires SlotsOwned(s) && Enabled(s, a)
    ensures var t := Apply(s, a);
            match a
            case CasOk(n) =>
              Total(t) == Total(s) + PcOf(s, n).bytes && t.used == SaturatingAdd(s.used, PcOf(s, n).bytes) <= s.limit
            case FetchAdd(n) =>
              Total(t) == Total(s) + PcOf(s, n).bytes && t.used == WrappingAdd(s.used, PcOf(s, n).bytes)
            case SendLost(n, _) =>
              Total(s) == Total(t) + s.held[SendingSlot(n)] && t.used == WrappingSub(s.used, s.held[SendingSlot(n)])
            case Drop(slot) => Total(s) == Total(t) + s.held[slot] && t.used == WrappingSub(s.used, s.held[slot])
            case _ => Total(t) == Total(s) && t.used == s.used
  {
    var f := (b: nat) => b;
    match a
    case CasOk(n) => SumByInsert(s.held, f, Target(n, PcOf(s, n)), PcOf(s, n).bytes);
    case FetchAdd(n) => SumByInsert(s.held, f, Target(n, PcOf(s, n)), PcOf(s, n).bytes);
    case Sent(n, c) => SumByMove(s.held, f, SendingSlot(n), ChannelSlot(n, c));
    case SendLost(n, _) => SumByRemove(s.held, f, SendingSlot(n));
    case TakePending(n, q) => SumByMove(s.held, f, PendingSlot(n, q), SendingSlot(n));
    case Receive(n, c) => SumByMove(s.held, f, ChannelSlot(n, c), ReaderSlot(n));
    case Drop(slot) => SumByRemove(s.held, f, slot);
    case _ =>
  }

  ghost predicate Conserved(s: State) { SlotsOwned(s) && s.used == Total(s) && (s.limit != 0 ==> s.used <= s.limit) }

  lemma ConservedStep(s: State, a: Action)
    requires 0 < s.limit < U64_MAX && Conserved(s) && Enabled(s, a)
    ensures Conserved(Apply(s, a)) && Apply(s, a).limit == s.limit
  {
    SlotsOwnedStep(s, a);
    TotalStep(s, a);
    hide SlotsOwned, Total;
  }

  lemma {:induction false} ConservedRun(s: State, acts: seq<Action>)
    requires 0 < s.limit < U64_MAX && Conserved(s) && Runs(s, acts)
    ensures Conserved(After(s, acts))
    decreases acts
  {
    if acts == [] {
    } else {
      ConservedStep(s, acts[0]);
      ConservedRun(Apply(s, acts[0]), acts[1..]);
    }
  }

  /** In every interleaving the counter is the sum of the live reservations, and within the limit. */
  lemma UsedIsSumOfLive(limit: nat, acts: seq<Action>)
    requires 0 < limit < U64_MAX && Runs(Init(limit), acts)
    ensures var s := After(Init(limit), acts);
            s.used == Total(s) <= limit
  {
    ConservedRun(Init(limit), acts);
    LimitFixed(Init(limit), acts);
  }

  lemma {:induction false} LimitFixed(s: State, acts: seq<Action>)
    requires Runs(s, acts)
    ensures After(s, acts).limit == s.limit
    decreases acts
  {
    if acts == [] {
    } else {
      LimitFixed(Apply(s, acts[0]), acts[1..]);
    }
  }

  // ----- one push, one packet

  /** A reservation that nobody interferes with is granted exactly if it fits, or if there is no limit. */
  lemma ReserveAlone(s: State, n: nat, seqNo: nat, bytes: nat, inOrder: bool)
    requires PcOf(s, n) == Idle && bytes <= U64_MAX && (inOrder || PendingSlot(n, seqNo) !in s.held)
    requires s.used <= U64_MAX && s.limit <= U64_MAX
    ensures Enabled(s, Begin(n, seqNo, bytes, inOrder))
    ensures var t := Apply(s, Begin(n, seqNo, bytes, inOrder));
            var fits := s.used + bytes <= s.limit || s.limit == U64_MAX;
            var slot := if inOrder then SendingSlot(n) else PendingSlot(n, seqNo);
            var granted := s.(held := s.held[slot := bytes], pc := s.pc[n := if inOrder then Sending else Idle]);
            && (Enabled(t, FetchAdd(n)) <==> s.limit == 0)
            && (Enabled(t, CasOk(n)) <==> s.limit != 0 && fits)
            && (Enabled(t, CasFail(n)) <==> s.limit != 0 && fits)
            && (Enabled(t, Refuse(n)) <==> s.limit != 0 && !fits)
            && (s.limit == 0 ==> Apply(t, FetchAdd(n)) == granted.(used := (s.used + bytes) % 0x1_0000_0000_0000_0000))
            && (s.limit != 0 && fits ==> Apply(t, CasOk(n)) == granted.(used := Min(s.used + bytes, U64_MAX)))
            && (s.limit != 0 && !fits ==> Apply(t, Refuse(n)) == s.(pc := s.pc[n := Idle]))
  {
    var t := Apply(s, Begin(n, seqNo, bytes, inOrder));
    assert PcOf(t, n) == Reserving(seqNo, bytes, inOrder, s.used);
    assert t.pc[n := Idle] == s.pc[n := Idle] && t.pc[n := Sending] == s.pc[n := Sending];
  }

  /** A compare-and-swap that fails has only read the counter again. */
  lemma RetryAlone(s: State, n: nat)
    requires Enabled(s, CasFail(n))
    ensures var pc := PcOf(s, n);
            Apply(s, CasFail(n)) == s.(pc := s.pc[n := Reserving(pc.seqNo, pc.bytes, pc.inOrder, s.used)])
  {
  }

  /** What a packet holds goes with it from the push to the reader, and dropping it gives back what was reserved. */
  lemma PacketGoesThrough(s: State, n: nat, chunk: nat)
    requires PcOf(s, n) == Sending && SendingSlot(n) in s.held
    requires ChannelSlot(n, chunk) !in s.held && ReaderSlot(n) !in s.held
    ensures var b := s.held[SendingSlot(n)];
            var held := s.held - {SendingSlot(n)};
            var sent := s.(held := held[ChannelSlot(n, chunk) := b], pc := s.pc[n := Draining]);
            var received := s.(held := held[ReaderSlot(n) := b], pc := s.pc[n := Draining]);
            && Enabled(s, Sent(n, chunk)) && Apply(s, Sent(n, chunk)) == sent
            && Enabled(sent, Receive(n, chunk)) && Apply(sent, Receive(n, chunk)) == received
            && Enabled(received, Drop(ReaderSlot(n)))
            && Apply(received, Drop(ReaderSlot(n)))
               == s.(used := WrappingSub(s.used, b), held := held, pc := s.pc[n := Draining])
            && Enabled(received, Finish(n)) && PcOf(Apply(received, Finish(n)), n) == Idle
  {
    var b := s.held[SendingSlot(n)];
    var held := s.held - {SendingSlot(n)};
    assert held[ChannelSlot(n, chunk) := b] - {ChannelSlot(n, chunk)} == held;
    assert held[ReaderSlot(n) := b] - {ReaderSlot(n)} == held;
  }

  /** A pending packet is taken up by the push that drains, keeping its reservation; a lost send gives it back. */
  lemma PendingGoesOn(s: State, n: nat, seqNo: nat, stop: bool)
    requires PcOf(s, n) == Draining && PendingSlot(n, seqNo) in s.held && SendingSlot(n) !in s.held
    ensures var b := s.held[PendingSlot(n, seqNo)];
            var held := s.held - {PendingSlot(n, seqNo)};
            var taken := s.(held := held[SendingSlot(n) := b], pc := s.pc[n := Sending]);
            && Enabled(s, TakePending(n, seqNo)) && Apply(s, TakePending(n, seqNo)) == taken
            && Enabled(taken, SendLost(n, stop))
            && Apply(taken, SendLost(n, stop))
               == s.(used := WrappingSub(s.used, b), held := held, pc := s.pc[n := if stop then Idle else Draining])
  {
    var b := s.held[PendingSlot(n, seqNo)];
    var held := s.held - {PendingSlot(n, seqNo)};
    assert held[SendingSlot(n) := b] - {SendingSlot(n)} == held;
  }

  // ----- the limits for which conservation fails

  ghost predicate AlwaysConserved(limit: nat) {
    forall acts :: Runs(Init(limit), acts) ==> After(Init(limit), acts).used == Total(After(Init(limit), acts))
  }

  /** The longest payload a push can bring: an allocation has at most 2^63 - 1 bytes. */
  const MAX_PAYLOAD: nat := 0x7FFF_FFFF_FFFF_FFFF

  /** An idle session has made such a reservation, for a packet that stays pending. */
  function Reserved(s: State, n: nat): State {
    s.(used := if s.limit == 0 then WrappingAdd(s.used, MAX_PAYLOAD) else SaturatingAdd(s.used, MAX_PAYLOAD),
       held := s.held[PendingSlot(n, 0) := MAX_PAYLOAD],
       pc := s.pc[n := Idle])
  }

  lemma ReservedThen(s: State, n: nat, acts: seq<Action>) returns (acts': seq<Action>)
    requires s.limit == 0 || s.limit == U64_MAX
    requires SlotsOwned(s) && PcOf(s, n) == Idle && PendingSlot(n, 0) !in s.held && Runs(Reserved(s, n), acts)
    ensures SlotsOwned(Reserved(s, n)) && Total(Reserved(s, n)) == Total(s) + MAX_PAYLOAD
    ensures Runs(s, acts') && After(s, acts') == After(Reserved(s, n), acts)
  {
    hide Total, SlotsOwned;
    var a := Begin(n, 0, MAX_PAYLOAD, false);
    var b := if s.limit == 0 then FetchAdd(n) else CasOk(n);
    SlotsOwnedStep(s, a);
    TotalStep(s, a);
    var t := Apply(s, a);
    SlotsOwnedStep(t, b);
    TotalStep(t, b);
    assert s.pc[n := t.pc[n]][n := Idle] == s.pc[n := Idle];
    assert Apply(t, b) == Reserved(s, n);
    acts' := [a] + ([b] + acts);
    assert acts'[1..] == [b] + acts && ([b] + acts)[1..] == acts;
    assert Runs(t, [b] + acts) && After(t, [b] + acts) == After(Reserved(s, n), acts);
  }

  /** Three reservations that together exceed 64 bits: the largest limit saturates, the unlimited branch wraps. */
  lemma ThreeReservationsLoseBytes(limit: nat) returns (acts: seq<Action>)
    requires limit == 0 || limit == U64_MAX
    ensures Runs(Init(limit), acts) && After(Init(limit), acts).used < Total(After(Init(limit), acts))
  {
    hide Total;
    var s0 := Init(limit);
    var s1 := Reserved(s0, 0);
    var s2 := Reserved(s1, 1);
    var s3 := Reserved(s2, 2);
    var first := ReservedThen(s0, 0, []);
    var second := ReservedThen(s1, 1, []);
    acts := ReservedThen(s2, 2, []);
    hide Runs, After;
    acts := ReservedThen(s1, 1, acts);
    acts := ReservedThen(s0, 0, acts);
    assert After(s0, acts) == s3;
  }

  /** Conservation over all runs holds exactly for the limits strictly between 0 and the largest 64-bit number. */
  lemma ConservedExactly(limit: nat)
    requires limit <= U64_MAX
    ensures AlwaysConserved(limit) <==> 0 < limit < U64_MAX
  {
    if 0 < limit < U64_MAX {
      forall acts | Runs(Init(limit), acts)
        ensures After(Init(limit), acts).used == Total(After(Init(limit), acts))
      {
        UsedIsSumOfLive(limit, acts);
      }
    } else {
      var acts := ThreeReservationsLoseBytes(limit);
    }
  }

  ghost predicate Modular(s: State) { s.limit == 0 && SlotsOwned(s) && s.used == Total(s) % (U64_MAX + 1) }

  lemma ModularArithmetic(t: nat, b: nat)
    ensures WrappingAdd(t % (U64_MAX + 1), b) == (t + b) % (U64_MAX + 1)
    ensures WrappingSub((t + b) % (U64_MAX + 1), b) == t % (U64_MAX + 1)
  {
    var m := U64_MAX + 1;
    var (x, y) := (t % m + b, (t + b) % m - b);
    ModUnique(t + b, t / m + x / m, x % m);
    ModUnique(t, (t + b) / m + y / m, y % m);
  }

  lemma ModUnique(x: int, q: int, r: int)
    requires x == (U64_MAX + 1) * q + r && 0 <= r <= U64_MAX
    ensures x % (U64_MAX + 1) == r
  {
  }

  lemma ModularStep(s: State, a: Action)
    requires Modular(s) && Enabled(s, a)
    ensures Modular(Apply(s, a))
  {
    SlotsOwnedStep(s, a);
    TotalStep(s, a);
    hide SlotsOwned, Total, WrappingAdd, WrappingSub;
    match a
    case FetchAdd(n) => ModularArithmetic(Total(s), PcOf(s, n).bytes);
    case SendLost(n, _) => ModularArithmetic(Total(Apply(s, a)), s.held[SendingSlot(n)]);
    case Drop(slot) => ModularArithmetic(Total(Apply(s, a)), s.held[slot]);
    case _ =>
  }

  /** Without a limit the counter is still the sum of the live reservations modulo 2^64. */
  lemma {:induction false} UnlimitedIsModular(s: State, acts: seq<Action>)
    requires Modular(s) && Runs(s, acts)
    ensures Modular(After(s, acts))
    decreases acts
  {
    if acts == [] {
    } else {
      ModularStep(s, acts[0]);
      UnlimitedIsModular(Apply(s, acts[0]), acts[1..]);
    }
  }
}
