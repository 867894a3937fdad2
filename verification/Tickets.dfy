/**
  The table of 0-RTT tickets. Handshakes run concurrently; each reads the clock, removes expired
  tickets under the lock, and later looks its ticket up and records its key under the lock. Tickets
  are issued at any time in between.
*/
module Tickets {
  import opened Bytes

  type Id = nat
  type Key = nat
  type Tid = nat

  const SECOND := 1_000_000_000

  datatype Ticket = Ticket(replayKeys: set<Key>, expires: nat)

  datatype Pc =
    | Cleaning(ticket: Id, key: Key, seen: nat)   // has read the clock
    | Looking(ticket: Id, key: Key, seen: nat)    // has removed what was expired then
    | Accepted | Replay | Expired

  /** An accepted handshake: its ticket and key, the time its cleanup read, and the ticket's expiry. */
  datatype Grant = Grant(ticket: Id, key: Key, seen: nat, expires: nat)

  /** Beside the clock, the table and the tasks: the ids ever stored with their expiry, the latest time a cleanup
      has used, and the handshakes accepted. */
  datatype State = State(now: nat, tickets: map<Id, Ticket>, issued: map<Id, nat>, swept: nat, tasks: map<Tid, Pc>,
                         grants: seq<Grant>)

  datatype Action =
    | Tick
    | Issue(ticket: Id, lifetime: nat)            // a lifetime of zero is not stored
    | Start(t: Tid, ticket: Id, key: Key)
    | Cleanup(t: Tid)
    | Lookup(t: Tid)

  const START := State(0, map[], map[], 0, map[], [])

  predicate Enabled(s: State, a: Action) {
    match a
    case Tick => true
    case Issue(_, _) => true
    case Start(t, _, _) => t !in s.tasks
    case Cleanup(t) => t in s.tasks && s.tasks[t].Cleaning?
    case Lookup(t) => t in s.tasks && s.tasks[t].Looking?
  }

  function Retain(tickets: map<Id, Ticket>, seen: nat): map<Id, Ticket> {
    map id | id in tickets && tickets[id].expires > seen :: tickets[id]
  }

  function Apply(s: State, a: Action): State
    requires Enabled(s, a)
  {
    match a
    case Tick => s.(now := s.now + 1)
    case Issue(id, lifetime) =>
      if lifetime == 0 then s
      else
        var expires := s.now + lifetime * SECOND;
        s.(tickets := s.tickets[id := Ticket({}, expires)], issued := s.issued[id := expires])
    case Start(t, id, key) => s.(tasks := s.tasks[t := Cleaning(id, key, s.now)])
    case Cleanup(t) =>
      var pc := s.tasks[t];
      s.(tickets := Retain(s.tickets, pc.seen), swept := if pc.seen > s.swept then pc.seen else s.swept,
         tasks := s.tasks[t := Looking(pc.ticket, pc.key, pc.seen)])
    case Lookup(t) =>
      var pc := s.tasks[t];
      if pc.ticket !in s.tickets then s.(tasks := s.tasks[t := Expired])
      else
        var x := s.tickets[pc.ticket];
        if pc.key in x.replayKeys then s.(tasks := s.tasks[t := Replay])
        else s.(tickets := s.tickets[pc.ticket := x.(replayKeys := x.replayKeys + {pc.key})],
                tasks := s.tasks[t := Accepted],
                grants := s.grants + [Grant(pc.ticket, pc.key, pc.seen, x.expires)])
  }

  predicate Runs(s: State, acts: seq<Action>)
    decreases acts
  {
    acts != [] ==> Enabled(s, acts[0]) && Runs(Apply(s, acts[0]), acts[1..])
  }

  function After(s: State, acts: seq<Action>): State
    requires Runs(s, acts)
    decreases acts
  {
    if acts == [] then s else After(Apply(s, acts[0]), acts[1..])
  }

  /** The tickets issued in a run, with their lifetimes. */
  function IssuesOf(acts: seq<Action>): seq<(Id, nat)> {
    if acts == [] then []
    else (if acts[0].Issue? then [(acts[0].ticket, acts[0].lifetime)] else []) + IssuesOf(acts[1..])
  }

  /** No id is stored twice; an issue with a lifetime of zero stores nothing. */
  predicate Distinct(issues: seq<(Id, nat)>) {
    forall i, j | 0 <= i < j < |issues| && issues[i].1 != 0 && issues[j].1 != 0 :: issues[i].0 != issues[j].0
  }

  /** None of the ids to be stored was issued before. */
  predicate AllNew(s: State, issues: seq<(Id, nat)>) {
    forall i | 0 <= i < |issues| && issues[i].1 != 0 :: issues[i].0 !in s.issued
  }

  /** Times: a task's clock reading is past, and whoever is about to look sees only tickets that outlive its reading. */
  ghost predicate Timely(s: State) {
    && (forall t | t in s.tasks && (s.tasks[t].Cleaning? || s.tasks[t].Looking?) :: s.tasks[t].seen <= s.now)
    && (forall t, id | t in s.tasks && s.tasks[t].Looking?
        && id in s.tickets :: s.tickets[id].expires > s.tasks[t].seen)
    && (forall g | g in s.grants :: g.expires > g.seen)
  }

  /** Every grant is remembered by its ticket as long as the ticket lives, and no grant repeats another. */
  ghost predicate Remembered(s: State) {
    && (forall id | id in s.tickets :: id in s.issued)
    && (forall g | g in s.grants :: g.ticket in s.issued)
    && (forall g | g in s.grants && g.ticket in s.tickets :: g.key in s.tickets[g.ticket].replayKeys)
    && (forall i, j | 0 <= i < j < |s.grants| ::
          s.grants[i].ticket != s.grants[j].ticket || s.grants[i].key != s.grants[j].key)
  }

  lemma TimelyStep(s: State, a: Action)
    requires Timely(s) && Enabled(s, a)
    ensures Timely(Apply(s, a))
  {
  }

  lemma RememberedStep(s: State, a: Action)
    requires Remembered(s) && Enabled(s, a) && (a.Issue? && a.lifetime != 0 ==> a.ticket !in s.issued)
    ensures Remembered(Apply(s, a))
  {
    var s' := Apply(s, a);
    if s'.grants != s.grants {
      var g := s'.grants[|s.grants|];
      forall i | 0 <= i < |s.grants|
        ensures s.grants[i].ticket != g.ticket || s.grants[i].key != g.key
      {
        assert s.grants[i] in s.grants;
      }
    }
  }

  lemma IssuesTail(acts: seq<Action>)
    requires acts != []
    ensures IssuesOf(acts)
         == if acts[0].Issue? then [(acts[0].ticket, acts[0].lifetime)] + IssuesOf(acts[1..]) else IssuesOf(acts[1..])
  {
  }

  lemma IssuedBy(s: State, a: Action)
    requires Enabled(s, a)
    ensures Apply(s, a).issued.Keys == s.issued.Keys + if a.Issue? && a.lifetime != 0 then {a.ticket} else {}
  {
  }

  lemma DistinctTail(first: (Id, nat), rest: seq<(Id, nat)>)
    requires Distinct([first] + rest)
    ensures Distinct(rest)
    ensures first.1 != 0 ==> forall i | 0 <= i < |rest| && rest[i].1 != 0 :: rest[i].0 != first.0
  {
    var all := [first] + rest;
    assert forall i | 0 <= i < |rest| :: all[i + 1] == rest[i];
    assert all[0] == first;
  }

  lemma NewTail(s: State, first: (Id, nat), rest: seq<(Id, nat)>)
    requires AllNew(s, [first] + rest)
    ensures AllNew(s, rest) && (first.1 != 0 ==> first.0 !in s.issued)
  {
    var all := [first] + rest;
    assert forall i | 0 <= i < |rest| :: all[i + 1] == rest[i];
    assert all[0] == first;
  }

  /** Issues that are distinct and new stay so after the first action, which may be one of them. */
  lemma FirstIsNew(s: State, acts: seq<Action>)
    requires acts != [] && Enabled(s, acts[0]) && Distinct(IssuesOf(acts)) && AllNew(s, IssuesOf(acts))
    ensures acts[0].Issue? && acts[0].lifetime != 0 ==> acts[0].ticket !in s.issued
    ensures Distinct(IssuesOf(acts[1..])) && AllNew(Apply(s, acts[0]), IssuesOf(acts[1..]))
  {
    hide IssuesOf, Distinct, Apply;
    IssuesTail(acts);
    IssuedBy(s, acts[0]);
    if acts[0].Issue? {
      var first := (acts[0].ticket, acts[0].lifetime);
      DistinctTail(first, IssuesOf(acts[1..]));
      NewTail(s, first, IssuesOf(acts[1..]));
    }
  }

  lemma {:induction false} RunKeeps(s: State, acts: seq<Action>)
    requires Timely(s) && Runs(s, acts)
    ensures Timely(After(s, acts))
    ensures Remembered(s) && Distinct(IssuesOf(acts)) && AllNew(s, IssuesOf(acts)) ==> Remembered(After(s, acts))
    decreases acts
  {
    hide Timely, Remembered;
    if acts == [] {
    } else {
      TimelyStep(s, acts[0]);
      if Remembered(s) && Distinct(IssuesOf(acts)) && AllNew(s, IssuesOf(acts)) {
        FirstIsNew(s, acts);
        RememberedStep(s, acts[0]);
      }
      RunKeeps(Apply(s, acts[0]), acts[1..]);
    }
  }

  // ----- the answer to a handshake

  /** A ticket is in the table exactly if it was stored and outlives every cleanup so far; it has seen exactly the
      keys it was accepted with. */
  ghost predicate Exactly(s: State) {
    && s.swept <= s.now
    && (forall t | t in s.tasks && s.tasks[t].Cleaning? :: s.tasks[t].seen <= s.now)
    && (forall id :: id in s.tickets <==> id in s.issued && s.issued[id] > s.swept)
    && (forall id | id in s.tickets :: s.tickets[id].expires == s.issued[id])
    && (forall id, k | id in s.tickets :: k in s.tickets[id].replayKeys <==> Granted(s, id, k))
    && (forall g | g in s.grants :: g.ticket in s.issued)
  }

  predicate Granted(s: State, id: Id, key: Key) { exists g | g in s.grants :: g.ticket == id && g.key == key }

  lemma GrantedSnoc(s: State, s': State, g: Grant)
    requires s'.grants == s.grants + [g]
    ensures forall id, k :: Granted(s', id, k) <==> Granted(s, id, k) || (g.ticket == id && g.key == k)
  {
    assert g in s'.grants;
    forall id, k
      ensures Granted(s', id, k) <==> Granted(s, id, k) || (g.ticket == id && g.key == k)
    {
      if Granted(s, id, k) {
        var h :| h in s.grants && h.ticket == id && h.key == k;
        assert h in s'.grants;
      }
    }
  }

  lemma ExactlyStep(s: State, a: Action)
    requires Exactly(s) && Enabled(s, a) && (a.Issue? && a.lifetime != 0 ==> a.ticket !in s.issued)
    ensures Exactly(Apply(s, a))
  {
    var s' := Apply(s, a);
    if s'.grants == s.grants {
      assert forall id, k :: Granted(s', id, k) <==> Granted(s, id, k);
    } else {
      GrantedSnoc(s, s', s'.grants[|s.grants|]);
    }
    hide Granted;
  }

  lemma {:induction false} ExactlyRun(s: State, acts: seq<Action>)
    requires Exactly(s) && Runs(s, acts) && Distinct(IssuesOf(acts)) && AllNew(s, IssuesOf(acts))
    ensures Exactly(After(s, acts))
    decreases acts
  {
    hide Exactly;
    if acts == [] {
    } else {
      FirstIsNew(s, acts);
      ExactlyStep(s, acts[0]);
      ExactlyRun(Apply(s, acts[0]), acts[1..]);
    }
  }

  /**
    With distinct ids, in every interleaving: a handshake at its lookup is told that the ticket expired
    exactly if it was never stored or does not outlive every cleanup so far; of the others, that it is
    replayed exactly if the pair was accepted before; and else it is accepted.
  */
  lemma LookupOutcome(acts: seq<Action>, t: Tid)
    requires Runs(START, acts) && Distinct(IssuesOf(acts)) && Enabled(After(START, acts), Lookup(t))
    ensures var s := After(START, acts);
            var (id, key) := (s.tasks[t].ticket, s.tasks[t].key);
            Apply(s, Lookup(t)).tasks[t] ==
              if id !in s.issued || s.issued[id] <= s.swept then Expired
              else if Granted(s, id, key) then Replay
              else Accepted
  {
    hide Granted;
    assert AllNew(START, IssuesOf(acts));
    assert Exactly(START) by { assert forall id, k :: !Granted(START, id, k) by { NothingGranted(); } }
    ExactlyRun(START, acts);
    hide Runs, After;
  }

  lemma NothingGranted()
    ensures forall id, k :: !Granted(START, id, k)
  {
  }

  /** Time can pass by any amount at any moment, and nothing else changes with it. */
  lemma {:induction false} TimePasses(s: State, n: nat) returns (acts: seq<Action>)
    ensures Runs(s, acts) && After(s, acts) == s.(now := s.now + n) && IssuesOf(acts) == []
    decreases n
  {
    if n == 0 {
      acts := [];
    } else {
      var s' := Apply(s, Tick);
      var rest := TimePasses(s', n - 1);
      acts := [Tick] + rest;
      assert acts[0] == Tick && acts[1..] == rest;
      assert After(s, acts) == After(s', rest);
    }
  }

  /** Over every interleaving, a grant's ticket outlives the time its own cleanup read. */
  lemma GrantsAreFresh(acts: seq<Action>, i: nat)
    requires Runs(START, acts) && i < |After(START, acts).grants|
    ensures After(START, acts).grants[i].expires > After(START, acts).grants[i].seen
  {
    RunKeeps(START, acts);
    assert After(START, acts).grants[i] in After(START, acts).grants;
  }

  /** With distinct ticket ids, a ticket and key are accepted at most once. */
  lemma AcceptedAtMostOnce(acts: seq<Action>, i: nat, j: nat)
    requires Runs(START, acts) && Distinct(IssuesOf(acts)) && i < j < |After(START, acts).grants|
    ensures var g := After(START, acts).grants;
            g[i].ticket != g[j].ticket || g[i].key != g[j].key
  {
    RunKeeps(START, acts);
  }

  // ----- distinct ids are needed

  lemma {:induction false} OneMore(s: State, acts: seq<Action>, a: Action)
    requires Runs(s, acts) && Enabled(After(s, acts), a)
    ensures Runs(s, acts + [a]) && After(s, acts + [a]) == Apply(After(s, acts), a)
    ensures IssuesOf(acts + [a]) == IssuesOf(acts) + if a.Issue? then [(a.ticket, a.lifetime)] else []
    decreases acts
  {
    hide Enabled, Apply;
    if acts == [] {
      assert acts + [a] == [a] && [a][1..] == [];
    } else {
      assert (acts + [a])[0] == acts[0] && (acts + [a])[1..] == acts[1..] + [a];
      OneMore(Apply(s, acts[0]), acts[1..], a);
    }
  }

  /** Issuing a list of tickets; the last one, if stored, has seen no key. */
  lemma {:induction false} IssueAll(acts: seq<Action>, issues: seq<(Id, nat)>) returns (acts': seq<Action>)
    requires Runs(START, acts)
    ensures Runs(START, acts') && IssuesOf(acts') == IssuesOf(acts) + issues
    ensures var (s, s') := (After(START, acts), After(START, acts'));
            && s'.now == s.now && s'.tasks == s.tasks && s'.grants == s.grants
            && (issues != [] && issues[|issues| - 1].1 != 0 ==>
                  var (id, lifetime) := issues[|issues| - 1];
                  id in s'.tickets && s'.tickets[id] == Ticket({}, s.now + lifetime * SECOND))
    decreases |issues|
  {
    hide Runs, After, IssuesOf;
    if issues == [] {
      acts' := acts;
    } else {
      var (front, last) := (issues[..|issues| - 1], issues[|issues| - 1]);
      acts' := IssueAll(acts, front);
      OneMore(START, acts', Issue(last.0, last.1));
      acts' := acts' + [Issue(last.0, last.1)];
      assert front + [last] == issues;
    }
  }

  /** Spending a live ticket with a key it has not seen; nothing else happens. */
  lemma Spend(acts: seq<Action>, t: Tid, id: Id, key: Key) returns (acts': seq<Action>)
    requires Runs(START, acts)
    requires var s := After(START, acts);
             t !in s.tasks && id in s.tickets && s.tickets[id].expires > s.now && key !in s.tickets[id].replayKeys
    ensures Runs(START, acts') && IssuesOf(acts') == IssuesOf(acts)
    ensures var (s, s') := (After(START, acts), After(START, acts'));
            && s'.now == s.now && s'.tasks.Keys == s.tasks.Keys + {t}
            && |s'.grants| == |s.grants| + 1 && s'.grants[..|s.grants|] == s.grants
            && s'.grants[|s.grants|].ticket == id && s'.grants[|s.grants|].key == key
  {
    hide Runs, After, IssuesOf;
    OneMore(START, acts, Start(t, id, key));
    acts' := acts + [Start(t, id, key)];
    OneMore(START, acts', Cleanup(t));
    acts' := acts' + [Cleanup(t)];
    OneMore(START, acts', Lookup(t));
    acts' := acts' + [Lookup(t)];
  }

  predicate AcceptedTwice(grants: seq<Grant>) {
    exists i, j | 0 <= i < j < |grants| :: grants[i].ticket == grants[j].ticket && grants[i].key == grants[j].key
  }

  /** In no run with exactly these issues is a ticket accepted twice with one key. */
  ghost predicate NeverTwice(issues: seq<(Id, nat)>) {
    forall acts | Runs(START, acts) && IssuesOf(acts) == issues :: !AcceptedTwice(After(START, acts).grants)
  }

  lemma NothingDone()
    ensures Runs(START, []) && After(START, []) == START && IssuesOf([]) == []
  {
  }

  /** An id issued again forgets the keys it has seen: spent after each issue, it is accepted twice. */
  lemma SpentTwice(issues: seq<(Id, nat)>, i: nat, j: nat) returns (acts: seq<Action>)
    requires i < j < |issues| && issues[i].1 != 0 && issues[j].1 != 0 && issues[i].0 == issues[j].0
    ensures Runs(START, acts) && IssuesOf(acts) == issues && AcceptedTwice(After(START, acts).grants)
  {
    hide Runs, After, IssuesOf;
    NothingDone();
    acts := [];
    var id := issues[i].0;
    acts := IssueAll(acts, issues[..i + 1]);
    acts := Spend(acts, 0, id, 0);
    var first := After(START, acts).grants;
    acts := IssueAll(acts, issues[i + 1..j + 1]);
    acts := Spend(acts, 1, id, 0);
    var second := After(START, acts).grants;
    assert second[0] == second[..1][0] == first[0];
    acts := IssueAll(acts, issues[j + 1..]);
    assert issues[..i + 1] + issues[i + 1..j + 1] + issues[j + 1..] == issues;
    assert second[0].ticket == second[1].ticket && second[0].key == second[1].key;
  }

  /** A ticket and key are never accepted twice, if and only if no id is stored twice. */
  lemma NeverTwiceExactly(issues: seq<(Id, nat)>)
    ensures NeverTwice(issues) <==> Distinct(issues)
  {
    hide Runs, After, IssuesOf;
    if Distinct(issues) {
      forall acts | Runs(START, acts) && IssuesOf(acts) == issues
        ensures !AcceptedTwice(After(START, acts).grants)
      {
        var g := After(START, acts).grants;
        forall i, j | 0 <= i < j < |g|
          ensures g[i].ticket != g[j].ticket || g[i].key != g[j].key
        {
          AcceptedAtMostOnce(acts, i, j);
        }
      }
    } else {
      var i, j :| 0 <= i < j < |issues| && issues[i].1 != 0 && issues[j].1 != 0 && issues[i].0 == issues[j].0;
      var acts := SpentTwice(issues, i, j);
    }
  }

  /** One id issued twice for a second each. */
  lemma ReissueAllowsReplay()
    ensures !NeverTwice([(7, 1), (7, 1)])
  {
    var issues: seq<(Id, nat)> := [(7, 1), (7, 1)];
    assert issues[0].0 == issues[1].0;
    NeverTwiceExactly(issues);
  }
}
