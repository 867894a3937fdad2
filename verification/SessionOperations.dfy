/**
  Whole operations of the session table, each run by one task alone from any state in which the lock it
  needs is free: what it leaves in the table, the counter, the session and its timer, and that nothing
  else has changed.
*/
module SessionOperations {
  import opened Bytes
  import opened SessionTable

  /** By steps of task t alone, s becomes s'. */
  ghost predicate Does(s: State, t: Tid, s': State) { Reach(s, s', Some(t)) }

  predicate Free(s: State, t: Tid, id: Id) { t !in s.tasks && ShardOf(s.cfg, id) !in s.locks }

  lemma Next(s0: State, t: Tid, s: State, a: Action, s': State)
    requires Does(s0, t, s) && Enabled(s, a) && a.t == t && Apply(s, a) == s'
    ensures Does(s0, t, s')
  {
    hide Reach, Enabled, Apply;
    ReachStep(s0, s, a, Some(t));
  }

  lemma Nothing(s: State, t: Tid)
    ensures Does(s, t, s)
  {
    ReachStart(s, Some(t));
  }

  // ----- upsert

  /** The id is there: nothing but the task has changed. */
  lemma UpsertFinds(s: State, t: Tid, id: Id, fc: bool)
    requires Free(s, t, id) && id in s.table
    ensures Does(s, t, Goto(s, t, if fc then OpFlag(s.table[id]) else Done))
  {
    hide Reach, ShardOf;
    Nothing(s, t);
    ReachLocked(s, s, t, id, fc, Some(t));
    var s1 := LockTaken(s, t, id, UpLookup(id, fc));
    Next(s, t, s1, Step(t, 0), Goto(s, t, if fc then OpFlag(s.table[id]) else Done));
  }

  /** The table is full: nothing but the task has changed. */
  lemma UpsertRefused(s: State, t: Tid, id: Id, fc: bool)
    requires Free(s, t, id) && id !in s.table && s.active >= s.cfg.maxSessions
    ensures Does(s, t, Goto(s, t, Done))
  {
    hide Reach, ShardOf;
    Nothing(s, t);
    ReachAbsent(s, s, t, id, fc, Some(t));
    var s1 := LockTaken(s, t, id, UpCheck(id, fc));
    Next(s, t, s1, Step(t, 0), Goto(s, t, Done));
  }

  /** A new session, counted; the caller goes on to start its timer or to open it. */
  function Created(s: State, t: Tid, id: Id, fc: bool, name: Inc): State {
    Put(Goto(s, t, if fc then OpFlag(name) else UpSpawn(id, name)), name, NewSession(id, t, fc))
    .(table := s.table[id := name], active := s.active + 1)
  }

  lemma UpsertCreates(s: State, t: Tid, id: Id, fc: bool, name: Inc)
    requires Free(s, t, id) && id !in s.table && s.active < s.cfg.maxSessions && name !in s.sessions
    ensures Does(s, t, Created(s, t, id, fc, name))
  {
    hide Reach, ShardOf;
    Nothing(s, t);
    ReachChecked(s, s, t, id, fc, Some(t));
    var s1 := LockTaken(s, t, id, UpInsert(id, fc));
    ReachInserted(s, s1, t, id, fc, name, Some(t));
    var s2 := Inserted(s1, t, id, fc, name);
    ReachUnlocked(s, s2, t, id, fc, name, Some(t));
    UnlockedIsCreated(s, t, id, fc, name);
  }

  lemma UnlockedIsCreated(s: State, t: Tid, id: Id, fc: bool, name: Inc)
    requires Free(s, t, id)
    ensures var s2 := Inserted(LockTaken(s, t, id, UpInsert(id, fc)), t, id, fc, name);
            Unlock(Goto(s2, t, if fc then OpFlag(name) else UpSpawn(id, name)), id) == Created(s, t, id, fc, name)
  {
    hide ShardOf;
  }

  /** A session made by push_uplink: not connected, its reader in place, its timer asleep and its handle stored. */
  function Waiting(id: Id, t: Tid, reaper: Tid): Session {
    Session(id, t, reaper, false, true, true, Sleeping, false, 0)
  }

  /** The task moves on and a session changes. */
  function Move(s: State, t: Tid, pc: Pc, inc: Inc, x: Session): State { Put(Goto(s, t, pc), inc, x) }

  lemma MoveAgain(s: State, t: Tid, pc: Pc, inc: Inc, x: Session, pc': Pc, x': Session)
    ensures Move(Move(s, t, pc, inc, x), t, pc', inc, x') == Move(s, t, pc', inc, x')
    ensures Goto(Move(s, t, pc, inc, x), t, pc') == Move(s, t, pc', inc, x)
    ensures Move(Goto(s, t, pc), t, pc', inc, x') == Move(s, t, pc', inc, x')
  {
  }

  lemma TimerSpawns(s0: State, s: State, t: Tid, id: Id, inc: Inc, reaper: Tid)
    requires Does(s0, t, s) && t in s.tasks && s.tasks[t] == UpSpawn(id, inc) && reaper !in s.tasks
    requires inc in s.sessions && s.sessions[inc] == NewSession(id, t, false)
    ensures Does(s0, t, Move(Goto(s, reaper, ReapSleep(inc)), t, UpFlag(id, inc), inc, Waiting(id, t, reaper)))
  {
    hide Does, ShardOf;
    var x := Waiting(id, t, reaper);
    var s1 := Move(Goto(s, reaper, ReapSleep(inc)), t, UpStore(id, inc), inc, x.(slot := false));
    Next(s0, t, s, Step(t, reaper), s1);
    Next(s0, t, s1, Step(t, 0), Move(Goto(s, reaper, ReapSleep(inc)), t, UpFlag(id, inc), inc, x));
  }

  lemma TimerStays(s0: State, s: State, t: Tid, id: Id, inc: Inc)
    requires Does(s0, t, s) && t in s.tasks && s.tasks[t] == UpFlag(id, inc) && inc in s.sessions
    requires !s.sessions[inc].connected && InTable(s, id, inc) && ShardOf(s.cfg, id) !in s.locks
    ensures Does(s0, t, Goto(s, t, Done))
  {
    hide Does, ShardOf;
    Next(s0, t, s, Step(t, 0), Goto(s, t, UpRelook(id, inc)));
    Next(s0, t, Goto(s, t, UpRelook(id, inc)), Step(t, 0), Goto(s, t, Done));
  }

  lemma TimerStarts(s0: State, s: State, t: Tid, id: Id, inc: Inc, reaper: Tid)
    requires Does(s0, t, s) && t in s.tasks && s.tasks[t] == UpSpawn(id, inc) && reaper !in s.tasks
    requires InTable(s, id, inc) && inc in s.sessions && s.sessions[inc] == NewSession(id, t, false)
    requires ShardOf(s.cfg, id) !in s.locks
    ensures Does(s0, t, Move(Goto(s, reaper, ReapSleep(inc)), t, Done, inc, Waiting(id, t, reaper)))
  {
    hide Does, ShardOf;
    TimerSpawns(s0, s, t, id, inc, reaper);
    var s' := Goto(s, reaper, ReapSleep(inc));
    var x := Waiting(id, t, reaper);
    TimerStays(s0, Move(s', t, UpFlag(id, inc), inc, x), t, id, inc);
    MoveAgain(s', t, UpFlag(id, inc), inc, x, Done, x);
  }

  /** An upsert that finds its session opened or removed meanwhile aborts the timer it started and clears the slot. */
  lemma TimerGivenUp(s: State, t: Tid, id: Id, inc: Inc)
    requires t in s.tasks && s.tasks[t] == UpFlag(id, inc) && inc in s.sessions && ShardOf(s.cfg, id) !in s.locks
    requires s.sessions[inc].connected || !InTable(s, id, inc)
    ensures var x := s.sessions[inc];
            var x' := x.(timer := if x.timer == Sleeping then Aborted else x.timer, slot := false);
            Does(s, t, Move(s, t, Done, inc, x'))
  {
    hide Does, ShardOf;
    Nothing(s, t);
    if !s.sessions[inc].connected {
      Next(s, t, s, Step(t, 0), Goto(s, t, UpRelook(id, inc)));
      Next(s, t, Goto(s, t, UpRelook(id, inc)), Step(t, 0), Goto(s, t, UpAbort(id, inc)));
    } else {
      Next(s, t, s, Step(t, 0), Goto(s, t, UpAbort(id, inc)));
    }
    TimerAborts(s, t, id, inc);
  }

  lemma TimerAborts(s: State, t: Tid, id: Id, inc: Inc)
    requires t in s.tasks && inc in s.sessions && Does(s, t, Goto(s, t, UpAbort(id, inc)))
    ensures var x := s.sessions[inc];
            var x' := x.(timer := if x.timer == Sleeping then Aborted else x.timer, slot := false);
            Does(s, t, Move(s, t, Done, inc, x'))
  {
    hide Does;
    var x := s.sessions[inc];
    var x1 := x.(timer := AbortedTimer(x.timer));
    Next(s, t, Goto(s, t, UpAbort(id, inc)), Step(t, 0), Move(s, t, UpClear(id, inc), inc, x1));
    Next(s, t, Move(s, t, UpClear(id, inc), inc, x1), Step(t, 0), Move(s, t, Done, inc, x1.(slot := false)));
  }

  /** The upsert of push_uplink for an absent id. */
  lemma PushCreates(s: State, t: Tid, id: Id, name: Inc, reaper: Tid)
    requires Free(s, t, id) && id !in s.table && s.active < s.cfg.maxSessions && name !in s.sessions
    requires reaper !in s.tasks && reaper != t
    ensures Does(s, t, Move(Goto(s, reaper, ReapSleep(name)), t, Done, name, Waiting(id, t, reaper))
                       .(table := s.table[id := name], active := s.active + 1))
  {
    hide Does, ShardOf;
    UpsertCreates(s, t, id, false, name);
    var s1 := Created(s, t, id, false, name);
    TimerStarts(s, s1, t, id, name, reaper);
    var x := Waiting(id, t, reaper);
    assert s1.tasks[reaper := ReapSleep(name)][t := Done] == s.tasks[reaper := ReapSleep(name)][t := Done];
    assert s1.sessions[name := x] == s.sessions[name := x];
  }

  // ----- open_download

  /** A session that was opened: connected, its timer aborted if it slept, its reader gone. */
  function OpenedOf(x: Session): Session {
    Session(x.id, x.creator, x.reaper, true, false, false,
            if x.slot && x.timer == Sleeping then Aborted else x.timer, x.closed,
            if x.reader then x.downloads + 1 else x.downloads)
  }

  lemma OpenCancels(s0: State, s: State, t: Tid, inc: Inc)
    requires Does(s0, t, s) && t in s.tasks && s.tasks[t] == OpFlag(inc) && inc in s.sessions
    ensures Does(s0, t, Move(s, t, OpTake(inc), inc, CancelTimer(s.sessions[inc].(connected := true))))
  {
    hide Does, CancelTimer;
    var x := s.sessions[inc].(connected := true);
    Next(s0, t, s, Step(t, 0), Move(s, t, OpCancel(inc), inc, x));
    Next(s0, t, Move(s, t, OpCancel(inc), inc, x), Step(t, 0), Move(s, t, OpTake(inc), inc, CancelTimer(x)));
  }

  lemma OpenEnds(s0: State, s: State, t: Tid, inc: Inc)
    requires Does(s0, t, s) && t in s.tasks && s.tasks[t] == OpFlag(inc) && inc in s.sessions
    ensures Does(s0, t, Move(s, t, Done, inc, OpenedOf(s.sessions[inc])))
  {
    hide Does;
    OpenCancels(s0, s, t, inc);
    var x := CancelTimer(s.sessions[inc].(connected := true));
    Next(s0, t, Move(s, t, OpTake(inc), inc, x), Step(t, 0), Move(s, t, Done, inc, OpenedOf(s.sessions[inc])));
  }

  /** Opening a session that is there. */
  lemma OpenFinds(s: State, t: Tid, id: Id)
    requires Free(s, t, id) && id in s.table && s.table[id] in s.sessions
    ensures Does(s, t, Move(s, t, Done, s.table[id], OpenedOf(s.sessions[s.table[id]])))
  {
    hide Does, ShardOf;
    var inc := s.table[id];
    UpsertFinds(s, t, id, true);
    var s1 := Goto(s, t, OpFlag(inc));
    OpenEnds(s, s1, t, inc);
    MoveAgain(s, t, OpFlag(inc), inc, s.sessions[inc], Done, OpenedOf(s.sessions[inc]));
  }

  /** Opening a session that is not there makes it, connected from the start and without a timer. */
  lemma OpenCreates(s: State, t: Tid, id: Id, name: Inc)
    requires Free(s, t, id) && id !in s.table && s.active < s.cfg.maxSessions && name !in s.sessions
    ensures Does(s, t, Move(s, t, Done, name, Session(id, t, t, true, false, false, NoTimer, false, 1))
                       .(table := s.table[id := name], active := s.active + 1))
  {
    hide Does, ShardOf;
    UpsertCreates(s, t, id, true, name);
    var s1 := Created(s, t, id, true, name);
    OpenEnds(s, s1, t, name);
    var x := Session(id, t, t, true, false, false, NoTimer, false, 1);
    assert OpenedOf(NewSession(id, t, true)) == x;
    assert s1.tasks[t := Done] == s.tasks[t := Done] && s1.sessions[name := x] == s.sessions[name := x];
  }

  // ----- remove

  /** A session that was removed: its timer aborted if it slept, its uplink closed. */
  function RemovedOf(x: Session): Session {
    x.(slot := false, timer := if x.slot && x.timer == Sleeping then Aborted else x.timer, closed := true)
  }

  lemma RemoveLocks(s: State, t: Tid, id: Id)
    requires Free(s, t, id)
    ensures Does(s, t, LockTaken(s, t, id, RmRemove(id, None)))
  {
    hide Does, ShardOf;
    Nothing(s, t);
    var s1 := Goto(s, t, RmLock(id, None));
    Next(s, t, s, StartRemove(t, id), s1);
    Next(s, t, s1, Step(t, 0), LockTaken(s, t, id, RmRemove(id, None)));
  }

  /** A removal of an absent id changes nothing but the task. */
  lemma RemoveFindsNothing(s: State, t: Tid, id: Id)
    requires Free(s, t, id) && id !in s.table
    ensures Does(s, t, Goto(s, t, Done))
  {
    hide Does, ShardOf;
    RemoveLocks(s, t, id);
    Next(s, t, LockTaken(s, t, id, RmRemove(id, None)), Step(t, 0), Goto(s, t, Done));
  }

  /** The end of every removal. */
  lemma CloseEnds(s0: State, s: State, t: Tid, inc: Inc)
    requires Does(s0, t, s) && t in s.tasks && s.tasks[t] == RmClose(inc) && inc in s.sessions
    ensures Does(s0, t, Move(s, t, Done, inc, s.sessions[inc].(closed := true)).(active := s.active - 1))
  {
    hide Does;
    var x := s.sessions[inc].(closed := true);
    Next(s0, t, s, Step(t, 0), Move(s, t, RmCount(inc), inc, x));
    Next(s0, t, Move(s, t, RmCount(inc), inc, x), Step(t, 0), Move(s, t, Done, inc, x).(active := s.active - 1));
  }

  lemma RemoveUnlinks(s: State, t: Tid, id: Id)
    requires Free(s, t, id) && id in s.table && s.table[id] in s.sessions
    ensures var inc := s.table[id];
            Does(s, t, Move(s, t, RmClose(inc), inc, CancelTimer(s.sessions[inc])).(table := s.table - {id}))
  {
    hide Does, ShardOf, CancelTimer;
    var inc := s.table[id];
    RemoveLocks(s, t, id);
    var s1 := LockTaken(s, t, id, RmRemove(id, None));
    var s2 := Goto(s, t, RmCancel(inc)).(table := s.table - {id});
    RemoveStep(s, s1, t, id);
    Next(s, t, s1, Step(t, 0), s2);
    Next(s, t, s2, Step(t, 0), Move(s, t, RmClose(inc), inc, CancelTimer(s.sessions[inc])).(table := s.table - {id}));
  }

  lemma RemoveStep(s: State, s1: State, t: Tid, id: Id)
    requires Free(s, t, id) && id in s.table && s1 == LockTaken(s, t, id, RmRemove(id, None))
    ensures Enabled(s1, Step(t, 0))
    ensures Apply(s1, Step(t, 0)) == Goto(s, t, RmCancel(s.table[id])).(table := s.table - {id})
  {
    hide ShardOf;
  }

  /** A removal takes the session out, cancels its timer, closes its uplink and counts it off. */
  lemma RemoveTakes(s: State, t: Tid, id: Id)
    requires Free(s, t, id) && id in s.table && s.table[id] in s.sessions
    ensures var inc := s.table[id];
            Does(s, t, Move(s, t, Done, inc, RemovedOf(s.sessions[inc]))
                       .(table := s.table - {id}, active := s.active - 1))
  {
    hide Does, ShardOf;
    var inc := s.table[id];
    var x := CancelTimer(s.sessions[inc]);
    RemoveUnlinks(s, t, id);
    CloseEnds(s, Move(s, t, RmClose(inc), inc, x).(table := s.table - {id}), t, inc);
    MoveAgain(s, t, RmClose(inc), inc, x, Done, x.(closed := true));
  }

  // ----- the reaper

  lemma ReaperWakes(s: State, t: Tid, inc: Inc)
    requires t in s.tasks && s.tasks[t] == ReapSleep(inc) && inc in s.sessions && s.sessions[inc].timer == Sleeping
    ensures Does(s, t, Move(s, t, ReapCheck(inc), inc, s.sessions[inc].(timer := Fired)))
  {
    hide Does;
    Nothing(s, t);
    Next(s, t, s, Step(t, 0), Move(s, t, ReapCheck(inc), inc, s.sessions[inc].(timer := Fired)));
  }

  /** The reaper of a session with a download changes nothing but the timer. */
  lemma ReaperSpares(s: State, t: Tid, inc: Inc)
    requires t in s.tasks && s.tasks[t] == ReapSleep(inc) && inc in s.sessions && s.sessions[inc].timer == Sleeping
    requires s.sessions[inc].connected
    ensures Does(s, t, Move(s, t, Done, inc, s.sessions[inc].(timer := Spared)))
  {
    hide Does;
    ReaperWakes(s, t, inc);
    var s1 := Move(s, t, ReapCheck(inc), inc, s.sessions[inc].(timer := Fired));
    Next(s, t, s1, Step(t, 0), Move(s, t, Done, inc, s.sessions[inc].(timer := Spared)));
  }

  lemma ReaperUnlinks(s: State, t: Tid, inc: Inc)
    requires t in s.tasks && s.tasks[t] == ReapSleep(inc) && inc in s.sessions && s.sessions[inc].timer == Sleeping
    requires !s.sessions[inc].connected && InTable(s, s.sessions[inc].id, inc)
    requires ShardOf(s.cfg, s.sessions[inc].id) !in s.locks
    ensures var x := s.sessions[inc];
            Does(s, t, Move(s, t, RmClose(inc), inc, x.(timer := Missed))
                       .(table := s.table - {x.id}, reaped := s.reaped + {inc}))
  {
    hide Does, ShardOf;
    var x := s.sessions[inc];
    ReaperMisses(s, t, inc);
    var s2 := Move(s, t, RmLock(x.id, Some(inc)), inc, x.(timer := Missed));
    var s3 := LockTaken(s2, t, x.id, RmRemove(x.id, Some(inc)));
    Next(s, t, s2, Step(t, 0), s3);
    Next(s, t, s3, Step(t, 0),
         Move(s, t, RmClose(inc), inc, x.(timer := Missed)).(table := s.table - {x.id}, reaped := s.reaped + {inc}));
  }

  /** The reaper of a session without one takes it out, closes its uplink and counts it off. */
  lemma ReaperTakes(s: State, t: Tid, inc: Inc)
    requires t in s.tasks && s.tasks[t] == ReapSleep(inc) && inc in s.sessions && s.sessions[inc].timer == Sleeping
    requires !s.sessions[inc].connected && InTable(s, s.sessions[inc].id, inc)
    requires ShardOf(s.cfg, s.sessions[inc].id) !in s.locks
    ensures var x := s.sessions[inc];
            Does(s, t, Move(s, t, Done, inc, x.(timer := Missed, closed := true))
                       .(table := s.table - {x.id}, active := s.active - 1, reaped := s.reaped + {inc}))
  {
    hide Does, ShardOf;
    var x := s.sessions[inc];
    ReaperUnlinks(s, t, inc);
    var x1 := x.(timer := Missed);
    CloseEnds(s, Move(s, t, RmClose(inc), inc, x1).(table := s.table - {x.id}, reaped := s.reaped + {inc}), t, inc);
    MoveAgain(s, t, RmClose(inc), inc, x1, Done, x1.(closed := true));
  }

  lemma ReaperMisses(s: State, t: Tid, inc: Inc)
    requires t in s.tasks && s.tasks[t] == ReapSleep(inc) && inc in s.sessions && s.sessions[inc].timer == Sleeping
    requires !s.sessions[inc].connected
    ensures Does(s, t, Move(s, t, RmLock(s.sessions[inc].id, Some(inc)), inc, s.sessions[inc].(timer := Missed)))
  {
    hide Does;
    ReaperWakes(s, t, inc);
    var x := s.sessions[inc];
    var s1 := Move(s, t, ReapCheck(inc), inc, x.(timer := Fired));
    Next(s, t, s1, Step(t, 0), Move(s, t, RmLock(x.id, Some(inc)), inc, x.(timer := Missed)));
  }

  /** A reaper whose session was replaced by another leaves that one alone. */
  lemma ReaperFindsAnother(s: State, t: Tid, inc: Inc)
    requires t in s.tasks && s.tasks[t] == ReapSleep(inc) && inc in s.sessions && s.sessions[inc].timer == Sleeping
    requires !s.sessions[inc].connected && !InTable(s, s.sessions[inc].id, inc)
    requires ShardOf(s.cfg, s.sessions[inc].id) !in s.locks
    ensures Does(s, t, Move(s, t, Done, inc, s.sessions[inc].(timer := Missed)))
  {
    hide Does, ShardOf;
    var x := s.sessions[inc];
    ReaperMisses(s, t, inc);
    var s2 := Move(s, t, RmLock(x.id, Some(inc)), inc, x.(timer := Missed));
    var s3 := LockTaken(s2, t, x.id, RmRemove(x.id, Some(inc)));
    Next(s, t, s2, Step(t, 0), s3);
    Next(s, t, s3, Step(t, 0), Move(s, t, Done, inc, x.(timer := Missed)));
  }
}
