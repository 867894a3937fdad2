/**
  The sharded session table under concurrency. Every atomic access of `upsert`, `open_download`,
  `remove` and the grace reaper is one step of a machine; any task may take the next step. A shard
  lock has one owner. The per-shard maps are one map here, since an id belongs to one shard.
*/
module SessionTable {
  import opened Bytes
  import opened Sums

  type Id = nat
  type Inc = nat      // one incarnation of a session
  type Tid = nat

  datatype Config = Config(shards: nat, maxSessions: nat, hash: Id -> nat)

  function ShardCount(c: Config): (n: nat)
    ensures n > 0
  {
    if c.shards == 0 then 1 else c.shards
  }

  function ShardOf(c: Config, id: Id): (h: nat)
    ensures h < ShardCount(c)
  {
    c.hash(id) % ShardCount(c)
  }

  /** A grace timer sleeps until it fires or is aborted; once fired, its check finds a download or none. */
  datatype Timer = NoTimer | Sleeping | Aborted | Fired | Spared | Missed

  /** `creator` and `reaper` are the tasks that made the session and sleep for it; `slot` holds the timer's
      handle; `downloads` counts the readers handed out. */
  datatype Session = Session(id: Id, creator: Tid, reaper: Tid, connected: bool, reader: bool, slot: bool,
                             timer: Timer, closed: bool, downloads: nat)

  /** Where a task stands. Those marked L hold the lock of their id's shard. */
  datatype Pc =
    | UpLock(id: Id, fc: bool)
    | UpLookup(id: Id, fc: bool)              // L
    | UpCheck(id: Id, fc: bool)               // L, load of the counter
    | UpInsert(id: Id, fc: bool)              // L, the check passed
    | UpCount(id: Id, inc: Inc, fc: bool)     // L, inserted but not counted
    | UpUnlock(id: Id, inc: Inc, fc: bool)    // L
    | UpSpawn(id: Id, inc: Inc)
    | UpStore(id: Id, inc: Inc)               // store of the timer handle
    | UpFlag(id: Id, inc: Inc)                // load of the connected flag
    | UpRelook(id: Id, inc: Inc)              // second look into the map
    | UpAbort(id: Id, inc: Inc)
    | UpClear(id: Id, inc: Inc)
    | OpFlag(inc: Inc)                        // store of the connected flag
    | OpCancel(inc: Inc)                      // take the handle and abort
    | OpTake(inc: Inc)                        // take the reader
    | RmLock(id: Id, expected: Option<Inc>)
    | RmRemove(id: Id, expected: Option<Inc>) // L
    | RmCancel(inc: Inc)                      // take the handle and abort
    | RmClose(inc: Inc)
    | RmCount(inc: Inc)
    | ReapSleep(inc: Inc)
    | ReapCheck(inc: Inc)                     // load of the connected flag
    | Done

  datatype State = State(cfg: Config, table: map<Id, Inc>, sessions: map<Inc, Session>, active: int,
                         locks: map<nat, Tid>, tasks: map<Tid, Pc>, reaped: set<Inc>)

  datatype Action =
    | StartUpsert(t: Tid, id: Id, fc: bool)   // push_uplink, or open_download when fc
    | StartRemove(t: Tid, id: Id)
    | Step(t: Tid, name: nat)                // `name` names a new incarnation or the reaper task
    | ReapGone(t: Tid)                        // the session object is already gone

  function Init(cfg: Config): State { State(cfg, map[], map[], 0, map[], map[], {}) }

  function Goto(s: State, t: Tid, pc: Pc): State { s.(tasks := s.tasks[t := pc]) }

  function Unlock(s: State, id: Id): State { s.(locks := s.locks - {ShardOf(s.cfg, id)}) }

  function Put(s: State, inc: Inc, x: Session): State { s.(sessions := s.sessions[inc := x]) }

  predicate InTable(s: State, id: Id, inc: Inc) { id in s.table && s.table[id] == inc }

  /** Taking the handle out of the slot and aborting the timer is one step: the slot's lock is held over both. */
  function CancelTimer(x: Session): Session {
    if x.slot then x.(slot := false, timer := AbortedTimer(x.timer)) else x
  }

  /** An abort stops a timer only while it sleeps. */
  function AbortedTimer(t: Timer): Timer { if t == Sleeping then Aborted else t }

  function IncOf(pc: Pc): Option<Inc> {
    match pc
    case UpCount(_, inc, _) => Some(inc)
    case UpUnlock(_, inc, _) => Some(inc)
    case UpSpawn(_, inc) => Some(inc)
    case UpStore(_, inc) => Some(inc)
    case UpFlag(_, inc) => Some(inc)
    case UpRelook(_, inc) => Some(inc)
    case UpAbort(_, inc) => Some(inc)
    case UpClear(_, inc) => Some(inc)
    case OpFlag(inc) => Some(inc)
    case OpCancel(inc) => Some(inc)
    case OpTake(inc) => Some(inc)
    case RmLock(_, e) => e
    case RmRemove(_, e) => e
    case RmCancel(inc) => Some(inc)
    case RmClose(inc) => Some(inc)
    case RmCount(inc) => Some(inc)
    case ReapSleep(inc) => Some(inc)
    case ReapCheck(inc) => Some(inc)
    case _ => None
  }

  /** Steps of upsert under the shard lock. */
  predicate InLockedPart(pc: Pc) {
    pc.UpLock? || pc.UpLookup? || pc.UpCheck? || pc.UpInsert? || pc.UpCount? || pc.UpUnlock?
  }

  function StepLocked(s: State, t: Tid, name: nat): State
    requires t in s.tasks && InLockedPart(s.tasks[t])
  {
    match s.tasks[t]
    case UpLock(id, fc) => Goto(s, t, UpLookup(id, fc)).(locks := s.locks[ShardOf(s.cfg, id) := t])
    case UpLookup(id, fc) =>
      if id in s.table then Unlock(Goto(s, t, if fc then OpFlag(s.table[id]) else Done), id)
      else Goto(s, t, UpCheck(id, fc))
    case UpCheck(id, fc) =>
      if s.active >= s.cfg.maxSessions then Unlock(Goto(s, t, Done), id) else Goto(s, t, UpInsert(id, fc))
    case UpInsert(id, fc) =>
      Put(Goto(s, t, UpCount(id, name, fc)), name, NewSession(id, t, fc))
      .(table := s.table[id := name])
    case UpCount(id, inc, fc) => Goto(s, t, UpUnlock(id, inc, fc)).(active := s.active + 1)
    case UpUnlock(id, inc, fc) => Unlock(Goto(s, t, if fc then OpFlag(inc) else UpSpawn(id, inc)), id)
  }

  /** Steps of upsert that start the grace timer. */
  predicate InTimerPart(pc: Pc) {
    pc.UpSpawn? || pc.UpStore? || pc.UpFlag? || pc.UpRelook? || pc.UpAbort? || pc.UpClear?
  }

  function StepTimer(s: State, t: Tid, name: nat): State
    requires t in s.tasks && InTimerPart(s.tasks[t]) && s.tasks[t].inc in s.sessions
  {
    var x := s.sessions[s.tasks[t].inc];
    match s.tasks[t]
    case UpSpawn(id, inc) =>
      Put(Goto(Goto(s, t, UpStore(id, inc)), name, ReapSleep(inc)), inc, x.(timer := Sleeping, reaper := name))
    case UpStore(id, inc) => Put(Goto(s, t, UpFlag(id, inc)), inc, x.(slot := true))
    case UpFlag(id, inc) => Goto(s, t, if x.connected then UpAbort(id, inc) else UpRelook(id, inc))
    case UpRelook(id, inc) => Goto(s, t, if InTable(s, id, inc) then Done else UpAbort(id, inc))
    case UpAbort(id, inc) => Put(Goto(s, t, UpClear(id, inc)), inc, x.(timer := AbortedTimer(x.timer)))
    case UpClear(id, inc) => Put(Goto(s, t, Done), inc, x.(slot := false))
  }

  /** Steps of open_download after its upsert. */
  predicate InOpenPart(pc: Pc) { pc.OpFlag? || pc.OpCancel? || pc.OpTake? }

  function StepOpen(s: State, t: Tid): State
    requires t in s.tasks && InOpenPart(s.tasks[t]) && s.tasks[t].inc in s.sessions
  {
    var x := s.sessions[s.tasks[t].inc];
    match s.tasks[t]
    case OpFlag(inc) => Put(Goto(s, t, OpCancel(inc)), inc, x.(connected := true))
    case OpCancel(inc) => Put(Goto(s, t, OpTake(inc)), inc, CancelTimer(x))
    case OpTake(inc) =>
      Put(Goto(s, t, Done), inc, if x.reader then x.(reader := false, downloads := x.downloads + 1) else x)
  }

  /** Steps of remove_inner, called by remove (nothing expected) or by a reaper (its own session expected). */
  predicate InRemovePart(pc: Pc) { pc.RmLock? || pc.RmRemove? || pc.RmCancel? || pc.RmClose? || pc.RmCount? }

  function StepRemove(s: State, t: Tid): State
    requires t in s.tasks && InRemovePart(s.tasks[t])
    requires s.tasks[t].RmCancel? || s.tasks[t].RmClose? ==> s.tasks[t].inc in s.sessions
  {
    match s.tasks[t]
    case RmLock(id, e) => Goto(s, t, RmRemove(id, e)).(locks := s.locks[ShardOf(s.cfg, id) := t])
    case RmRemove(id, e) =>
      if id !in s.table || (e.Some? && s.table[id] != e.value) then Unlock(Goto(s, t, Done), id)
      else
        var inc := s.table[id];
        Unlock(Goto(s, t, if e.None? then RmCancel(inc) else RmClose(inc)), id)
        .(table := s.table - {id}, reaped := if e.Some? then s.reaped + {inc} else s.reaped)
    case RmCancel(inc) => Put(Goto(s, t, RmClose(inc)), inc, CancelTimer(s.sessions[inc]))
    case RmClose(inc) => Put(Goto(s, t, RmCount(inc)), inc, s.sessions[inc].(closed := true))
    case RmCount(inc) => Goto(s, t, Done).(active := s.active - 1)
  }

  /** Steps of a reaper up to its check. */
  predicate InReapPart(pc: Pc) { pc.ReapSleep? || pc.ReapCheck? }

  function StepReap(s: State, t: Tid): State
    requires t in s.tasks && InReapPart(s.tasks[t]) && s.tasks[t].inc in s.sessions
  {
    var x := s.sessions[s.tasks[t].inc];
    match s.tasks[t]
    case ReapSleep(inc) => Put(Goto(s, t, ReapCheck(inc)), inc, x.(timer := Fired))
    case ReapCheck(inc) =>
      if x.connected then Put(Goto(s, t, Done), inc, x.(timer := Spared))
      else Put(Goto(s, t, RmLock(x.id, Some(inc))), inc, x.(timer := Missed))
  }

  predicate Enabled(s: State, a: Action) {
    match a
    case StartUpsert(t, _, _) => t !in s.tasks
    case StartRemove(t, _) => t !in s.tasks
    case ReapGone(t) => t in s.tasks && s.tasks[t].ReapCheck?
    case Step(t, name) =>
      t in s.tasks
      && (IncOf(s.tasks[t]).Some? ==> IncOf(s.tasks[t]).value in s.sessions)
      && CanStep(s, s.tasks[t], name)
  }

  /** A lock must be free to be taken, a new name must be unused, and only a sleeping timer can fire. */
  predicate CanStep(s: State, pc: Pc, name: nat)
    requires IncOf(pc).Some? ==> IncOf(pc).value in s.sessions
  {
    match pc
    case UpLock(id, _) => ShardOf(s.cfg, id) !in s.locks
    case RmLock(id, _) => ShardOf(s.cfg, id) !in s.locks
    case UpRelook(id, _) => ShardOf(s.cfg, id) !in s.locks
    case UpInsert(_, _) => name !in s.sessions
    case UpSpawn(_, _) => name !in s.tasks
    case ReapSleep(inc) => s.sessions[inc].timer == Sleeping
    case Done => false
    case _ => true
  }

  function Apply(s: State, a: Action): State
    requires Enabled(s, a)
  {
    match a
    case StartUpsert(t, id, fc) => Goto(s, t, UpLock(id, fc))
    case StartRemove(t, id) => Goto(s, t, RmLock(id, None))
    case ReapGone(t) => Goto(s, t, Done)
    case Step(t, name) =>
      var pc := s.tasks[t];
      if InLockedPart(pc) then StepLocked(s, t, name)
      else if InTimerPart(pc) then StepTimer(s, t, name)
      else if InOpenPart(pc) then StepOpen(s, t)
      else if InRemovePart(pc) then StepRemove(s, t)
      else StepReap(s, t)
  }

  predicate Runs(s: State, acts: seq<Action>)
    decreases acts
  {
    acts != [] ==> Enabled(s, acts[0]) && Runs(Apply(s, acts[0]), acts[1..])
  }

  function After(s: State, acts: seq<Action>): State
    requires Runs(s, acts)
    decreases acts
  {
    if acts == [] then s else After(Apply(s, acts[0]), acts[1..])
  }

  // ----- one owner per lock

  /** The id whose shard lock the task holds. */
  function Holds(pc: Pc): Option<Id> {
    match pc
    case UpLookup(id, _) => Some(id)
    case UpCheck(id, _) => Some(id)
    case UpInsert(id, _) => Some(id)
    case UpCount(id, _, _) => Some(id)
    case UpUnlock(id, _, _) => Some(id)
    case RmRemove(id, _) => Some(id)
    case _ => None
  }

  /** Whoever is past a lock owns it. */
  ghost predicate Locked(c: Config, tasks: map<Tid, Pc>, locks: map<nat, Tid>) {
    && (forall t | t in tasks && Holds(tasks[t]).Some? ::
          var h := ShardOf(c, Holds(tasks[t]).value); h in locks && locks[h] == t)
    && (forall h | h in locks :: h < ShardCount(c))
  }

  /** A task moves on without touching a lock it did not hold before. */
  lemma LockedGoto(c: Config, tasks: map<Tid, Pc>, locks: map<nat, Tid>, t: Tid, pc: Pc)
    requires Locked(c, tasks, locks)
    requires Holds(pc).None? || (t in tasks && Holds(tasks[t]) == Holds(pc))
    ensures Locked(c, tasks[t := pc], locks)
  {
  }

  lemma LockedAcquire(c: Config, tasks: map<Tid, Pc>, locks: map<nat, Tid>, t: Tid, id: Id, pc: Pc)
    requires Locked(c, tasks, locks) && ShardOf(c, id) !in locks && Holds(pc) == Some(id)
    ensures Locked(c, tasks[t := pc], locks[ShardOf(c, id) := t])
  {
  }

  lemma LockedRelease(c: Config, tasks: map<Tid, Pc>, locks: map<nat, Tid>, t: Tid, id: Id, pc: Pc)
    requires Locked(c, tasks, locks) && t in tasks && Holds(tasks[t]) == Some(id) && Holds(pc).None?
    ensures Locked(c, tasks[t := pc], locks - {ShardOf(c, id)})
  {
  }

  /** What a step does to tasks and locks: its task moves, a spawn adds a task, a lock is taken or given back. */
  ghost predicate Shape(s: State, t: Tid, name: nat, s': State)
    requires t in s.tasks
  {
    && s'.cfg == s.cfg
    && t in s'.tasks
    && var (pc, pc') := (s.tasks[t], s'.tasks[t]);
    && s'.tasks == (if pc.UpSpawn? then s.tasks[t := pc'][name := ReapSleep(pc.inc)] else s.tasks[t := pc'])
    && (if pc.UpLock? || pc.RmLock? then Holds(pc') == Some(pc.id) && s'.locks == s.locks[ShardOf(s.cfg, pc.id) := t]
        else if Holds(pc') == Holds(pc) then s'.locks == s.locks
        else Holds(pc').None? && s'.locks == s.locks - {ShardOf(s.cfg, Holds(pc).value)})
  }

  /** Inserted but not yet counted. */
  function InFlight(pc: Pc): nat { if pc.UpCount? then 1 else 0 }

  /** Removed but not yet discounted. */
  function Leaving(pc: Pc): nat { if pc.RmCancel? || pc.RmClose? || pc.RmCount? then 1 else 0 }

  /** What a step does to the table and the counter. */
  ghost predicate TableShape(s: State, t: Tid, name: nat, s': State)
    requires t in s.tasks && t in s'.tasks
  {
    var (pc, pc') := (s.tasks[t], s'.tasks[t]);
    && (pc'.UpCheck? ==> Holds(pc) == Some(pc'.id) && pc'.id !in s.table)
    && (pc'.UpInsert? ==> pc == UpCheck(pc'.id, pc'.fc) && s.active < s.cfg.maxSessions)
    && if pc.UpInsert? then pc' == UpCount(pc.id, name, pc.fc) && s'.table == s.table[pc.id := name]
        && s'.active == s.active
       else if pc.UpCount? then s'.table == s.table && s'.active == s.active + 1 && pc'.UpUnlock?
       else if pc.RmRemove? && Leaving(pc') == 1 then
         pc.id in s.table && s'.table == s.table - {pc.id} && s'.active == s.active
       else if pc.RmCount? then s'.table == s.table && s'.active == s.active - 1 && pc' == Done
       else s'.table == s.table && s'.active == s.active && InFlight(pc') == 0 && Leaving(pc') == Leaving(pc)
  }

  lemma ShapeLocked(s: State, t: Tid, name: nat)
    requires t in s.tasks && InLockedPart(s.tasks[t])
    ensures Shape(s, t, name, StepLocked(s, t, name)) && TableShape(s, t, name, StepLocked(s, t, name))
  {
    hide ShardOf;
  }

  lemma ShapeTimer(s: State, t: Tid, name: nat)
    requires t in s.tasks && InTimerPart(s.tasks[t]) && s.tasks[t].inc in s.sessions && CanStep(s, s.tasks[t], name)
    ensures Shape(s, t, name, StepTimer(s, t, name)) && TableShape(s, t, name, StepTimer(s, t, name))
  {
    hide ShardOf, InTable, AbortedTimer;
  }

  lemma ShapeOpen(s: State, t: Tid, name: nat)
    requires t in s.tasks && InOpenPart(s.tasks[t]) && s.tasks[t].inc in s.sessions
    ensures Shape(s, t, name, StepOpen(s, t)) && TableShape(s, t, name, StepOpen(s, t))
  {
    hide ShardOf, CancelTimer;
  }

  lemma ShapeRemove(s: State, t: Tid, name: nat)
    requires t in s.tasks && InRemovePart(s.tasks[t])
    requires s.tasks[t].RmCancel? || s.tasks[t].RmClose? ==> s.tasks[t].inc in s.sessions
    ensures Shape(s, t, name, StepRemove(s, t)) && TableShape(s, t, name, StepRemove(s, t))
  {
    hide ShardOf, CancelTimer;
  }

  lemma ShapeReap(s: State, t: Tid, name: nat)
    requires t in s.tasks && InReapPart(s.tasks[t]) && s.tasks[t].inc in s.sessions
    ensures Shape(s, t, name, StepReap(s, t)) && TableShape(s, t, name, StepReap(s, t))
  {
    hide ShardOf;
  }

  lemma ShapeStep(s: State, t: Tid, name: nat)
    requires Enabled(s, Step(t, name))
    ensures Shape(s, t, name, Apply(s, Step(t, name))) && TableShape(s, t, name, Apply(s, Step(t, name)))
  {
    hide Shape, TableShape, StepLocked, StepTimer, StepOpen, StepRemove, StepReap;
    var pc := s.tasks[t];
    if InLockedPart(pc) {
      ShapeLocked(s, t, name);
    } else if InTimerPart(pc) {
      ShapeTimer(s, t, name);
    } else if InOpenPart(pc) {
      ShapeOpen(s, t, name);
    } else if InRemovePart(pc) {
      ShapeRemove(s, t, name);
    } else {
      ShapeReap(s, t, name);
    }
  }

  lemma LockedStep(s: State, a: Action)
    requires Locked(s.cfg, s.tasks, s.locks) && Enabled(s, a)
    ensures Locked(s.cfg, Apply(s, a).tasks, Apply(s, a).locks) && Apply(s, a).cfg == s.cfg
  {
    match a
    case StartUpsert(t, id, fc) => LockedGoto(s.cfg, s.tasks, s.locks, t, UpLock(id, fc));
    case StartRemove(t, id) => LockedGoto(s.cfg, s.tasks, s.locks, t, RmLock(id, None));
    case ReapGone(t) => LockedGoto(s.cfg, s.tasks, s.locks, t, Done);
    case Step(t, name) => LockedTaskStep(s, t, name);
  }

  lemma LockedTaskStep(s: State, t: Tid, name: nat)
    requires Locked(s.cfg, s.tasks, s.locks) && Enabled(s, Step(t, name))
    ensures var s' := Apply(s, Step(t, name));
            s'.cfg == s.cfg && Locked(s.cfg, s'.tasks, s'.locks)
  {
    ShapeStep(s, t, name);
    hide Locked, Apply, ShardOf, IncOf, TableShape;
    var s' := Apply(s, Step(t, name));
    var (pc, pc') := (s.tasks[t], s'.tasks[t]);
    if pc.UpLock? || pc.RmLock? {
      LockedAcquire(s.cfg, s.tasks, s.locks, t, pc.id, pc');
    } else if Holds(pc') == Holds(pc) {
      LockedGoto(s.cfg, s.tasks, s.locks, t, pc');
      if pc.UpSpawn? {
        LockedGoto(s.cfg, s.tasks[t := pc'], s.locks, name, ReapSleep(pc.inc));
      }
    } else {
      LockedRelease(s.cfg, s.tasks, s.locks, t, Holds(pc).value, pc');
    }
  }

  // ----- the counter

  /** What a task found in the table stays true while it holds the lock. */
  ghost predicate Looked(tasks: map<Tid, Pc>, table: map<Id, Inc>) {
    forall t | t in tasks ::
      && (tasks[t].UpCheck? || tasks[t].UpInsert? ==> tasks[t].id !in table)
      && (tasks[t].UpCount? ==> tasks[t].id in table && table[tasks[t].id] == tasks[t].inc)
  }

  lemma LookedStep(s: State, a: Action)
    requires Locked(s.cfg, s.tasks, s.locks) && Looked(s.tasks, s.table) && Enabled(s, a)
    ensures Looked(Apply(s, a).tasks, Apply(s, a).table)
  {
    if a.Step? {
      ShapeStep(s, a.t, a.name);
      hide Apply, ShardOf, IncOf, CanStep;
      var s' := Apply(s, a);
      forall u | u in s'.tasks
        ensures && (s'.tasks[u].UpCheck? || s'.tasks[u].UpInsert? ==> s'.tasks[u].id !in s'.table)
                && (s'.tasks[u].UpCount? ==> s'.tasks[u].id in s'.table && s'.table[s'.tasks[u].id] == s'.tasks[u].inc)
      {
        if u != a.t && u in s.tasks {
          OneOwner(s, a.t, u);
        }
      }
    }
  }

  /** Two tasks that hold locks hold the locks of different ids. */
  lemma OneOwner(s: State, t: Tid, u: Tid)
    requires Locked(s.cfg, s.tasks, s.locks) && t in s.tasks && u in s.tasks && t != u
    ensures Holds(s.tasks[t]).Some? && Holds(s.tasks[u]).Some? ==>
              ShardOf(s.cfg, Holds(s.tasks[t]).value) != ShardOf(s.cfg, Holds(s.tasks[u]).value)
              && Holds(s.tasks[t]).value != Holds(s.tasks[u]).value
  {
    hide ShardOf;
  }

  ghost function InFlightCount(tasks: map<Tid, Pc>): nat { SumBy(tasks, pc => InFlight(pc)) }

  ghost function LeavingCount(tasks: map<Tid, Pc>): nat { SumBy(tasks, pc => Leaving(pc)) }

  /** The counter differs from the size of the table by the operations that are half done. */
  ghost predicate Counted(s: State) {
    s.active == |s.table| - InFlightCount(s.tasks) + LeavingCount(s.tasks)
  }

  lemma CountsMove(tasks: map<Tid, Pc>, t: Tid, pc: Pc)
    requires t in tasks
    ensures InFlightCount(tasks[t := pc]) == InFlightCount(tasks) - InFlight(tasks[t]) + InFlight(pc)
    ensures LeavingCount(tasks[t := pc]) == LeavingCount(tasks) - Leaving(tasks[t]) + Leaving(pc)
  {
    SumByUpdate(tasks, pc => InFlight(pc), t, pc);
    SumByUpdate(tasks, pc => Leaving(pc), t, pc);
  }

  lemma CountsAdd(tasks: map<Tid, Pc>, t: Tid, pc: Pc)
    requires t !in tasks && InFlight(pc) == 0 && Leaving(pc) == 0
    ensures InFlightCount(tasks[t := pc]) == InFlightCount(tasks) && LeavingCount(tasks[t := pc]) == LeavingCount(tasks)
  {
    SumByInsert(tasks, pc => InFlight(pc), t, pc);
    SumByInsert(tasks, pc => Leaving(pc), t, pc);
  }

  lemma TableSize(table: map<Id, Inc>, id: Id, inc: Inc)
    ensures id !in table ==> |table[id := inc]| == |table| + 1
    ensures id in table ==> |table - {id}| == |table| - 1
  {
    assert table[id := inc].Keys == table.Keys + {id};
    assert (table - {id}).Keys == table.Keys - {id};
  }

  /** The table and the counter move apart as its task becomes half done. */
  lemma TableMove(s: State, t: Tid, name: nat, s': State)
    requires Looked(s.tasks, s.table) && t in s.tasks && t in s'.tasks && TableShape(s, t, name, s')
    ensures var (pc, pc') := (s.tasks[t], s'.tasks[t]);
            s'.active - |s'.table| == s.active - |s.table| + InFlight(pc) - InFlight(pc') + Leaving(pc') - Leaving(pc)
  {
    var pc := s.tasks[t];
    if pc.UpInsert? || pc.RmRemove? {
      TableSize(s.table, pc.id, name);
    }
  }

  lemma CountedTaskStep(s: State, t: Tid, name: nat)
    requires Counted(s) && Looked(s.tasks, s.table) && Enabled(s, Step(t, name))
    ensures Counted(Apply(s, Step(t, name)))
  {
    ShapeStep(s, t, name);
    var s' := Apply(s, Step(t, name));
    var (pc, pc') := (s.tasks[t], s'.tasks[t]);
    CountsMove(s.tasks, t, pc');
    if pc.UpSpawn? {
      CountsAdd(s.tasks[t := pc'], name, ReapSleep(pc.inc));
    }
    TableMove(s, t, name, s');
    hide Apply, InFlightCount, LeavingCount, ShardOf, IncOf, CanStep, TableShape, Looked;
  }

  lemma CountedStep(s: State, a: Action)
    requires Counted(s) && Looked(s.tasks, s.table) && Enabled(s, a)
    ensures Counted(Apply(s, a))
  {
    match a
    case StartUpsert(t, id, fc) => CountsAdd(s.tasks, t, UpLock(id, fc));
    case StartRemove(t, id) => CountsAdd(s.tasks, t, RmLock(id, None));
    case ReapGone(t) => CountsMove(s.tasks, t, Done);
    case Step(t, name) => CountedTaskStep(s, t, name);
  }

  /** Every insert in flight has its own entry in the table. */
  lemma InFlightInTable(s: State)
    requires Locked(s.cfg, s.tasks, s.locks) && Looked(s.tasks, s.table)
    ensures InFlightCount(s.tasks) <= |s.table|
  {
    var tag := (pc: Pc) => if pc.UpCount? then pc.id else 0;
    forall t, u | t in s.tasks && u in s.tasks && t != u && InFlight(s.tasks[t]) == 1 && InFlight(s.tasks[u]) == 1
      ensures tag(s.tasks[t]) != tag(s.tasks[u])
    {
      OneOwner(s, t, u);
    }
    CountAtMost(s.tasks, pc => InFlight(pc), tag, s.table.Keys);
  }

  ghost predicate CounterInv(s: State) { Locked(s.cfg, s.tasks, s.locks) && Looked(s.tasks, s.table) && Counted(s) }

  lemma {:induction false} CounterRun(s: State, acts: seq<Action>)
    requires CounterInv(s) && Runs(s, acts)
    ensures CounterInv(After(s, acts)) && After(s, acts).cfg == s.cfg
    decreases acts
  {
    if acts == [] {
    } else {
      LockedStep(s, acts[0]);
      LookedStep(s, acts[0]);
      CountedStep(s, acts[0]);
      hide Locked, Looked, Counted;
      CounterRun(Apply(s, acts[0]), acts[1..]);
    }
  }

  /** No upsert and no removal is between its map access and its counter access. */
  predicate Quiescent(s: State) { forall t | t in s.tasks :: InFlight(s.tasks[t]) == 0 && Leaving(s.tasks[t]) == 0 }

  lemma {:induction false} NothingHalfDone(tasks: map<Tid, Pc>)
    requires forall t | t in tasks :: InFlight(tasks[t]) == 0 && Leaving(tasks[t]) == 0
    ensures InFlightCount(tasks) == 0 && LeavingCount(tasks) == 0
    decreases |tasks|
  {
    if tasks == map[] {
    } else {
      var t :| t in tasks;
      SumByRemove(tasks, pc => InFlight(pc), t);
      SumByRemove(tasks, pc => Leaving(pc), t);
      NothingHalfDone(tasks - {t});
    }
  }

  /**
    In every interleaving the counter is never negative, a removal that is about to subtract finds it
    positive, and when nothing is half done it is the number of sessions.
  */
  lemma ActiveCountsSessions(cfg: Config, acts: seq<Action>)
    requires Runs(Init(cfg), acts)
    ensures var s := After(Init(cfg), acts);
            && s.active >= 0
            && (forall t | t in s.tasks && s.tasks[t].RmCount? :: s.active >= 1)
            && (Quiescent(s) ==> s.active == |s.table|)
  {
    NothingHalfDone(map[]);
    CounterRun(Init(cfg), acts);
    var s := After(Init(cfg), acts);
    InFlightInTable(s);
    forall t | t in s.tasks && s.tasks[t].RmCount?
      ensures s.active >= 1
    {
      SumByRemove(s.tasks, pc => Leaving(pc), t);
    }
    if Quiescent(s) {
      NothingHalfDone(s.tasks);
    }
  }

  // ----- the session limit

  /** Past the check of the limit, not yet counted; all of them hold a shard lock. */
  function Passed(pc: Pc): nat { if pc.UpInsert? || pc.UpCount? then 1 else 0 }

  ghost function PassedCount(tasks: map<Tid, Pc>): nat { SumBy(tasks, pc => Passed(pc)) }

  /** Every state of the run has at most k upserts past their check. */
  ghost predicate AtMostPassed(s: State, acts: seq<Action>, k: nat)
    requires Runs(s, acts)
    decreases acts
  {
    PassedCount(s.tasks) <= k && (acts != [] ==> AtMostPassed(Apply(s, acts[0]), acts[1..], k))
  }

  lemma PassedMove(s: State, a: Action)
    requires Enabled(s, a)
    ensures var s' := Apply(s, a);
            s'.active + PassedCount(s'.tasks) <= s.active + PassedCount(s.tasks)
            || s'.active == s.active < s.cfg.maxSessions
  {
    var s' := Apply(s, a);
    match a
    case StartUpsert(t, id, fc) => SumByInsert(s.tasks, pc => Passed(pc), t, UpLock(id, fc));
    case StartRemove(t, id) => SumByInsert(s.tasks, pc => Passed(pc), t, RmLock(id, None));
    case ReapGone(t) => SumByUpdate(s.tasks, pc => Passed(pc), t, Done);
    case Step(t, name) =>
      ShapeStep(s, t, name);
      var pc' := s'.tasks[t];
      SumByUpdate(s.tasks, pc => Passed(pc), t, pc');
      if s.tasks[t].UpSpawn? {
        SumByInsert(s.tasks[t := pc'], pc => Passed(pc), name, ReapSleep(s.tasks[t].inc));
      }
      hide Apply, ShardOf, IncOf, CanStep;
  }

  /** With at most k upserts past their check at a time, the counter and those never exceed the limit by k or more. */
  lemma {:induction false} LimitWithin(s: State, acts: seq<Action>, k: nat)
    requires k >= 1 && Runs(s, acts) && AtMostPassed(s, acts, k)
    requires s.active + PassedCount(s.tasks) <= s.cfg.maxSessions + k - 1
    ensures var s' := After(s, acts);
            s'.cfg == s.cfg && s'.active + PassedCount(s'.tasks) <= s.cfg.maxSessions + k - 1
    decreases acts
  {
    if acts == [] {
    } else {
      PassedMove(s, acts[0]);
      ConfigFixed(s, acts[0]);
      hide PassedCount;
      LimitWithin(Apply(s, acts[0]), acts[1..], k);
    }
  }

  lemma ConfigFixed(s: State, a: Action)
    requires Enabled(s, a)
    ensures Apply(s, a).cfg == s.cfg
  {
    if a.Step? {
      ShapeStep(s, a.t, a.name);
      hide Apply;
    }
  }

  lemma {:induction false} RangeSize(n: nat) returns (r: set<nat>)
    ensures |r| == n && forall h: nat :: h in r <==> h < n
  {
    if n == 0 {
      r := {};
    } else {
      var q := RangeSize(n - 1);
      r := q + {n - 1};
    }
  }

  /** There is a lock for each of them, so at most one per shard in use. */
  lemma PassedPerShard(s: State, shards: set<nat>)
    requires Locked(s.cfg, s.tasks, s.locks) && forall id :: ShardOf(s.cfg, id) in shards
    ensures PassedCount(s.tasks) <= |shards|
  {
    var tag: Pc -> nat := (pc: Pc) => if Holds(pc).Some? then ShardOf(s.cfg, Holds(pc).value) else 0;
    forall t, u | t in s.tasks && u in s.tasks && t != u && Passed(s.tasks[t]) == 1 && Passed(s.tasks[u]) == 1
      ensures tag(s.tasks[t]) != tag(s.tasks[u])
    {
      OneOwner(s, t, u);
    }
    CountAtMost(s.tasks, pc => Passed(pc), tag, shards);
  }

  lemma {:induction false} AlwaysPerShard(s: State, acts: seq<Action>, shards: set<nat>)
    requires Locked(s.cfg, s.tasks, s.locks) && Runs(s, acts) && forall id :: ShardOf(s.cfg, id) in shards
    ensures AtMostPassed(s, acts, |shards|)
    decreases acts
  {
    PassedPerShard(s, shards);
    if acts == [] {
    } else {
      LockedStep(s, acts[0]);
      hide Locked, PassedCount, ShardOf;
      AlwaysPerShard(Apply(s, acts[0]), acts[1..], shards);
    }
  }

  /**
    In every interleaving the counter plus the inserts in flight exceed the limit by less than the
    number of shards; if upserts pass their check one at a time, they never exceed it.
  */
  lemma LimitOverrun(cfg: Config, acts: seq<Action>)
    requires Runs(Init(cfg), acts)
    ensures var s := After(Init(cfg), acts);
            && s.active + InFlightCount(s.tasks) <= cfg.maxSessions + ShardCount(cfg) - 1
            && (AtMostPassed(Init(cfg), acts, 1) ==> s.active + InFlightCount(s.tasks) <= cfg.maxSessions)
  {
    var s := After(Init(cfg), acts);
    var shards := RangeSize(ShardCount(cfg));
    AlwaysPerShard(Init(cfg), acts, shards);
    LimitWithin(Init(cfg), acts, ShardCount(cfg));
    if AtMostPassed(Init(cfg), acts, 1) {
      LimitWithin(Init(cfg), acts, 1);
    }
    InFlightPassed(s.tasks);
  }

  lemma {:induction false} InFlightPassed(tasks: map<Tid, Pc>)
    ensures InFlightCount(tasks) <= PassedCount(tasks)
    decreases |tasks|
  {
    if tasks == map[] {
    } else {
      var t :| t in tasks;
      SumByRemove(tasks, pc => InFlight(pc), t);
      SumByRemove(tasks, pc => Passed(pc), t);
      InFlightPassed(tasks - {t});
    }
  }

  // ----- what a task knows of its session

  /** The facts a task may rely on, by where it stands; only the creator and the reaper of a session change its
      timer's life. */
  predicate Role(sessions: map<Inc, Session>, t: Tid, pc: Pc) {
    (IncOf(pc).Some? ==> IncOf(pc).value in sessions)
    && match pc
       case UpCount(id, inc, _) =>
         Created(sessions[inc], t, id) && sessions[inc].timer == NoTimer && !sessions[inc].slot
       case UpUnlock(id, inc, _) =>
         Created(sessions[inc], t, id) && sessions[inc].timer == NoTimer && !sessions[inc].slot
       case UpSpawn(id, inc) => Created(sessions[inc], t, id) && sessions[inc].timer == NoTimer && !sessions[inc].slot
       case UpStore(id, inc) => Created(sessions[inc], t, id) && sessions[inc].timer != NoTimer && !sessions[inc].slot
       case UpFlag(id, inc) => Created(sessions[inc], t, id) && sessions[inc].timer != NoTimer
       case UpRelook(id, inc) => Created(sessions[inc], t, id) && sessions[inc].timer != NoTimer
       case UpAbort(id, inc) => Created(sessions[inc], t, id) && sessions[inc].timer != NoTimer
       case UpClear(id, inc) =>
         Created(sessions[inc], t, id) && sessions[inc].timer != NoTimer && sessions[inc].timer != Sleeping
       case OpCancel(inc) => sessions[inc].connected
       case OpTake(inc) => sessions[inc].connected
       case RmLock(id, Some(inc)) =>
         sessions[inc].id == id && sessions[inc].reaper == t && sessions[inc].timer == Missed
       case RmRemove(id, Some(inc)) =>
         sessions[inc].id == id && sessions[inc].reaper == t && sessions[inc].timer == Missed
       case ReapSleep(inc) =>
         sessions[inc].reaper == t && (sessions[inc].timer == Sleeping || sessions[inc].timer == Aborted)
       case ReapCheck(inc) => sessions[inc].reaper == t && sessions[inc].timer == Fired
       case _ => true
  }

  predicate Created(x: Session, t: Tid, id: Id) { x.creator == t && x.id == id }

  ghost predicate Roles(s: State) { forall t | t in s.tasks :: Role(s.sessions, t, s.tasks[t]) }

  /** Readers handed out, plus the one still to hand out. */
  function Tally(x: Session): nat { x.downloads + if x.reader then 1 else 0 }

  /** The change of one session that no other task's role can notice. */
  ghost predicate Unnoticed(x: Session, x': Session, t: Tid) {
    && x'.id == x.id && x'.creator == x.creator
    && Tally(x') == Tally(x) && (x'.downloads > x.downloads ==> x'.connected)
    && (x.connected ==> x'.connected)
    && (x'.reaper != x.reaper ==> x.creator == t && x.timer == NoTimer)
    && (x'.slot && !x.slot ==> x.creator == t)
    && (x'.timer == x.timer
        || (x.timer == Sleeping && x'.timer == Aborted)
        || (x.timer == NoTimer && x.creator == t && x'.timer == Sleeping)
        || (x.reaper == t && x.timer == Sleeping && x'.timer == Fired)
        || (x.reaper == t && x.timer == Fired && x'.timer != Sleeping && x'.timer != NoTimer))
  }

  lemma RoleKept(sessions: map<Inc, Session>, t: Tid, inc: Inc, x: Session, u: Tid, pc: Pc)
    requires u != t && Role(sessions, u, pc) && inc in sessions && Unnoticed(sessions[inc], x, t)
    ensures Role(sessions[inc := x], u, pc)
  {
  }

  lemma RoleKeptByInsert(sessions: map<Inc, Session>, inc: Inc, x: Session, u: Tid, pc: Pc)
    requires Role(sessions, u, pc) && inc !in sessions
    ensures Role(sessions[inc := x], u, pc)
  {
  }

  ghost predicate TableKnown(table: map<Id, Inc>, sessions: map<Inc, Session>) {
    forall id | id in table :: table[id] in sessions && sessions[table[id]].id == id
  }

  function NewSession(id: Id, t: Tid, fc: bool): Session { Session(id, t, t, fc, true, false, NoTimer, false, 0) }

  /** What a step does to the sessions: one is new, or one changes unnoticed; and the task plays its next role. */
  ghost predicate SessionShape(s: State, t: Tid, name: nat, s': State)
    requires t in s.tasks && t in s'.tasks
  {
    var (pc, pc') := (s.tasks[t], s'.tasks[t]);
    && Role(s'.sessions, t, pc')
    && (pc.UpSpawn? ==> Role(s'.sessions, name, ReapSleep(pc.inc)))
    && (s'.reaped == s.reaped
        || (pc.RmRemove? && pc.expected.Some? && InTable(s, pc.id, pc.expected.value)
            && s'.reaped == s.reaped + {pc.expected.value}))
    && if pc.UpInsert? then name !in s.sessions && s'.sessions == s.sessions[name := NewSession(pc.id, t, pc.fc)]
       else s'.sessions == s.sessions
            || (IncOf(pc).Some? && IncOf(pc).value in s.sessions && IncOf(pc).value in s'.sessions
                && var inc := IncOf(pc).value;
                   s'.sessions == s.sessions[inc := s'.sessions[inc]]
                       && Unnoticed(s.sessions[inc], s'.sessions[inc], t))
  }

  lemma SessionLocked(s: State, t: Tid, name: nat)
    requires t in s.tasks && InLockedPart(s.tasks[t]) && TableKnown(s.table, s.sessions)
    requires Role(s.sessions, t, s.tasks[t]) && (s.tasks[t].UpInsert? ==> name !in s.sessions)
    ensures SessionShape(s, t, name, StepLocked(s, t, name))
  {
    hide ShardOf, Unnoticed;
  }

  lemma SessionTimer(s: State, t: Tid, name: nat)
    requires t in s.tasks && InTimerPart(s.tasks[t]) && Role(s.sessions, t, s.tasks[t])
    requires CanStep(s, s.tasks[t], name)
    ensures SessionShape(s, t, name, StepTimer(s, t, name))
  {
    hide ShardOf, InTable;
  }

  lemma SessionOpen(s: State, t: Tid, name: nat)
    requires t in s.tasks && InOpenPart(s.tasks[t]) && Role(s.sessions, t, s.tasks[t])
    ensures SessionShape(s, t, name, StepOpen(s, t))
  {
    hide ShardOf;
  }

  lemma SessionUnlink(s: State, t: Tid, name: nat)
    requires t in s.tasks && (s.tasks[t].RmLock? || s.tasks[t].RmRemove?)
    requires Role(s.sessions, t, s.tasks[t]) && TableKnown(s.table, s.sessions)
    ensures SessionShape(s, t, name, StepRemove(s, t))
  {
    hide ShardOf, Unnoticed;
  }

  lemma SessionDrop(s: State, t: Tid, name: nat)
    requires t in s.tasks && (s.tasks[t].RmCancel? || s.tasks[t].RmClose? || s.tasks[t].RmCount?)
    requires Role(s.sessions, t, s.tasks[t])
    ensures SessionShape(s, t, name, StepRemove(s, t))
  {
    hide ShardOf, InTable;
  }

  lemma SessionReap(s: State, t: Tid, name: nat)
    requires t in s.tasks && InReapPart(s.tasks[t]) && Role(s.sessions, t, s.tasks[t])
    requires s.tasks[t].ReapSleep? ==> s.sessions[s.tasks[t].inc].timer == Sleeping
    ensures SessionShape(s, t, name, StepReap(s, t))
  {
    hide ShardOf;
  }

  lemma SessionStep(s: State, t: Tid, name: nat)
    requires Enabled(s, Step(t, name)) && Roles(s) && TableKnown(s.table, s.sessions)
    ensures t in Apply(s, Step(t, name)).tasks && SessionShape(s, t, name, Apply(s, Step(t, name)))
  {
    ShapeStep(s, t, name);
    hide SessionShape, StepLocked, StepTimer, StepOpen, StepRemove, StepReap, Shape, TableShape, Role;
    assert Role(s.sessions, t, s.tasks[t]);
    var pc := s.tasks[t];
    if InLockedPart(pc) {
      SessionLocked(s, t, name);
    } else if InTimerPart(pc) {
      SessionTimer(s, t, name);
    } else if InOpenPart(pc) {
      SessionOpen(s, t, name);
    } else if InRemovePart(pc) {
      if pc.RmLock? || pc.RmRemove? {
        SessionUnlink(s, t, name);
      } else {
        SessionDrop(s, t, name);
      }
    } else {
      SessionReap(s, t, name);
    }
  }

  lemma RolesTaskStep(s: State, t: Tid, name: nat)
    requires Enabled(s, Step(t, name)) && Roles(s) && TableKnown(s.table, s.sessions)
    ensures Roles(Apply(s, Step(t, name)))
  {
    ShapeStep(s, t, name);
    SessionStep(s, t, name);
    hide Apply, Role, Unnoticed, TableShape, ShardOf, CanStep, NewSession;
    var s' := Apply(s, Step(t, name));
    var pc := s.tasks[t];
    forall u | u in s'.tasks
      ensures Role(s'.sessions, u, s'.tasks[u])
    {
      if u != t && u in s.tasks && s'.tasks[u] == s.tasks[u] {
        assert Role(s.sessions, u, s.tasks[u]);
        if pc.UpInsert? {
          RoleKeptByInsert(s.sessions, name, NewSession(pc.id, t, pc.fc), u, s.tasks[u]);
        } else if s'.sessions != s.sessions {
          var inc := IncOf(pc).value;
          RoleKept(s.sessions, t, inc, s'.sessions[inc], u, s.tasks[u]);
        }
      }
    }
  }

  /** Whoever was reaped had no download at the check. */
  ghost predicate ReapedMissed(s: State) {
    forall inc | inc in s.reaped :: inc in s.sessions && s.sessions[inc].timer == Missed
  }

  /** Each session has one reader, handed out only when connected, and its creator is known. */
  ghost predicate OneReader(s: State) {
    forall inc | inc in s.sessions ::
      && s.sessions[inc].creator in s.tasks
      && Tally(s.sessions[inc]) == 1
      && (s.sessions[inc].downloads > 0 ==> s.sessions[inc].connected)
  }

  ghost predicate Ledger(s: State) { TableKnown(s.table, s.sessions) && ReapedMissed(s) && OneReader(s) }

  lemma TableKnownTaskStep(s: State, t: Tid, name: nat)
    requires Enabled(s, Step(t, name)) && Roles(s) && TableKnown(s.table, s.sessions)
    ensures TableKnown(Apply(s, Step(t, name)).table, Apply(s, Step(t, name)).sessions)
  {
    ShapeStep(s, t, name);
    SessionStep(s, t, name);
    hide Apply, ShardOf, CanStep, Role, Roles, Shape;
  }

  lemma ReapedMissedTaskStep(s: State, t: Tid, name: nat)
    requires Enabled(s, Step(t, name)) && Roles(s) && Ledger(s)
    ensures ReapedMissed(Apply(s, Step(t, name)))
  {
    ShapeStep(s, t, name);
    SessionStep(s, t, name);
    var pc := s.tasks[t];
    assert Role(s.sessions, t, pc);
    assert pc.RmRemove? && pc.expected.Some? ==>
             pc.expected.value in s.sessions && s.sessions[pc.expected.value].timer == Missed;
    hide Apply, ShardOf, CanStep, Role, Roles, TableShape, TableKnown, InTable, Shape, OneReader, Tally;
  }

  lemma OneReaderTaskStep(s: State, t: Tid, name: nat)
    requires Enabled(s, Step(t, name)) && Roles(s) && Ledger(s)
    ensures OneReader(Apply(s, Step(t, name)))
  {
    ShapeStep(s, t, name);
    SessionStep(s, t, name);
    assert forall u | u in s.tasks :: u in Apply(s, Step(t, name)).tasks;
    hide Apply, ShardOf, CanStep, Role, Roles, TableShape, TableKnown, InTable, Shape, ReapedMissed;
  }

  lemma LedgerTaskStep(s: State, t: Tid, name: nat)
    requires Enabled(s, Step(t, name)) && Roles(s) && Ledger(s)
    ensures Ledger(Apply(s, Step(t, name)))
  {
    hide Apply, Enabled, Roles, TableKnown, ReapedMissed, OneReader;
    TableKnownTaskStep(s, t, name);
    ReapedMissedTaskStep(s, t, name);
    OneReaderTaskStep(s, t, name);
  }

  // ----- the grace timer

  predicate Waiting(tasks: map<Tid, Pc>, pc: Pc) { exists u :: u in tasks && tasks[u] == pc }

  /** A sleeping timer whose session is connected or removed has a task left that will abort it. */
  ghost predicate Timed(s: State, inc: Inc)
    requires inc in s.sessions
  {
    var x := s.sessions[inc];
    x.timer == Sleeping ==>
      && x.creator in s.tasks
      && var pc := s.tasks[x.creator];
         || pc == UpStore(x.id, inc)
         || (x.slot && (pc == UpFlag(x.id, inc) || pc == UpAbort(x.id, inc)))
         || (x.slot && pc == UpRelook(x.id, inc) && (x.connected ==> Waiting(s.tasks, OpCancel(inc))))
         || (x.slot && pc == Done && (x.connected ==> Waiting(s.tasks, OpCancel(inc)))
             && (InTable(s, x.id, inc) || Waiting(s.tasks, RmCancel(inc))))
  }

  lemma WaitingKept(tasks: map<Tid, Pc>, t: Tid, pc: Pc, w: Pc)
    requires Waiting(tasks, w) && (t in tasks ==> tasks[t] != w)
    ensures Waiting(tasks[t := pc], w)
  {
    var u :| u in tasks && tasks[u] == w;
    assert u in tasks[t := pc] && tasks[t := pc][u] == w;
  }

  /** Who is waiting goes on waiting while another task steps. */
  lemma WaitingStep(s: State, t: Tid, name: nat, s': State, w: Pc)
    requires t in s.tasks && Shape(s, t, name, s') && (s.tasks[t].UpSpawn? ==> name !in s.tasks)
    requires Waiting(s.tasks, w) && s.tasks[t] != w
    ensures Waiting(s'.tasks, w)
  {
    WaitingKept(s.tasks, t, s'.tasks[t], w);
    if s.tasks[t].UpSpawn? {
      WaitingKept(s.tasks[t := s'.tasks[t]], name, ReapSleep(s.tasks[t].inc), w);
    }
  }

  /** A step of another task than the creator that leaves the timer asleep. */
  lemma TimedByOthers(s: State, t: Tid, name: nat, s': State, inc: Inc)
    requires t in s.tasks && inc in s.sessions && inc in s'.sessions && Timed(s, inc) && Shape(s, t, name, s')
    requires s.tasks[t].UpSpawn? ==> name !in s.tasks
    requires var (x, x') := (s.sessions[inc], s'.sessions[inc]);
             && x.timer == Sleeping && t != x.creator
             && x' == x.(connected := x'.connected, reader := x'.reader, downloads := x'.downloads, closed := x'.closed)
             && (x'.connected ==> x.connected || s'.tasks[t] == OpCancel(inc))
             && (InTable(s, x.id, inc) ==> InTable(s', x.id, inc) || s'.tasks[t] == RmCancel(inc))
             && (x.slot ==> s.tasks[t] != OpCancel(inc) && s.tasks[t] != RmCancel(inc))
    ensures Timed(s', inc)
  {
    var x := s.sessions[inc];
    hide InTable;
    assert s'.tasks[x.creator] == s.tasks[x.creator];
    if x.slot && Waiting(s.tasks, OpCancel(inc)) {
      WaitingStep(s, t, name, s', OpCancel(inc));
    }
    if x.slot && Waiting(s.tasks, RmCancel(inc)) {
      WaitingStep(s, t, name, s', RmCancel(inc));
    }
    assert s'.tasks[t] == OpCancel(inc) ==> Waiting(s'.tasks, OpCancel(inc));
    assert s'.tasks[t] == RmCancel(inc) ==> Waiting(s'.tasks, RmCancel(inc));
  }

  lemma TimedByCreator(s: State, t: Tid, name: nat, inc: Inc)
    requires t in s.tasks && inc in s.sessions && s.sessions[inc].creator == t && Timed(s, inc)
    requires InTimerPart(s.tasks[t]) && s.tasks[t].inc in s.sessions && CanStep(s, s.tasks[t], name)
    requires Role(s.sessions, t, s.tasks[t])
    requires s.sessions[inc].timer == Sleeping || s.tasks[t] == UpSpawn(s.sessions[inc].id, inc)
    ensures Timed(StepTimer(s, t, name), inc)
  {
    var s' := StepTimer(s, t, name);
    ShapeTimer(s, t, name);
    hide ShardOf, TableShape;
    if s.tasks[t].UpRelook? && Waiting(s.tasks, OpCancel(inc)) {
      WaitingStep(s, t, name, s', OpCancel(inc));
    }
  }

  /** While a timer sleeps, its creator is in the timer part or done. */
  lemma CreatorStands(s: State, inc: Inc, t: Tid)
    requires inc in s.sessions && Timed(s, inc) && s.sessions[inc].timer == Sleeping && t in s.tasks
    requires (!InTimerPart(s.tasks[t]) && s.tasks[t] != Done) || (InTimerPart(s.tasks[t]) && s.tasks[t].inc != inc)
    ensures t != s.sessions[inc].creator
  {
  }

  lemma TimedLocked(s: State, t: Tid, name: nat, inc: Inc)
    requires t in s.tasks && InLockedPart(s.tasks[t]) && Looked(s.tasks, s.table)
    requires s.tasks[t].UpInsert? ==> name !in s.sessions
    requires inc in StepLocked(s, t, name).sessions && (inc in s.sessions ==> Timed(s, inc))
    ensures Timed(StepLocked(s, t, name), inc)
  {
    ShapeLocked(s, t, name);
    var s' := StepLocked(s, t, name);
    hide ShardOf, TableShape, Timed;
    if s'.sessions[inc].timer == Sleeping {
      assert inc in s.sessions && s'.sessions[inc] == s.sessions[inc];
      CreatorStands(s, inc, t);
      TimedByOthers(s, t, name, s', inc);
    } else {
      TimedAwake(s', inc);
    }
  }

  lemma TimedAwake(s: State, inc: Inc)
    requires inc in s.sessions && s.sessions[inc].timer != Sleeping
    ensures Timed(s, inc)
  {
  }

  lemma TimedTimer(s: State, t: Tid, name: nat, inc: Inc)
    requires t in s.tasks && InTimerPart(s.tasks[t]) && Role(s.sessions, t, s.tasks[t]) && CanStep(s, s.tasks[t], name)
    requires inc in s.sessions && Timed(s, inc)
    ensures inc in StepTimer(s, t, name).sessions && Timed(StepTimer(s, t, name), inc)
  {
    var s' := StepTimer(s, t, name);
    assert inc in s'.sessions && (inc != s.tasks[t].inc ==> s'.sessions[inc] == s.sessions[inc]);
    assert s'.table == s.table;
    assert inc == s.tasks[t].inc ==> s.sessions[inc].creator == t;
    assert s'.sessions[inc].timer == Sleeping ==>
             s.sessions[inc].timer == Sleeping || s.tasks[t] == UpSpawn(s.sessions[inc].id, inc);
    ShapeTimer(s, t, name);
    hide ShardOf, TableShape, Timed, StepTimer, Role;
    if s'.sessions[inc].timer != Sleeping {
      TimedAwake(s', inc);
    } else if inc == s.tasks[t].inc {
      TimedByCreator(s, t, name, inc);
    } else {
      CreatorStands(s, inc, t);
      TimedByOthers(s, t, name, s', inc);
    }
  }

  lemma TimedOpen(s: State, t: Tid, name: nat, inc: Inc)
    requires t in s.tasks && InOpenPart(s.tasks[t]) && s.tasks[t].inc in s.sessions
    requires inc in s.sessions && Timed(s, inc)
    ensures inc in StepOpen(s, t).sessions && Timed(StepOpen(s, t), inc)
  {
    ShapeOpen(s, t, name);
    var s' := StepOpen(s, t);
    hide ShardOf, TableShape, Timed;
    if s'.sessions[inc].timer == Sleeping {
      CreatorStands(s, inc, t);
      TimedByOthers(s, t, name, s', inc);
    } else {
      TimedAwake(s', inc);
    }
  }

  lemma TimedRemove(s: State, t: Tid, name: nat, inc: Inc)
    requires t in s.tasks && InRemovePart(s.tasks[t]) && Role(s.sessions, t, s.tasks[t])
             && TableKnown(s.table, s.sessions)
    requires inc in s.sessions && Timed(s, inc)
    ensures inc in StepRemove(s, t).sessions && Timed(StepRemove(s, t), inc)
  {
    ShapeRemove(s, t, name);
    RemoveAndTimer(s, t, inc);
    var s' := StepRemove(s, t);
    hide ShardOf, TableShape, Timed, Shape, StepRemove, Role, TableKnown, InTable;
    if s'.sessions[inc].timer == Sleeping {
      CreatorStands(s, inc, t);
      TimedByOthers(s, t, name, s', inc);
    } else {
      TimedAwake(s', inc);
    }
  }

  /** A removal that leaves a timer asleep did not touch it, or is about to cancel it. */
  lemma RemoveAndTimer(s: State, t: Tid, inc: Inc)
    requires t in s.tasks && InRemovePart(s.tasks[t]) && Role(s.sessions, t, s.tasks[t])
             && TableKnown(s.table, s.sessions)
    requires inc in s.sessions
    ensures inc in StepRemove(s, t).sessions
    ensures var s' := StepRemove(s, t);
            var (x, x') := (s.sessions[inc], s'.sessions[inc]);
            x'.timer == Sleeping ==>
              && x.timer == Sleeping && x' == x.(closed := x'.closed)
              && (InTable(s, x.id, inc) ==> InTable(s', x.id, inc) || s'.tasks[t] == RmCancel(inc))
              && (x.slot ==> s.tasks[t] != OpCancel(inc) && s.tasks[t] != RmCancel(inc))
  {
    var pc := s.tasks[t];
    assert pc.RmRemove? && pc.expected.Some? ==>
             pc.expected.value in s.sessions && s.sessions[pc.expected.value].timer == Missed;
    hide ShardOf, Role, TableKnown;
  }

  lemma TimedReap(s: State, t: Tid, name: nat, inc: Inc)
    requires t in s.tasks && InReapPart(s.tasks[t]) && s.tasks[t].inc in s.sessions
    requires inc in s.sessions && Timed(s, inc)
    ensures inc in StepReap(s, t).sessions && Timed(StepReap(s, t), inc)
  {
    ShapeReap(s, t, name);
    var s' := StepReap(s, t);
    hide ShardOf, TableShape, Timed, Shape;
    if s'.sessions[inc].timer == Sleeping {
      CreatorStands(s, inc, t);
      TimedByOthers(s, t, name, s', inc);
    } else {
      TimedAwake(s', inc);
    }
  }

  /** A task that starts, or a reaper that gives up, changes no timer. */
  lemma TimedGoto(s: State, t: Tid, pc: Pc, inc: Inc)
    requires inc in s.sessions && Timed(s, inc) && (t in s.tasks ==> s.tasks[t].ReapCheck?)
    ensures Timed(Goto(s, t, pc), inc)
  {
    if Waiting(s.tasks, OpCancel(inc)) {
      WaitingKept(s.tasks, t, pc, OpCancel(inc));
    }
    if Waiting(s.tasks, RmCancel(inc)) {
      WaitingKept(s.tasks, t, pc, RmCancel(inc));
    }
  }

  ghost predicate AllTimed(s: State) { forall inc | inc in s.sessions :: Timed(s, inc) }

  lemma TimedTaskStep(s: State, t: Tid, name: nat)
    requires Enabled(s, Step(t, name)) && Roles(s) && Ledger(s) && Looked(s.tasks, s.table) && AllTimed(s)
    ensures AllTimed(Apply(s, Step(t, name)))
  {
    SessionStep(s, t, name);
    var (s', pc) := (Apply(s, Step(t, name)), s.tasks[t]);
    assert Role(s.sessions, t, pc) && TableKnown(s.table, s.sessions);
    assert forall inc | inc in s'.sessions :: inc in s.sessions || pc.UpInsert?;
    hide Timed, StepLocked, StepTimer, StepOpen, StepRemove, StepReap, Role, Looked, TableKnown, Ledger, SessionShape;
    forall inc | inc in s'.sessions
      ensures Timed(s', inc)
    {
      if InLockedPart(pc) {
        TimedLocked(s, t, name, inc);
      } else if InTimerPart(pc) {
        TimedTimer(s, t, name, inc);
      } else if InOpenPart(pc) {
        TimedOpen(s, t, name, inc);
      } else if InRemovePart(pc) {
        TimedRemove(s, t, name, inc);
      } else {
        TimedReap(s, t, name, inc);
      }
    }
  }

  /** What holds of the sessions and timers in every reachable state. */
  ghost predicate SessionInv(s: State) {
    Locked(s.cfg, s.tasks, s.locks) && Looked(s.tasks, s.table) && Roles(s) && Ledger(s) && AllTimed(s)
  }

  lemma SessionInvGoto(s: State, t: Tid, pc: Pc)
    requires Roles(s) && Ledger(s) && AllTimed(s) && (t in s.tasks ==> s.tasks[t].ReapCheck?) && IncOf(pc).None?
    ensures Roles(Goto(s, t, pc)) && Ledger(Goto(s, t, pc)) && AllTimed(Goto(s, t, pc))
  {
    var s' := Goto(s, t, pc);
    forall inc | inc in s'.sessions
      ensures Timed(s', inc)
    {
      TimedGoto(s, t, pc, inc);
    }
    hide Timed;
  }

  lemma SessionInvStep(s: State, a: Action)
    requires SessionInv(s) && Enabled(s, a)
    ensures SessionInv(Apply(s, a))
  {
    hide Locked, Looked, Roles, Ledger, AllTimed, StepLocked, StepTimer, StepOpen, StepRemove, StepReap, CanStep;
    LockedStep(s, a);
    LookedStep(s, a);
    match a
    case StartUpsert(t, id, fc) => SessionInvGoto(s, t, UpLock(id, fc));
    case StartRemove(t, id) => SessionInvGoto(s, t, RmLock(id, None));
    case ReapGone(t) => SessionInvGoto(s, t, Done);
    case Step(t, name) => SessionInvTaskStep(s, t, name);
  }

  lemma SessionInvTaskStep(s: State, t: Tid, name: nat)
    requires SessionInv(s) && Enabled(s, Step(t, name))
    ensures var s' := Apply(s, Step(t, name)); Roles(s') && Ledger(s') && AllTimed(s')
  {
    hide Locked, Looked, Roles, Ledger, AllTimed, Enabled, Apply;
    LedgerTaskStep(s, t, name);
    LedgerKnows(s);
    RolesTaskStep(s, t, name);
    TimedTaskStep(s, t, name);
  }

  lemma LedgerKnows(s: State)
    requires Ledger(s)
    ensures TableKnown(s.table, s.sessions)
  {
  }

  lemma {:induction false} SessionInvRun(s: State, acts: seq<Action>)
    requires SessionInv(s) && Runs(s, acts)
    ensures SessionInv(After(s, acts))
    decreases acts
  {
    if acts == [] {
    } else {
      SessionInvStep(s, acts[0]);
      hide SessionInv;
      SessionInvRun(Apply(s, acts[0]), acts[1..]);
    }
  }

  lemma InitSessionInv(cfg: Config)
    ensures SessionInv(Init(cfg))
  {
  }

  // ----- the download is handed out exactly once

  function Downloads(s: State, inc: Inc): nat { if inc in s.sessions then s.sessions[inc].downloads else 0 }

  /** The step of open_download that takes the reader of this incarnation. */
  predicate IsTake(s: State, a: Action, inc: Inc) { a.Step? && a.t in s.tasks && s.tasks[a.t] == OpTake(inc) }

  /** How many times a run asks for the reader of this incarnation. */
  function Takes(s: State, acts: seq<Action>, inc: Inc): nat
    requires Runs(s, acts)
    decreases acts
  {
    if acts == [] then 0
    else (if IsTake(s, acts[0], inc) then 1 else 0) + Takes(Apply(s, acts[0]), acts[1..], inc)
  }

  lemma DownloadsKept(s: State, a: Action, inc: Inc)
    requires Enabled(s, a) && !IsTake(s, a, inc)
    requires a.Step? && s.tasks[a.t].UpInsert? ==> a.name !in s.sessions
    ensures Downloads(Apply(s, a), inc) == Downloads(s, inc)
  {
    hide ShardOf, InTable;
  }

  lemma DownloadsTake(s: State, a: Action, inc: Inc)
    requires SessionInv(s) && Enabled(s, a) && IsTake(s, a, inc)
    ensures Downloads(Apply(s, a), inc) == 1
  {
    hide Locked, Looked, AllTimed, ShardOf, TableKnown, ReapedMissed;
    assert Role(s.sessions, a.t, s.tasks[a.t]);
    assert Tally(s.sessions[inc]) == 1;
  }

  lemma {:induction false} DownloadsRun(s: State, acts: seq<Action>, inc: Inc)
    requires SessionInv(s) && Runs(s, acts)
    ensures Downloads(After(s, acts), inc) == if Takes(s, acts, inc) > 0 then 1 else Downloads(s, inc)
    decreases acts
  {
    if acts == [] {
    } else {
      SessionInvStep(s, acts[0]);
      if IsTake(s, acts[0], inc) {
        DownloadsTake(s, acts[0], inc);
      } else {
        DownloadsKept(s, acts[0], inc);
      }
      hide SessionInv, Apply, Enabled, Downloads, IsTake;
      DownloadsRun(Apply(s, acts[0]), acts[1..], inc);
    }
  }

  /** In every interleaving the first open_download that asks for a session's reader gets it, and no other. */
  lemma OpenedExactlyOnce(cfg: Config, acts: seq<Action>, inc: Inc)
    requires Runs(Init(cfg), acts)
    ensures Downloads(After(Init(cfg), acts), inc) == if Takes(Init(cfg), acts, inc) > 0 then 1 else 0
  {
    InitSessionInv(cfg);
    DownloadsRun(Init(cfg), acts, inc);
  }

  /**
    Once the upsert that created a session is done, and every open_download that marked it connected,
    or every remove that took it out of the table, is past cancelling, its timer no longer sleeps.
  */
  lemma GraceTimerSettled(cfg: Config, acts: seq<Action>, inc: Inc)
    requires Runs(Init(cfg), acts) && inc in After(Init(cfg), acts).sessions
    ensures var s := After(Init(cfg), acts);
            var x := s.sessions[inc];
            x.creator in s.tasks
            && (s.tasks[x.creator] == Done
                && ((x.connected && !Waiting(s.tasks, OpCancel(inc)))
                    || (!InTable(s, x.id, inc) && !Waiting(s.tasks, RmCancel(inc))))
                ==> x.timer != Sleeping)
  {
    InitSessionInv(cfg);
    SessionInvRun(Init(cfg), acts);
    assert Timed(After(Init(cfg), acts), inc);
  }

  lemma SparedStep(s: State, a: Action, inc: Inc)
    requires SessionInv(s) && Enabled(s, a) && inc in s.sessions && s.sessions[inc].timer == Spared
    ensures inc in Apply(s, a).sessions && Apply(s, a).sessions[inc].timer == Spared
  {
    if a.Step? {
      SessionStep(s, a.t, a.name);
      hide Apply, Role, Shape, TableShape, InTable;
    }
  }

  lemma {:induction false} SparedForever(s: State, acts: seq<Action>, inc: Inc)
    requires SessionInv(s) && Runs(s, acts) && inc in s.sessions && s.sessions[inc].timer == Spared
    ensures inc !in After(s, acts).reaped
    decreases acts
  {
    if acts == [] {
    } else {
      SparedStep(s, acts[0], inc);
      SessionInvStep(s, acts[0]);
      hide SessionInv, Apply, Enabled;
      SparedForever(Apply(s, acts[0]), acts[1..], inc);
    }
  }

  /** A session whose download opened before its reaper's check is never reaped, whatever happens later. */
  lemma ReaperSparesOpened(cfg: Config, acts: seq<Action>, t: Tid, name: nat, inc: Inc, later: seq<Action>)
    requires Runs(Init(cfg), acts) && Enabled(After(Init(cfg), acts), Step(t, name))
    requires var s := After(Init(cfg), acts);
             s.tasks[t] == ReapCheck(inc) && s.sessions[inc].downloads > 0 && Runs(Apply(s, Step(t, name)), later)
    ensures inc !in After(Apply(After(Init(cfg), acts), Step(t, name)), later).reaped
  {
    InitSessionInv(cfg);
    SessionInvRun(Init(cfg), acts);
    var s := After(Init(cfg), acts);
    SessionInvStep(s, Step(t, name));
    assert s.sessions[inc].connected;
    assert Apply(s, Step(t, name)).sessions[inc].timer == Spared;
    hide SessionInv, After;
    SparedForever(Apply(s, Step(t, name)), later, inc);
  }

  /** A reaper takes nothing but the incarnation it was started for out of the table. */
  lemma ReaperRemovesOnlyItsOwn(cfg: Config, acts: seq<Action>, t: Tid, name: nat, id: Id, own: Inc)
    requires Runs(Init(cfg), acts) && Enabled(After(Init(cfg), acts), Step(t, name))
    requires After(Init(cfg), acts).tasks[t] == RmRemove(id, Some(own))
    ensures var (s, s') := (After(Init(cfg), acts), Apply(After(Init(cfg), acts), Step(t, name)));
            && s.sessions[own].reaper == t
            && (forall i | i in s.table && s.table[i] != own :: InTable(s', i, s.table[i]))
            && (forall i | i in s'.table :: InTable(s, i, s'.table[i]))
  {
    InitSessionInv(cfg);
    SessionInvRun(Init(cfg), acts);
    var s := After(Init(cfg), acts);
    assert Role(s.sessions, t, s.tasks[t]);
    hide Runs, After;
  }

  // ----- what can be reached

  /** Some run leads from s0 to s; if `only` names a task, that task alone takes the steps. */
  ghost predicate Reach(s0: State, s: State, only: Option<Tid>) {
    exists acts :: Runs(s0, acts) && After(s0, acts) == s && OnlyBy(acts, only)
  }

  predicate OnlyBy(acts: seq<Action>, only: Option<Tid>) { only.Some? ==> forall a | a in acts :: a.t == only.value }

  lemma {:induction false} OneMore(s: State, acts: seq<Action>, a: Action)
    requires Runs(s, acts) && Enabled(After(s, acts), a)
    ensures Runs(s, acts + [a]) && After(s, acts + [a]) == Apply(After(s, acts), a)
    decreases acts
  {
    hide Enabled, Apply;
    if acts == [] {
      assert acts + [a] == [a] && [a][1..] == [];
    } else {
      assert (acts + [a])[0] == acts[0] && (acts + [a])[1..] == acts[1..] + [a];
      OneMore(Apply(s, acts[0]), acts[1..], a);
    }
  }

  lemma ReachStart(s: State, only: Option<Tid>)
    ensures Reach(s, s, only)
  {
    assert Runs(s, []) && After(s, []) == s && OnlyBy([], only);
  }

  lemma ReachStep(s0: State, s: State, a: Action, only: Option<Tid>)
    requires Reach(s0, s, only) && Enabled(s, a) && (only.Some? ==> a.t == only.value)
    ensures Reach(s0, Apply(s, a), only)
  {
    hide Enabled, Apply;
    var acts :| Runs(s0, acts) && After(s0, acts) == s && OnlyBy(acts, only);
    OneMore(s0, acts, a);
  }

  /** An upsert holds its shard's lock. */
  function LockTaken(s: State, t: Tid, id: Id, pc: Pc): State {
    Goto(s, t, pc).(locks := s.locks[ShardOf(s.cfg, id) := t])
  }

  /** It has inserted and counted its session. */
  function Inserted(s: State, t: Tid, id: Id, fc: bool, name: Inc): State {
    Put(Goto(s, t, UpUnlock(id, name, fc)), name, NewSession(id, t, fc))
    .(table := s.table[id := name], active := s.active + 1)
  }

  lemma ReachLocked(s0: State, s: State, t: Tid, id: Id, fc: bool, only: Option<Tid>)
    requires Reach(s0, s, only) && (only.Some? ==> t == only.value)
    requires t !in s.tasks && ShardOf(s.cfg, id) !in s.locks
    ensures Reach(s0, LockTaken(s, t, id, UpLookup(id, fc)), only)
  {
    hide Reach, ShardOf;
    var s1 := Goto(s, t, UpLock(id, fc));
    ReachStep(s0, s, StartUpsert(t, id, fc), only);
    ReachStep(s0, s1, Step(t, 0), only);
    assert Apply(s1, Step(t, 0)) == LockTaken(s, t, id, UpLookup(id, fc));
  }

  lemma ReachAbsent(s0: State, s: State, t: Tid, id: Id, fc: bool, only: Option<Tid>)
    requires Reach(s0, s, only) && (only.Some? ==> t == only.value)
    requires t !in s.tasks && ShardOf(s.cfg, id) !in s.locks && id !in s.table
    ensures Reach(s0, LockTaken(s, t, id, UpCheck(id, fc)), only)
  {
    hide Reach, ShardOf;
    ReachLocked(s0, s, t, id, fc, only);
    var s2 := LockTaken(s, t, id, UpLookup(id, fc));
    ReachStep(s0, s2, Step(t, 0), only);
    assert Apply(s2, Step(t, 0)) == LockTaken(s, t, id, UpCheck(id, fc));
  }

  lemma ReachChecked(s0: State, s: State, t: Tid, id: Id, fc: bool, only: Option<Tid>)
    requires Reach(s0, s, only) && (only.Some? ==> t == only.value)
    requires t !in s.tasks && ShardOf(s.cfg, id) !in s.locks && id !in s.table && s.active < s.cfg.maxSessions
    ensures Reach(s0, LockTaken(s, t, id, UpInsert(id, fc)), only)
  {
    hide Reach, ShardOf;
    ReachAbsent(s0, s, t, id, fc, only);
    var s3 := LockTaken(s, t, id, UpCheck(id, fc));
    ReachStep(s0, s3, Step(t, 0), only);
    assert Apply(s3, Step(t, 0)) == LockTaken(s, t, id, UpInsert(id, fc));
  }

  lemma ReachInserted(s0: State, s: State, t: Tid, id: Id, fc: bool, name: Inc, only: Option<Tid>)
    requires Reach(s0, s, only) && (only.Some? ==> t == only.value)
    requires t in s.tasks && s.tasks[t] == UpInsert(id, fc) && name !in s.sessions
    ensures Reach(s0, Inserted(s, t, id, fc, name), only)
  {
    hide Reach, ShardOf;
    var s1 := Put(Goto(s, t, UpCount(id, name, fc)), name, NewSession(id, t, fc)).(table := s.table[id := name]);
    ReachStep(s0, s, Step(t, name), only);
    ReachStep(s0, s1, Step(t, name), only);
    assert Apply(s1, Step(t, name)) == Inserted(s, t, id, fc, name);
  }

  lemma ReachUnlocked(s0: State, s: State, t: Tid, id: Id, fc: bool, name: Inc, only: Option<Tid>)
    requires Reach(s0, s, only) && (only.Some? ==> t == only.value)
    requires t in s.tasks && s.tasks[t] == UpUnlock(id, name, fc) && name in s.sessions
    ensures Reach(s0, Unlock(Goto(s, t, if fc then OpFlag(name) else UpSpawn(id, name)), id), only)
  {
    hide Reach, ShardOf;
    ReachStep(s0, s, Step(t, 0), only);
  }

  // ----- when the limit holds

  /** n sessions exist, none for the ids up to `spared`, and no lock is held. */
  ghost predicate Filled(cfg: Config, s: State, n: nat, spared: Id) {
    && s.cfg == cfg && s.active == n && s.locks == map[]
    && (forall t | t in s.tasks :: t < n)
    && (forall inc | inc in s.sessions :: inc < n)
    && (forall id | id in s.table :: spared < id <= spared + n)
  }

  lemma {:induction false} Fill(cfg: Config, n: nat, spared: Id) returns (s: State)
    requires n <= cfg.maxSessions
    ensures Reach(Init(cfg), s, None) && Filled(cfg, s, n, spared)
  {
    if n == 0 {
      s := Init(cfg);
      ReachStart(s, None);
    } else {
      var q := Fill(cfg, n - 1, spared);
      s := FillOne(cfg, q, n - 1, spared);
    }
  }

  lemma FillOne(cfg: Config, q: State, n: nat, spared: Id) returns (s: State)
    requires Reach(Init(cfg), q, None) && Filled(cfg, q, n, spared) && n < cfg.maxSessions
    ensures Reach(Init(cfg), s, None) && Filled(cfg, s, n + 1, spared)
  {
    hide Reach, ShardOf;
    var id := spared + n + 1;
    var c := LockTaken(q, n, id, UpInsert(id, true));
    ReachChecked(Init(cfg), q, n, id, true, None);
    var i := Inserted(c, n, id, true, n);
    ReachInserted(Init(cfg), c, n, id, true, n, None);
    s := Unlock(Goto(i, n, OpFlag(n)), id);
    ReachUnlocked(Init(cfg), i, n, id, true, n, None);
  }

  /** With one place left, two upserts in different shards pass their check together. */
  lemma OverrunReached(cfg: Config, a: Id, b: Id) returns (s: State)
    requires cfg.maxSessions >= 1 && ShardOf(cfg, a) != ShardOf(cfg, b)
    ensures Reach(Init(cfg), s, None) && s.active == cfg.maxSessions + 1
  {
    hide Reach, ShardOf, Runs, After;
    var n := cfg.maxSessions - 1;
    var q := Fill(cfg, n, a + b);
    var s1 := LockTaken(q, n, a, UpInsert(a, true));
    ReachChecked(Init(cfg), q, n, a, true, None);
    var s2 := LockTaken(s1, n + 1, b, UpInsert(b, true));
    ReachChecked(Init(cfg), s1, n + 1, b, true, None);
    var s3 := Inserted(s2, n, a, true, n);
    ReachInserted(Init(cfg), s2, n, a, true, n, None);
    s := Inserted(s3, n + 1, b, true, n + 1);
    ReachInserted(Init(cfg), s3, n + 1, b, true, n + 1, None);
  }

  ghost predicate LimitHolds(cfg: Config) {
    forall acts | Runs(Init(cfg), acts) :: After(Init(cfg), acts).active <= cfg.maxSessions
  }

  ghost predicate OneShard(cfg: Config) { forall a: Id, b: Id :: ShardOf(cfg, a) == ShardOf(cfg, b) }

  /** A limit of zero lets no upsert pass. */
  lemma {:induction false} ZeroLimit(s: State, acts: seq<Action>)
    requires CounterInv(s) && Runs(s, acts) && s.cfg.maxSessions == 0 && s.active + PassedCount(s.tasks) <= 0
    ensures After(s, acts).active <= 0
    decreases acts
  {
    if acts == [] {
    } else {
      InFlightInTable(s);
      PassedMove(s, acts[0]);
      LockedStep(s, acts[0]);
      LookedStep(s, acts[0]);
      CountedStep(s, acts[0]);
      hide Locked, Looked, PassedCount, InFlightCount, LeavingCount, Apply, Enabled;
      ZeroLimit(Apply(s, acts[0]), acts[1..]);
    }
  }

  /** The counter never exceeds the limit in any run, if and only if the limit is zero or all ids share one lock. */
  lemma LimitHoldsExactly(cfg: Config)
    ensures LimitHolds(cfg) <==> cfg.maxSessions == 0 || OneShard(cfg)
  {
    if cfg.maxSessions == 0 || OneShard(cfg) {
      forall acts | Runs(Init(cfg), acts)
        ensures After(Init(cfg), acts).active <= cfg.maxSessions
      {
        LimitKept(cfg, acts);
      }
    } else {
      var a, b :| ShardOf(cfg, a) != ShardOf(cfg, b);
      var s := OverrunReached(cfg, a, b);
      var acts :| Runs(Init(cfg), acts) && After(Init(cfg), acts) == s;
    }
  }

  lemma LimitKept(cfg: Config, acts: seq<Action>)
    requires Runs(Init(cfg), acts) && (cfg.maxSessions == 0 || OneShard(cfg))
    ensures After(Init(cfg), acts).active <= cfg.maxSessions
  {
    if cfg.maxSessions == 0 {
      NothingHalfDone(map[]);
      ZeroLimit(Init(cfg), acts);
    } else {
      AlwaysPerShard(Init(cfg), acts, {ShardOf(cfg, 0)});
      LimitWithin(Init(cfg), acts, 1);
    }
  }

  /** Two shards and a limit of one session: two sessions can be open. */
  lemma LimitOverrunHappens()
    ensures !LimitHolds(Config(2, 1, (id: Id) => id))
  {
    var cfg := Config(2, 1, (id: Id) => id);
    assert ShardOf(cfg, 0) == 0 && ShardOf(cfg, 1) == 1;
    LimitHoldsExactly(cfg);
  }
}
