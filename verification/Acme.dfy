/**
  Publishing a certificate and its key as one generation: both files are written into a temporary
  directory, checked together, renamed to a generation, and the link `current` is then switched by
  one rename. Every file system call is one step; the process may fail at a call, or stop, between
  any two steps, and publish again later.
*/
module Acme {
  import opened Bytes

  datatype Pair = Pair(cert: bytes, key: bytes)

  datatype Name = Temp(n: nat) | Generation(n: nat)

  /** A directory with its two files, each of which may be absent or incomplete. */
  datatype Dir = Dir(key: Option<bytes>, cert: Option<bytes>)

  datatype Stage =
    | MakeDir | WriteKey | WriteCert | Check | Install | Sync | ReadCurrent | Link | Switch | Sweep
    | Abandon

  /** A publication in progress: the pair, the number drawn for the generation, and what `current` was read to be. */
  datatype Publication = Publication(stage: Stage, n: nat, pair: Pair, previous: Option<nat>, link: nat)

  /** `current` is the generation the link points to; `offered` collects every pair ever to be published. */
  datatype State = State(dirs: map<Name, Dir>, current: Option<nat>, links: set<nat>,
                         proc: Option<Publication>, offered: set<Pair>)

  datatype Action =
    | Begin(n: nat, pair: Pair, link: nat)
    | Step                                 // the next call of the publication
    | Part(bytes: bytes)                   // a file is written up to here
    | RemoveKey(name: Name) | RemoveCert(name: Name) | RemoveDir(name: Name)
    | Finish                               // the loop of removals is over
    | Fail                                 // a call fails
    | Stop                                 // the process stops

  /** What a removal loop of the current publication may touch. */
  predicate MayRemove(p: Publication, name: Name) {
    match p.stage
    case Sweep => name.Generation? && name.n != p.n && Some(name.n) != p.previous
    case Abandon => name == Temp(p.n)
    case _ => false
  }

  predicate Enabled(s: State, a: Action) {
    match a
    case Begin(_, _, _) => s.proc.None?
    case Step =>
      s.proc.Some? && s.proc.value.stage != Sweep && s.proc.value.stage != Abandon
      && (s.proc.value.stage in {WriteKey, WriteCert, Check, Install} ==> Temp(s.proc.value.n) in s.dirs)
    case Part(_) =>
      s.proc.Some? && (s.proc.value.stage == WriteKey || s.proc.value.stage == WriteCert)
          && Temp(s.proc.value.n) in s.dirs
    case RemoveKey(name) => s.proc.Some? && MayRemove(s.proc.value, name) && name in s.dirs
    case RemoveCert(name) => s.proc.Some? && MayRemove(s.proc.value, name) && name in s.dirs
    case RemoveDir(name) => s.proc.Some? && MayRemove(s.proc.value, name) && name in s.dirs
    case Finish => s.proc.Some? && (s.proc.value.stage == Sweep || s.proc.value.stage == Abandon)
    case Fail => s.proc.Some?
    case Stop => true
  }

  function At(s: State, stage: Stage): State
    requires s.proc.Some?
  {
    s.(proc := Some(s.proc.value.(stage := stage)))
  }

  predicate IsEmpty(d: Dir) { d == Dir(None, None) }

  function ApplyStep(s: State, valid: (bytes, bytes) -> bool): State
    requires Enabled(s, Step)
  {
    var p := s.proc.value;
    match p.stage
    case MakeDir =>
      if Temp(p.n) in s.dirs then s.(proc := None) else At(s, WriteKey).(dirs := s.dirs[Temp(p.n) := Dir(None, None)])
    case WriteKey => At(s, WriteCert).(dirs := s.dirs[Temp(p.n) := s.dirs[Temp(p.n)].(key := Some(p.pair.key))])
    case WriteCert => At(s, Check).(dirs := s.dirs[Temp(p.n) := s.dirs[Temp(p.n)].(cert := Some(p.pair.cert))])
    case Check =>
      var d := s.dirs[Temp(p.n)];
      if d.cert.Some? && d.key.Some? && valid(d.cert.value, d.key.value) then At(s, Install) else At(s, Abandon)
    case Install =>
      if Generation(p.n) in s.dirs && !IsEmpty(s.dirs[Generation(p.n)]) then At(s, Abandon)
      else At(s, Sync).(dirs := (s.dirs - {Temp(p.n)})[Generation(p.n) := s.dirs[Temp(p.n)]])
    case Sync => At(s, ReadCurrent)
    case ReadCurrent => s.(proc := Some(p.(stage := Link, previous := s.current)))
    case Link => if p.link in s.links then At(s, Abandon) else At(s, Switch).(links := s.links + {p.link})
    case Switch => At(s, Sweep).(links := s.links - {p.link}, current := Some(p.n))
    case _ => s
  }

  function Apply(s: State, a: Action, valid: (bytes, bytes) -> bool): State
    requires Enabled(s, a)
  {
    match a
    case Begin(n, pair, link) =>
      s.(proc := Some(Publication(MakeDir, n, pair, None, link)), offered := s.offered + {pair})
    case Step => ApplyStep(s, valid)
    case Part(b) =>
      var name := Temp(s.proc.value.n);
      var d := s.dirs[name];
      s.(dirs := s.dirs[name := if s.proc.value.stage == WriteKey then d.(key := Some(b)) else d.(cert := Some(b))])
    case RemoveKey(name) => s.(dirs := s.dirs[name := s.dirs[name].(key := None)])
    case RemoveCert(name) => s.(dirs := s.dirs[name := s.dirs[name].(cert := None)])
    case RemoveDir(name) => s.(dirs := s.dirs - {name})
    case Finish => s.(proc := None)
    case Fail =>
      var p := s.proc.value;
      (match p.stage
       case MakeDir => s.(proc := None)
       case Sweep => s
       case ReadCurrent => s.(proc := Some(p.(stage := Link, previous := None)))
       case Switch => At(s, Abandon).(links := s.links - {p.link})
       case _ => At(s, Abandon))
    case Stop => s.(proc := None)
  }

  predicate Runs(s: State, acts: seq<Action>, valid: (bytes, bytes) -> bool)
    decreases acts
  {
    acts != [] ==> Enabled(s, acts[0]) && Runs(Apply(s, acts[0], valid), acts[1..], valid)
  }

  function After(s: State, acts: seq<Action>, valid: (bytes, bytes) -> bool): State
    requires Runs(s, acts, valid)
    decreases acts
  {
    if acts == [] then s else After(Apply(s, acts[0], valid), acts[1..], valid)
  }

  /** Generation n holds both files of one offered pair that passed the check. */
  ghost predicate Complete(s: State, n: nat, valid: (bytes, bytes) -> bool) {
    && Generation(n) in s.dirs && s.dirs[Generation(n)].cert.Some? && s.dirs[Generation(n)].key.Some?
    && var (cert, key) := (s.dirs[Generation(n)].cert.value, s.dirs[Generation(n)].key.value);
       Pair(cert, key) in s.offered && valid(cert, key)
  }

  /** The publication's generation holds its pair. */
  predicate Installed(s: State, p: Publication) {
    Generation(p.n) in s.dirs && s.dirs[Generation(p.n)] == Dir(Some(p.pair.key), Some(p.pair.cert))
  }

  /** The publication's checked pair is in place and not yet current; `previous`, if it was read, is. */
  ghost predicate Ready(s: State, p: Publication, valid: (bytes, bytes) -> bool) {
    && Installed(s, p) && valid(p.pair.cert, p.pair.key) && s.current != Some(p.n)
    && (p.previous.Some? ==> p.previous == s.current)
  }

  /** What the stage of a publication guarantees. */
  ghost predicate StageHolds(s: State, p: Publication, valid: (bytes, bytes) -> bool) {
    && p.pair in s.offered
    && match p.stage
       case MakeDir => p.previous.None?
       case WriteKey => Temp(p.n) in s.dirs && p.previous.None?
       case WriteCert => Temp(p.n) in s.dirs && p.previous.None? && s.dirs[Temp(p.n)].key == Some(p.pair.key)
       case Check =>
         Temp(p.n) in s.dirs && p.previous.None? && s.dirs[Temp(p.n)] == Dir(Some(p.pair.key), Some(p.pair.cert))
       case Install =>
         && Temp(p.n) in s.dirs && s.dirs[Temp(p.n)] == Dir(Some(p.pair.key), Some(p.pair.cert))
         && valid(p.pair.cert, p.pair.key) && p.previous.None?
       case Sync => Ready(s, p, valid)
       case ReadCurrent => Ready(s, p, valid)
       case Link => Ready(s, p, valid)
       case Switch => Ready(s, p, valid)
       case Sweep =>
         Installed(s, p) && s.current == Some(p.n) && (p.previous.Some? ==> Complete(s, p.previous.value, valid))
       case _ => true
  }

  /** `current`, if it is there, resolves to one complete, checked pair. */
  ghost predicate Good(s: State, valid: (bytes, bytes) -> bool) {
    && (s.current.Some? ==> Complete(s, s.current.value, valid))
    && (s.proc.Some? ==> StageHolds(s, s.proc.value, valid))
  }

  lemma GoodPreparation(s: State, valid: (bytes, bytes) -> bool)
    requires Good(s, valid) && Enabled(s, Step) && s.proc.value.stage in {MakeDir, WriteKey, WriteCert, Check, Install}
    ensures Good(ApplyStep(s, valid), valid) && ApplyStep(s, valid).current == s.current
  {
  }

  lemma GoodSwitch(s: State, valid: (bytes, bytes) -> bool)
    requires Good(s, valid) && Enabled(s, Step) && s.proc.value.stage !in {MakeDir, WriteKey, WriteCert, Check, Install}
    ensures Good(ApplyStep(s, valid), valid)
    ensures s.current.Some? ==> ApplyStep(s, valid).current.Some?
  {
  }

  lemma GoodCall(s: State, valid: (bytes, bytes) -> bool)
    requires Good(s, valid) && Enabled(s, Step)
    ensures Good(ApplyStep(s, valid), valid)
    ensures s.current.Some? ==> ApplyStep(s, valid).current.Some?
  {
    hide Good, ApplyStep;
    if s.proc.value.stage in {MakeDir, WriteKey, WriteCert, Check, Install} {
      GoodPreparation(s, valid);
    } else {
      GoodSwitch(s, valid);
    }
  }

  lemma GoodStep(s: State, a: Action, valid: (bytes, bytes) -> bool)
    requires Good(s, valid) && Enabled(s, a)
    ensures Good(Apply(s, a, valid), valid)
    ensures s.current.Some? ==> Apply(s, a, valid).current.Some?
  {
    hide ApplyStep;
    if a == Step {
      GoodCall(s, valid);
    }
  }

  /**
    However a sequence of publications proceeds, fails or stops, a link that resolved to a complete,
    checked pair goes on doing so, and every generation it ever names holds one published pair.
  */
  lemma {:induction false} CurrentAlwaysResolves(s: State, acts: seq<Action>, valid: (bytes, bytes) -> bool)
    requires Good(s, valid) && Runs(s, acts, valid)
    ensures Good(After(s, acts, valid), valid)
    ensures s.current.Some? ==> After(s, acts, valid).current.Some?
    decreases acts
  {
    if acts == [] {
    } else {
      GoodStep(s, acts[0], valid);
      hide Good, Enabled, Apply;
      CurrentAlwaysResolves(Apply(s, acts[0], valid), acts[1..], valid);
    }
  }

  /** The removals after a switch spare the new generation and the one that was read as current before. */
  lemma SweepSparesTwo(s: State, acts: seq<Action>, valid: (bytes, bytes) -> bool, a: Action)
    requires Good(s, valid) && Runs(s, acts, valid) && Enabled(After(s, acts, valid), a)
    requires var p := After(s, acts, valid).proc;
             p.Some? && p.value.stage == Sweep && (a.RemoveKey? || a.RemoveCert? || a.RemoveDir?)
    ensures var (p, s') := (After(s, acts, valid).proc.value, Apply(After(s, acts, valid), a, valid));
            s'.current == Some(p.n) && Complete(s', p.n, valid)
                && (p.previous.Some? ==> Complete(s', p.previous.value, valid))
  {
    CurrentAlwaysResolves(s, acts, valid);
    hide Runs, After;
    GoodStep(After(s, acts, valid), a, valid);
  }

  /** The switch makes the publication's own pair current in one step, and leaves the old generation in place. */
  lemma SwitchPublishes(s: State, acts: seq<Action>, valid: (bytes, bytes) -> bool)
    requires Good(s, valid) && Runs(s, acts, valid) && Enabled(After(s, acts, valid), Step)
    requires After(s, acts, valid).proc.value.stage == Switch
    ensures var (t, t') := (After(s, acts, valid), Apply(After(s, acts, valid), Step, valid));
            t'.current == Some(t.proc.value.n) && Installed(t', t.proc.value)
            && valid(t.proc.value.pair.cert, t.proc.value.pair.key)
            && (t.current.Some? ==> Complete(t', t.current.value, valid))
  {
    CurrentAlwaysResolves(s, acts, valid);
    hide Runs, After;
  }

  // ----- when the old generation survives

  predicate NoBegin(acts: seq<Action>) { forall a | a in acts :: !a.Begin? }

  /** Whatever the publication does from here on, stops included, generation n stays complete. */
  ghost predicate SureToSurvive(s: State, n: nat, valid: (bytes, bytes) -> bool) {
    forall acts | Runs(s, acts, valid) && NoBegin(acts) :: Complete(After(s, acts, valid), n, valid)
  }

  /** A sweep that knows generation n as the previous one, or no publication at all. */
  ghost predicate Spared(s: State, n: nat, valid: (bytes, bytes) -> bool) {
    && Complete(s, n, valid)
    && (s.proc.Some? ==> s.proc.value.stage == Sweep && s.proc.value.previous == Some(n))
  }

  lemma SparedStep(s: State, a: Action, n: nat, valid: (bytes, bytes) -> bool)
    requires Spared(s, n, valid) && Enabled(s, a) && !a.Begin?
    ensures Spared(Apply(s, a, valid), n, valid)
  {
    hide ApplyStep;
  }

  lemma {:induction false} SparedRun(s: State, acts: seq<Action>, n: nat, valid: (bytes, bytes) -> bool)
    requires Spared(s, n, valid) && Runs(s, acts, valid) && NoBegin(acts)
    ensures Spared(After(s, acts, valid), n, valid)
    decreases acts
  {
    hide Spared, Enabled, Apply;
    if acts == [] {
    } else {
      SparedStep(s, acts[0], n, valid);
      SparedRun(Apply(s, acts[0], valid), acts[1..], n, valid);
    }
  }

  /** From the switch on, the generation it replaces is sure to survive exactly if the link could be read. */
  lemma OldSurvivesExactly(s: State, acts: seq<Action>, valid: (bytes, bytes) -> bool)
    requires Good(s, valid) && Runs(s, acts, valid) && Enabled(After(s, acts, valid), Step)
    requires After(s, acts, valid).proc.value.stage == Switch
    ensures var (t, t') := (After(s, acts, valid), Apply(After(s, acts, valid), Step, valid));
            (t.current.Some? ==> SureToSurvive(t', t.current.value, valid))
            <==> t.current.None? || t.proc.value.previous.Some?
  {
    CurrentAlwaysResolves(s, acts, valid);
    var t := After(s, acts, valid);
    var t' := Apply(t, Step, valid);
    if t.current.Some? {
      var n := t.current.value;
      if t.proc.value.previous.Some? {
        forall later | Runs(t', later, valid) && NoBegin(later)
          ensures Complete(After(t', later, valid), n, valid)
        {
          SparedRun(t', later, n, valid);
        }
      } else {
        LostBySweep(t', n, valid);
      }
    }
  }

  /** A sweep that does not know generation n removes it. */
  lemma LostBySweep(s: State, n: nat, valid: (bytes, bytes) -> bool)
    requires s.proc.Some? && s.proc.value.stage == Sweep && s.proc.value.previous != Some(n) && s.proc.value.n != n
    requires Generation(n) in s.dirs
    ensures !SureToSurvive(s, n, valid)
  {
    var acts := [RemoveDir(Generation(n))];
    assert acts[1..] == [] && Runs(s, acts, valid);
    assert Generation(n) !in After(s, acts, valid).dirs;
    assert NoBegin(acts);
  }

  ghost predicate Reach(s0: State, s: State, valid: (bytes, bytes) -> bool) {
    exists acts :: Runs(s0, acts, valid) && After(s0, acts, valid) == s
  }

  lemma {:induction false} OneMore(s: State, acts: seq<Action>, a: Action, valid: (bytes, bytes) -> bool)
    requires Runs(s, acts, valid) && Enabled(After(s, acts, valid), a)
    ensures Runs(s, acts + [a], valid) && After(s, acts + [a], valid) == Apply(After(s, acts, valid), a, valid)
    decreases acts
  {
    hide Enabled, Apply;
    if acts == [] {
      assert acts + [a] == [a] && [a][1..] == [];
    } else {
      assert (acts + [a])[0] == acts[0] && (acts + [a])[1..] == acts[1..] + [a];
      OneMore(Apply(s, acts[0], valid), acts[1..], a, valid);
    }
  }

  lemma ReachStep(s0: State, s: State, a: Action, valid: (bytes, bytes) -> bool)
    requires Reach(s0, s, valid) && Enabled(s, a)
    ensures Reach(s0, Apply(s, a, valid), valid)
  {
    hide Enabled, Apply;
    var acts :| Runs(s0, acts, valid) && After(s0, acts, valid) == s;
    OneMore(s0, acts, a, valid);
  }

  /** A new pair is prepared and installed, nothing failing. */
  lemma ReachInstalled(s: State, p: Publication, valid: (bytes, bytes) -> bool)
    requires s.proc.None? && p.previous.None? && valid(p.pair.cert, p.pair.key)
    requires Temp(p.n) !in s.dirs && Generation(p.n) !in s.dirs
    ensures var dirs := s.dirs[Generation(p.n) := Dir(Some(p.pair.key), Some(p.pair.cert))];
            Reach(s, s.(dirs := dirs, proc := Some(p.(stage := Sync)), offered := s.offered + {p.pair}), valid)
  {
    hide Reach;
    var (n, key, cert) := (p.n, Some(p.pair.key), Some(p.pair.cert));
    ReachStart(s, valid);
    var b := s.(offered := s.offered + {p.pair});
    ReachStep(s, s, Begin(n, p.pair, p.link), valid);
    ReachStep(s, b.(proc := Some(p.(stage := MakeDir))), Step, valid);
    var dirs := s.dirs[Temp(n) := Dir(None, None)];
    ReachStep(s, b.(dirs := dirs, proc := Some(p.(stage := WriteKey))), Step, valid);
    dirs := dirs[Temp(n) := Dir(key, None)];
    ReachStep(s, b.(dirs := dirs, proc := Some(p.(stage := WriteCert))), Step, valid);
    dirs := dirs[Temp(n) := Dir(key, cert)];
    ReachStep(s, b.(dirs := dirs, proc := Some(p.(stage := Check))), Step, valid);
    ReachStep(s, b.(dirs := dirs, proc := Some(p.(stage := Install))), Step, valid);
    assert (dirs - {Temp(n)})[Generation(n) := Dir(key, cert)] == s.dirs[Generation(n) := Dir(key, cert)];
  }

  lemma ReachStart(s: State, valid: (bytes, bytes) -> bool)
    ensures Reach(s, s, valid)
  {
    assert Runs(s, [], valid) && After(s, [], valid) == s;
  }

  /** From any idle state: if reading the link fails, nothing else does and the sweep comes that far, the old
      generation is gone. */
  lemma OldGenerationLost(s: State, p: Publication, was: nat, valid: (bytes, bytes) -> bool)
    requires s.proc.None? && s.current == Some(was) && Generation(was) in s.dirs
    requires p.previous.None? && valid(p.pair.cert, p.pair.key)
    requires Temp(p.n) !in s.dirs && Generation(p.n) !in s.dirs && p.link !in s.links
    ensures exists s' :: Reach(s, s', valid) && s'.current == Some(p.n) && Generation(was) !in s'.dirs
  {
    hide Reach;
    ReachInstalled(s, p, valid);
    var dirs := s.dirs[Generation(p.n) := Dir(Some(p.pair.key), Some(p.pair.cert))];
    var t := s.(dirs := dirs, offered := s.offered + {p.pair});
    ReachStep(s, t.(proc := Some(p.(stage := Sync))), Step, valid);
    ReachStep(s, t.(proc := Some(p.(stage := ReadCurrent))), Fail, valid);
    ReachStep(s, t.(proc := Some(p.(stage := Link))), Step, valid);
    var u := t.(links := s.links + {p.link}, proc := Some(p.(stage := Switch)));
    ReachStep(s, u, Step, valid);
    ReachStep(s, Apply(u, Step, valid), RemoveDir(Generation(was)), valid);
    var s' := Apply(Apply(u, Step, valid), RemoveDir(Generation(was)), valid);
    assert s'.current == Some(p.n) && Generation(was) !in s'.dirs;
  }

  // ----- whole publications

  /** With no failure the pair becomes current, the old generation is known as the previous one, and nothing else has
      changed but for the temporary names. */
  lemma PublishSucceeds(s: State, p: Publication, valid: (bytes, bytes) -> bool)
    requires s.proc.None? && p.previous.None? && valid(p.pair.cert, p.pair.key)
    requires Temp(p.n) !in s.dirs && Generation(p.n) !in s.dirs && p.link !in s.links
    ensures var dirs := s.dirs[Generation(p.n) := Dir(Some(p.pair.key), Some(p.pair.cert))];
            Reach(s, State(dirs, Some(p.n), s.links, Some(p.(stage := Sweep, previous := s.current)),
                           s.offered + {p.pair}), valid)
  {
    hide Reach;
    ReachInstalled(s, p, valid);
    var dirs := s.dirs[Generation(p.n) := Dir(Some(p.pair.key), Some(p.pair.cert))];
    var t := s.(dirs := dirs, offered := s.offered + {p.pair});
    ReachStep(s, t.(proc := Some(p.(stage := Sync))), Step, valid);
    ReachStep(s, t.(proc := Some(p.(stage := ReadCurrent))), Step, valid);
    var q := p.(previous := s.current);
    ReachStep(s, t.(proc := Some(q.(stage := Link))), Step, valid);
    var u := t.(links := s.links + {p.link}, proc := Some(q.(stage := Switch)));
    ReachStep(s, u, Step, valid);
    assert s.links + {p.link} - {p.link} == s.links;
  }

  /** A removal by the sweep or after a failure: files one by one, then the directory. */
  lemma Removes(s0: State, s: State, name: Name, valid: (bytes, bytes) -> bool)
    requires Reach(s0, s, valid) && s.proc.Some? && MayRemove(s.proc.value, name) && name in s.dirs
    ensures Reach(s0, s.(dirs := s.dirs - {name}), valid)
  {
    hide Reach;
    var d := s.dirs[name];
    ReachStep(s0, s, RemoveKey(name), valid);
    var s1 := s.(dirs := s.dirs[name := d.(key := None)]);
    ReachStep(s0, s1, RemoveCert(name), valid);
    var s2 := s.(dirs := s.dirs[name := d.(key := None, cert := None)]);
    assert s1.dirs[name := d.(key := None, cert := None)] == s2.dirs;
    ReachStep(s0, s2, RemoveDir(name), valid);
    assert s2.dirs - {name} == s.dirs - {name};
  }

  /** The sweep can remove every generation but the new and the previous one, and then the publication is over. */
  lemma SweepRemoves(s: State, n: nat, valid: (bytes, bytes) -> bool)
    requires s.proc.Some? && s.proc.value.stage == Sweep && Generation(n) in s.dirs
    requires n != s.proc.value.n && Some(n) != s.proc.value.previous
    ensures Reach(s, s.(dirs := s.dirs - {Generation(n)}, proc := None), valid)
  {
    hide Reach;
    ReachStart(s, valid);
    Removes(s, s, Generation(n), valid);
    ReachStep(s, s.(dirs := s.dirs - {Generation(n)}), Finish, valid);
  }

  /** A pair that does not pass the check, or a write that fails, leaves everything as it was. */
  lemma BadPairLeavesNothing(s: State, p: Publication, valid: (bytes, bytes) -> bool)
    requires s.proc.None? && p.previous.None? && !valid(p.pair.cert, p.pair.key) && Temp(p.n) !in s.dirs
    ensures Reach(s, s.(offered := s.offered + {p.pair}), valid)
  {
    hide Reach;
    var (n, key, cert) := (p.n, Some(p.pair.key), Some(p.pair.cert));
    ReachStart(s, valid);
    var b := s.(offered := s.offered + {p.pair});
    ReachStep(s, s, Begin(n, p.pair, p.link), valid);
    ReachStep(s, b.(proc := Some(p.(stage := MakeDir))), Step, valid);
    var dirs := s.dirs[Temp(n) := Dir(None, None)];
    ReachStep(s, b.(dirs := dirs, proc := Some(p.(stage := WriteKey))), Step, valid);
    dirs := dirs[Temp(n) := Dir(key, None)];
    ReachStep(s, b.(dirs := dirs, proc := Some(p.(stage := WriteCert))), Step, valid);
    dirs := dirs[Temp(n) := Dir(key, cert)];
    ReachStep(s, b.(dirs := dirs, proc := Some(p.(stage := Check))), Step, valid);
    var t := b.(dirs := dirs, proc := Some(p.(stage := Abandon)));
    Removes(s, t, Temp(n), valid);
    ReachStep(s, t.(dirs := dirs - {Temp(n)}), Finish, valid);
    assert dirs - {Temp(n)} == s.dirs;
  }

  /** What a failing call leaves: the link made for the switch is removed, a new generation stays behind unnamed. */
  lemma FailureLeaves(s: State, valid: (bytes, bytes) -> bool)
    requires s.proc.Some? && s.proc.value.stage != Sweep
    ensures var (p, t) := (s.proc.value, Apply(s, Fail, valid));
            && t.current == s.current && t.dirs == s.dirs && t.offered == s.offered
            && t.links == (if p.stage == Switch then s.links - {p.link} else s.links)
            && t.proc == if p.stage == MakeDir then None
                         else if p.stage == ReadCurrent then Some(p.(stage := Link, previous := None))
                         else Some(p.(stage := Abandon))
  {
  }

  /** A name that is taken, for the directory or for the link, ends the publication without touching anything. */
  lemma NameTaken(s: State, valid: (bytes, bytes) -> bool)
    requires s.proc.Some?
    ensures var p := s.proc.value;
            && (p.stage == MakeDir && Temp(p.n) in s.dirs ==>
                  Enabled(s, Step) && Apply(s, Step, valid) == s.(proc := None))
            && (p.stage == Link && p.link in s.links ==>
                  Enabled(s, Step) && Apply(s, Step, valid) == s.(proc := Some(p.(stage := Abandon))))
  {
  }

  /** A process that stops leaves the files as they are: a file being written holds what was written so far. */
  lemma StopLeavesPart(s: State, b: bytes, valid: (bytes, bytes) -> bool)
    ensures Enabled(s, Stop) && Apply(s, Stop, valid) == s.(proc := None)
    ensures s.proc.Some? && (s.proc.value.stage == WriteKey || s.proc.value.stage == WriteCert)
            && Temp(s.proc.value.n) in s.dirs ==>
              var name := Temp(s.proc.value.n);
              var d := s.dirs[name];
              var d' := if s.proc.value.stage == WriteKey then Dir(Some(b), d.cert) else Dir(d.key, Some(b));
              Enabled(s, Part(b)) && Apply(s, Part(b), valid) == s.(dirs := s.dirs[name := d'])
  {
  }
}
