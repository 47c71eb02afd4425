/** Which file each unit's process has read, beside the slot lifecycle: when the mode that a load or a
    switch records for a slot is the one that the slot's process serves
    (go/internal/engine/lifecycle.go, manager.go). */
module LifecycleServed {
  import opened Wrappers
  import opened SlotInference
  import opened Lifecycle
  import opened LifecycleSafety
  import opened LifecycleGaps

  /** A world, with the environment file that each unit's process has read; None without a process. */
  datatype Lived = Lived(w: World, procs: map<string, Option<EnvFile>>)

  /** What a step may do to the process of a unit, where env is the unit's file after the step. A process
      reads its file once: an active unit keeps its process, even when it is started again, and a unit
      that comes up reads the file at some moment while it is activating. */
  predicate Processes(u: Unit, u': Unit, env: EnvFile, p: Option<EnvFile>, p': Option<EnvFile>)
  {
    match u'
    case Gone => p' == None
    case Activating => p' == None || p' == Some(env) || (u == Activating && p' == p)
    case Active => if u == Active then p' == p else p' == Some(env) || (u == Activating && p.Some? && p' == p)
    case Deactivating(_) => p' == None || p' == p
  }

  predicate ProcessFits(u: Unit, p: Option<EnvFile>)
  {
    (u == Gone ==> p == None) && (u == Active ==> p.Some?)
  }

  ghost predicate Fits(cfg: Config, l: Lived)
  {
    && Shaped(cfg, l.w) && l.procs.Keys == cfg.slots.Keys
    && forall s | s in cfg.slots :: ProcessFits(l.w.units[s], l.procs[s])
  }

  ghost predicate SlotLives(l: Lived, l': Lived, s: string)
    requires s in l.w.units && s in l'.w.units && s in l'.w.envs && s in l.procs && s in l'.procs
  {
    Processes(l.w.units[s], l'.w.units[s], l'.w.envs[s], l.procs[s], l'.procs[s])
  }

  ghost predicate LivedStep(cfg: Config, l: Lived, l': Lived)
  {
    && Step(cfg, l.w, l'.w) && Fits(cfg, l) && Fits(cfg, l')
    && forall s | s in cfg.slots :: SlotLives(l, l', s)
  }

  ghost predicate IsLife(cfg: Config, ls: seq<Lived>)
  {
    ls != [] && forall i | 0 <= i < |ls| - 1 :: LivedStep(cfg, ls[i], ls[i + 1])
  }

  /** From a fresh start, whatever the processes of the active units have read. */
  ghost predicate Lives(cfg: Config, first: Lived, l: Lived)
  {
    && Fits(cfg, first) && Fresh(cfg, first.w)
    && exists ls :: IsLife(cfg, ls) && ls[0] == first && ls[|ls| - 1] == l
  }

  // ---- The processes restrict no step ----

  function NextProcess(u: Unit, u': Unit, env: EnvFile, p: Option<EnvFile>): (p': Option<EnvFile>)
    requires ProcessFits(u, p)
    ensures Processes(u, u', env, p, p') && ProcessFits(u', p')
  {
    match u'
    case Gone => None
    case Activating => if u == Activating then p else None
    case Active => if u == Active || (u == Activating && p.Some?) then p else Some(env)
    case Deactivating(_) => None
  }

  /** Every step of the lifecycle is one that processes can go along with. */
  lemma StepIsLived(cfg: Config, l: Lived, w': World) returns (l': Lived)
    requires Fits(cfg, l) && Step(cfg, l.w, w')
    ensures l'.w == w' && LivedStep(cfg, l, l')
  {
    hide Step, Processes, ProcessFits;
    StepShapes(cfg, l.w, w');
    l' := Lived(w', map s | s in cfg.slots :: NextProcess(l.w.units[s], w'.units[s], w'.envs[s], l.procs[s]));
  }

  lemma StepShapes(cfg: Config, w: World, w': World)
    requires Step(cfg, w, w')
    ensures Shaped(cfg, w) && Shaped(cfg, w')
  {
  }

  // ---- Commits ----

  /** waitServiceRunning has succeeded and the mode is recorded. */
  ghost predicate Commits(w: World, w': World)
  {
    SettleStep(w, w') && w'.op == Idle
  }

  ghost predicate ServesIfUp(cfg: Config, p: Option<EnvFile>, m: string)
  {
    p.Some? ==> Serves(cfg, p.value, m)
  }

  /** If this step commits the mode of s, the process of s, if there is one, serves that mode. */
  ghost predicate CommitAgrees(cfg: Config, l: Lived, l': Lived, s: string)
  {
    Commits(l.w, l'.w) && l.w.op.slot == s && s in l'.procs && s in l'.w.modes ==>
      ServesIfUp(cfg, l'.procs[s], l'.w.modes[s])
  }

  // ---- After the unit was seen gone ----

  /** The process that is waited for has read the file of the mode being placed. */
  ghost predicate ReadsOurs(cfg: Config, l: Lived)
  {
    match l.w.op
    case Placing(m, s, Gone, Running) => s in l.procs && ServesIfUp(cfg, l.procs[s], m)
    case _ => true
  }

  lemma OthersDoNotRun(cfg: Config, w: World, w': World)
    requires Shaped(cfg, w)
    requires LoadBegins(cfg, w, w') || LoadClears(cfg, w, w') || UnloadStep(cfg, w, w') || SwitchStep(cfg, w, w') ||
             UnloadAllStep(cfg, w, w')
    ensures !(w'.op.Placing? && w'.op.pc == Running)
  {
    hide Free, TargetSlot, Stopped, PollResult, Shaped;
  }

  /** Placing goes from starting to running at a start, and otherwise stays as it is until it settles. */
  lemma IntoRunning(cfg: Config, w: World, w': World)
    requires Step(cfg, w, w') && w'.op.Placing? && w'.op.pc == Running
    ensures w.op == w'.op || (w.op == w'.op.(pc := Starting) && StartStep(w, w'))
  {
    hide SlotReconciles, LoadBegins, LoadClears, UnloadStep, SwitchStep, UnloadAllStep, Serves, Started, Drifts;
    if LoadBegins(cfg, w, w') || LoadClears(cfg, w, w') || UnloadStep(cfg, w, w') || SwitchStep(cfg, w, w') ||
       UnloadAllStep(cfg, w, w')
    {
      OthersDoNotRun(cfg, w, w');
    }
  }

  lemma ProcessChoice(u: Unit, u': Unit, env: EnvFile, p: Option<EnvFile>, p': Option<EnvFile>)
    requires Processes(u, u', env, p, p')
    ensures p' == None || p' == Some(env) || p' == p
    ensures u == Gone && p == None ==> p' == None || p' == Some(env)
  {
  }

  lemma StepReadsOurs(cfg: Config, l: Lived, l': Lived)
    requires CatalogConfig(cfg) && LivedStep(cfg, l, l') && Inv(cfg, l.w) && ReadsOurs(cfg, l)
    ensures Inv(cfg, l'.w) && ReadsOurs(cfg, l')
  {
    StepKeeps(cfg, l.w, l'.w);
    hide Step, CatalogConfig, Serves, Processes, ModesDistinct, AliveTracked, Claims, Fresh;
    var op := l'.w.op;
    if op.Placing? && op.seen == Gone && op.pc == Running {
      IntoRunning(cfg, l.w, l'.w);
      assert SlotLives(l, l', op.slot);
      ProcessChoice(l.w.units[op.slot], l'.w.units[op.slot], l'.w.envs[op.slot], l.procs[op.slot],
                    l'.procs[op.slot]);
    }
  }

  lemma {:induction false} LifeReadsOurs(cfg: Config, ls: seq<Lived>)
    requires CatalogConfig(cfg) && IsLife(cfg, ls) && Inv(cfg, ls[0].w) && ReadsOurs(cfg, ls[0])
    ensures Inv(cfg, ls[|ls| - 1].w) && ReadsOurs(cfg, ls[|ls| - 1])
    decreases |ls|
  {
    hide LivedStep, CatalogConfig, Inv, ReadsOurs;
    if |ls| > 1 {
      assert LivedStep(cfg, ls[0], ls[0 + 1]);
      StepReadsOurs(cfg, ls[0], ls[1]);
      LaterLife(cfg, ls);
      LifeReadsOurs(cfg, ls[1..]);
    }
  }

  lemma LaterLife(cfg: Config, ls: seq<Lived>)
    requires IsLife(cfg, ls) && |ls| > 1
    ensures IsLife(cfg, ls[1..]) && ls[1..][|ls[1..]| - 1] == ls[|ls| - 1]
  {
    hide LivedStep;
    forall i | 0 <= i < |ls[1..]| - 1
      ensures LivedStep(cfg, ls[1..][i], ls[1..][i + 1])
    {
      assert LivedStep(cfg, ls[i + 1], ls[i + 1 + 1]);
    }
  }

  lemma LivesKeeps(cfg: Config, first: Lived, l: Lived)
    requires CatalogConfig(cfg) && Lives(cfg, first, l)
    ensures Inv(cfg, l.w) && ReadsOurs(cfg, l)
  {
    hide CatalogConfig, LivedStep;
    assert Inv(cfg, first.w) && ReadsOurs(cfg, first);
    var ls :| IsLife(cfg, ls) && ls[0] == first && ls[|ls| - 1] == l;
    hide Inv, ReadsOurs;
    LifeReadsOurs(cfg, ls);
  }

  lemma CommitRecords(cfg: Config, l: Lived, l': Lived)
    requires Shaped(cfg, l.w) && Commits(l.w, l'.w)
    ensures l.w.op.Placing? && l.w.op.pc == Running && l.w.op.slot in cfg.slots
    ensures l'.w == l.w.(modes := l.w.modes[l.w.op.slot := l.w.op.mode], op := Idle)
  {
  }

  lemma CommitOfOurs(cfg: Config, l: Lived, l': Lived, s: string)
    requires Inv(cfg, l.w) && LivedStep(cfg, l, l') && Commits(l.w, l'.w) && l.w.op.slot == s
    requires s in l.procs && ServesIfUp(cfg, l.procs[s], l.w.op.mode)
    ensures CommitAgrees(cfg, l, l', s)
  {
    hide Step, Serves, Processes, ModesDistinct, AliveTracked, Claims, Fresh, Commits;
    CommitRecords(cfg, l, l');
    assert SlotLives(l, l', s);
    ProcessChoice(l.w.units[s], l'.w.units[s], l'.w.envs[s], l.procs[s], l'.procs[s]);
  }

  /** In every run, a mode that is committed after the unit was seen gone is the one that the slot's process
      serves; every switch commits so. */
  lemma GoneThenServed(cfg: Config, first: Lived, l: Lived, l': Lived, m: string, s: string)
    requires CatalogConfig(cfg) && Lives(cfg, first, l) && LivedStep(cfg, l, l')
    requires l.w.op == Placing(m, s, Gone, Running)
    ensures CommitAgrees(cfg, l, l', s)
  {
    hide CatalogConfig, Lives, LivedStep, Inv;
    LivesKeeps(cfg, first, l);
    if Commits(l.w, l'.w) {
      hide Commits, CommitAgrees;
      CommitOfOurs(cfg, l, l', s);
    }
  }

  // ---- One load, from reading its unit ----

  /** From a to b without an operation ending in between. */
  ghost predicate LivesDuring(cfg: Config, a: Lived, b: Lived)
  {
    exists ls :: IsLife(cfg, ls) && Busy(ls) && ls[0] == a && ls[|ls| - 1] == b
  }

  ghost predicate Busy(ls: seq<Lived>)
  {
    forall l | l in ls :: l.w.op != Idle
  }

  /** The unit will not come up unstarted, or the file in place already serves the mode, and so does a
      process that is on its way up. */
  ghost predicate Settled(cfg: Config, l: Lived, m: string, s: string)
    requires s in l.w.units && s in l.w.envs && s in l.procs
  {
    || !Alive(l.w.units[s])
    || (Serves(cfg, l.w.envs[s], m) && (l.w.units[s] == Activating ==> ServesIfUp(cfg, l.procs[s], m)))
  }

  /** What a load that began to read its unit in such a state keeps. */
  ghost predicate OnCourse(cfg: Config, l: Lived, m: string, s: string)
  {
    s in l.w.units && s in l.w.envs && s in l.procs &&
    match l.w.op
    case LoadReading(m', s') => m' == m && s' == s && Settled(cfg, l, m, s)
    case LoadStopping(m', s') => m' == m && s' == s
    case LoadAwaiting(m', s') => m' == m && s' == s
    case Placing(m', s', seen, _) =>
      m' == m && s' == s &&
      (seen == Gone || (Serves(cfg, l.w.envs[s], m) && ServesIfUp(cfg, l.procs[s], m)))
    case _ => false
  }

  /** Reconciliations and units moving by themselves. */
  lemma OnCourseAround(cfg: Config, l: Lived, l': Lived, m: string, s: string)
    requires OnCourse(cfg, l, m, s) && Fits(cfg, l) && Fits(cfg, l') && s in cfg.slots && SlotLives(l, l', s)
    requires l'.w.op == l.w.op && l'.w.envs == l.w.envs
    requires l'.w.units[s] == l.w.units[s] || Drifts(l.w.units[s], l'.w.units[s])
    ensures OnCourse(cfg, l', m, s)
  {
    hide Serves;
  }

  lemma ClearsGoOn(cfg: Config, w: World, w': World)
    requires Shaped(cfg, w) && LoadClears(cfg, w, w') && w'.op != Idle
    ensures w'.envs == w.envs
    ensures match w.op
            case LoadReading(m, s) =>
              && s in w.units
              && (w'.op == LoadStopping(m, s) || w'.op == LoadAwaiting(m, s) ||
                  (w'.op == Placing(m, s, w.units[s], Writing) && (w.units[s] == Gone || w.units[s] == Activating)))
            case LoadStopping(m, s) => w'.op == LoadAwaiting(m, s)
            case LoadAwaiting(m, s) => w'.op == Placing(m, s, Gone, Writing)
            case _ => true
  {
    hide Stopped;
  }

  lemma OnCourseClears(cfg: Config, l: Lived, l': Lived, m: string, s: string)
    requires OnCourse(cfg, l, m, s) && Fits(cfg, l) && Fits(cfg, l') && s in cfg.slots && SlotLives(l, l', s)
    requires LoadClears(cfg, l.w, l'.w) && l'.w.op != Idle
    ensures OnCourse(cfg, l', m, s)
  {
    ClearsGoOn(cfg, l.w, l'.w);
    hide LoadClears, Serves, Processes, ProcessFits;
    ProcessChoice(l.w.units[s], l'.w.units[s], l'.w.envs[s], l.procs[s], l'.procs[s]);
  }

  lemma PlaceGoesOn(cfg: Config, w: World, w': World)
    requires PlaceStep(cfg, w, w') && w'.op != Idle
    ensures w.op.Placing? && w'.op == w.op.(pc := w'.op.pc) && (w.op.pc == Writing ==> w.op.slot in w'.envs)
    ensures w'.envs == w.envs || Serves(cfg, w'.envs[w.op.slot], w.op.mode)
  {
    hide Serves, Stopped, Started;
  }

  lemma OnCoursePlaces(cfg: Config, l: Lived, l': Lived, m: string, s: string)
    requires OnCourse(cfg, l, m, s) && Fits(cfg, l) && Fits(cfg, l') && s in cfg.slots && SlotLives(l, l', s)
    requires PlaceStep(cfg, l.w, l'.w) && l'.w.op != Idle
    ensures OnCourse(cfg, l', m, s)
  {
    hide PlaceStep, Serves, Processes, ProcessFits, Settled;
    PlaceGoesOn(cfg, l.w, l'.w);
    ProcessChoice(l.w.units[s], l'.w.units[s], l'.w.envs[s], l.procs[s], l'.procs[s]);
  }

  lemma WhichSteps(cfg: Config, w: World, w': World)
    requires Step(cfg, w, w')
    requires w.op.LoadReading? || w.op.LoadStopping? || w.op.LoadAwaiting? || w.op.Placing?
    ensures LoadClears(cfg, w, w') || PlaceStep(cfg, w, w') ||
            (w'.op == w.op && w'.envs == w.envs && forall s | s in cfg.slots ::
               w'.units[s] == w.units[s] || Drifts(w.units[s], w'.units[s]))
  {
    hide SlotReconciles, LoadClears, PlaceStep, Drifts, Free, TargetSlot, Stopped, PollResult;
  }

  lemma OnCourseStep(cfg: Config, l: Lived, l': Lived, m: string, s: string)
    requires OnCourse(cfg, l, m, s) && LivedStep(cfg, l, l') && l'.w.op != Idle
    ensures OnCourse(cfg, l', m, s)
  {
    hide Step, LoadClears, PlaceStep, Drifts, Settled, Serves, ServesIfUp, Processes, ProcessFits;
    WhichSteps(cfg, l.w, l'.w);
    assert SlotLives(l, l', s);
    if LoadClears(cfg, l.w, l'.w) {
      OnCourseClears(cfg, l, l', m, s);
    } else if PlaceStep(cfg, l.w, l'.w) {
      OnCoursePlaces(cfg, l, l', m, s);
    } else {
      OnCourseAround(cfg, l, l', m, s);
    }
  }

  lemma {:induction false} OnCourseLife(cfg: Config, ls: seq<Lived>, m: string, s: string)
    requires CatalogConfig(cfg) && IsLife(cfg, ls) && Busy(ls)
    requires OnCourse(cfg, ls[0], m, s) && Inv(cfg, ls[0].w) && ReadsOurs(cfg, ls[0])
    ensures OnCourse(cfg, ls[|ls| - 1], m, s) && Inv(cfg, ls[|ls| - 1].w) && ReadsOurs(cfg, ls[|ls| - 1])
    decreases |ls|
  {
    hide LivedStep, CatalogConfig, Inv, ReadsOurs, OnCourse;
    if |ls| > 1 {
      assert LivedStep(cfg, ls[0], ls[0 + 1]) && ls[1] in ls;
      StepReadsOurs(cfg, ls[0], ls[1]);
      OnCourseStep(cfg, ls[0], ls[1], m, s);
      LaterLife(cfg, ls);
      OnCourseLife(cfg, ls[1..], m, s);
    }
  }

  lemma CommitOnCourse(cfg: Config, l: Lived, l': Lived, m: string, s: string)
    requires OnCourse(cfg, l, m, s) && Inv(cfg, l.w) && ReadsOurs(cfg, l) && LivedStep(cfg, l, l')
    ensures CommitAgrees(cfg, l, l', s)
  {
    hide Step, Inv, Serves, Processes, Settled, ServesIfUp;
    assert Shaped(cfg, l.w);
    if Commits(l.w, l'.w) {
      CommitRecords(cfg, l, l');
      hide Commits, CommitAgrees;
      var op := l.w.op;
      if op.seen == Gone {
        assert op == Placing(m, s, Gone, Running);
      }
      CommitOfOurs(cfg, l, l', s);
    }
  }

  // ---- A load that commits over another process ----

  /** Only the unit and the process of s change, if any. */
  lemma OneLives(cfg: Config, l: Lived, l': Lived, s: string)
    requires Fits(cfg, l) && s in cfg.slots && Step(cfg, l.w, l'.w)
    requires s in l'.w.units && s in l'.w.envs && l'.w.units == l.w.units[s := l'.w.units[s]]
    requires s in l'.procs && l'.procs == l.procs[s := l'.procs[s]]
    requires Processes(l.w.units[s], l'.w.units[s], l'.w.envs[s], l.procs[s], l'.procs[s])
    requires ProcessFits(l'.w.units[s], l'.procs[s])
    ensures LivedStep(cfg, l, l')
  {
    hide Step, Processes, ProcessFits;
    StepShapes(cfg, l.w, l'.w);
    forall t | t in cfg.slots
      ensures SlotLives(l, l', t) && ProcessFits(l'.w.units[t], l'.procs[t])
    {
      if t != s {
        LivesOn(l.w.units[t], l'.w.envs[t], l.procs[t]);
      }
    }
  }

  lemma LivesOn(u: Unit, env: EnvFile, p: Option<EnvFile>)
    requires ProcessFits(u, p)
    ensures Processes(u, u, env, p, p)
  {
  }

  lemma DuringNothing(cfg: Config, a: Lived)
    requires a.w.op != Idle
    ensures LivesDuring(cfg, a, a)
  {
    assert IsLife(cfg, [a]) && Busy([a]);
  }

  lemma DuringOneMore(cfg: Config, a: Lived, b: Lived, c: Lived)
    requires LivesDuring(cfg, a, b) && LivedStep(cfg, b, c) && c.w.op != Idle
    ensures LivesDuring(cfg, a, c)
  {
    hide LivedStep;
    var ls :| IsLife(cfg, ls) && Busy(ls) && ls[0] == a && ls[|ls| - 1] == b;
    var longer := ls + [c];
    assert longer[|ls| - 1] == b && longer[|ls|] == c;
    assert IsLife(cfg, longer) && Busy(longer);
  }

  /** Going on from a start of the active unit: nothing happens to it, and the mode is committed. */
  lemma CommitsOver(cfg: Config, a: Lived, l: Lived, m: string, s: string, x: EnvFile) returns (v: Lived, v': Lived)
    requires CatalogConfig(cfg) && m in cfg.modes && LivesDuring(cfg, a, l) && Fits(cfg, l)
    requires l.w.op == Placing(m, s, Activating, Starting) && s in cfg.slots
    requires l.w.units[s] == Active && l.procs[s] == Some(x) && !Serves(cfg, x, m)
    ensures LivesDuring(cfg, a, v) && LivedStep(cfg, v, v') && !CommitAgrees(cfg, v, v', s)
  {
    hide CatalogConfig, Serves, LivesDuring;
    v := l.(w := l.w.(op := Placing(m, s, Activating, Running)));
    assert l.w.units == l.w.units[s := Active];
    assert StartStep(l.w, v.w) by {
      assert Started(Active, true);
    }
    v' := v.(w := v.w.(modes := v.w.modes[s := m], op := Idle));
    assert SettleStep(v.w, v'.w);
    assert Shaped(cfg, v.w) && Shaped(cfg, v'.w) && v.procs == l.procs[s := v.procs[s]];
    hide StartStep, SettleStep, Step;
    OneStep(cfg, l.w, v.w);
    OneStep(cfg, v.w, v'.w);
    OneLives(cfg, l, v, s);
    OneLives(cfg, v, v', s);
    DuringOneMore(cfg, a, l, v);
  }

  /** A load that finds its unit activating with a process of another file commits over that process. */
  lemma StaleCommit(cfg: Config, a: Lived, l: Lived, m: string, s: string, x: EnvFile) returns (v: Lived, v': Lived)
    requires CatalogConfig(cfg) && m in cfg.modes && cfg.modes[m].services != []
    requires LivesDuring(cfg, a, l) && Fits(cfg, l) && l.w.op == LoadReading(m, s) && s in cfg.slots
    requires l.w.units[s] == Activating && l.procs[s] == Some(x) && !Serves(cfg, x, m)
    ensures LivesDuring(cfg, a, v) && LivedStep(cfg, v, v') && !CommitAgrees(cfg, v, v', s)
  {
    hide CatalogConfig, Serves, LivesDuring, CommitAgrees, Step, LivedStep;
    var writing := l.(w := l.w.(op := Placing(m, s, Activating, Writing)));
    ReadAsFree(cfg, l.w, writing.w, m, s);
    assert l.procs == l.procs[s := Some(x)] && l.w.units == l.w.units[s := Activating];
    OneLives(cfg, l, writing, s);
    DuringOneMore(cfg, a, l, writing);
    var starting := writing.(w := writing.w.(envs := l.w.envs[s := FileOf(cfg, m)],
                                             op := Placing(m, s, Activating, Starting)));
    WriteSucceeds(cfg, writing.w, starting.w, m, s);
    OneLives(cfg, writing, starting, s);
    DuringOneMore(cfg, a, writing, starting);
    var up := starting.(w := starting.w.(units := starting.w.units[s := Active]));
    Drifting(cfg, starting.w, s, Active);
    OneLives(cfg, starting, up, s);
    DuringOneMore(cfg, a, starting, up);
    v, v' := CommitsOver(cfg, a, up, m, s, x);
  }

  /** A unit that may come up reads the file in place. */
  lemma Rereads(cfg: Config, l: Lived, m: string, s: string) returns (l': Lived)
    requires Fits(cfg, l) && l.w.op == LoadReading(m, s) && s in cfg.slots && Alive(l.w.units[s])
    ensures LivedStep(cfg, l, l') && l'.w == l.w.(units := l.w.units[s := Activating])
    ensures s in l'.procs && l'.procs[s] == Some(l.w.envs[s])
  {
    l' := Lived(l.w.(units := l.w.units[s := Activating]), l.procs[s := Some(l.w.envs[s])]);
    Drifting(cfg, l.w, s, Activating);
    hide Step, LivedStep;
    OneLives(cfg, l, l', s);
  }

  lemma UnsettledCommit(cfg: Config, l: Lived, m: string, s: string) returns (v: Lived, v': Lived)
    requires CatalogConfig(cfg) && m in cfg.modes && cfg.modes[m].services != []
    requires Fits(cfg, l) && l.w.op == LoadReading(m, s) && s in cfg.slots && !Settled(cfg, l, m, s)
    ensures LivesDuring(cfg, l, v) && LivedStep(cfg, v, v') && !CommitAgrees(cfg, v, v', s)
  {
    hide CatalogConfig, Serves, LivesDuring, CommitAgrees, Step;
    DuringNothing(cfg, l);
    if Serves(cfg, l.w.envs[s], m) {
      v, v' := StaleCommit(cfg, l, l, m, s, l.procs[s].value);
    } else {
      var again := Rereads(cfg, l, m, s);
      DuringOneMore(cfg, l, l, again);
      v, v' := StaleCommit(cfg, l, again, m, s, l.w.envs[s]);
    }
  }

  ghost predicate LoadAgrees(cfg: Config, l: Lived, s: string)
  {
    forall v, v' | LivesDuring(cfg, l, v) && LivedStep(cfg, v, v') :: CommitAgrees(cfg, v, v', s)
  }

  /** In every reachable state in which a load is about to read its slot's unit: the mode it commits is sure
      to be the one that the slot's process serves exactly when the unit is gone by then or has been ordered
      to stop, or the slot's file already serves the mode and so does a process that is on its way up. */
  lemma LoadServesExactly(cfg: Config, first: Lived, l: Lived, m: string, s: string)
    requires CatalogConfig(cfg) && Lives(cfg, first, l) && l.w.op == LoadReading(m, s)
    ensures s in l.w.units && s in l.w.envs && s in l.procs
    ensures LoadAgrees(cfg, l, s) <==> Settled(cfg, l, m, s)
  {
    hide CatalogConfig, Lives, LivedStep, CommitAgrees, Settled, Inv, ReadsOurs;
    LivesKeeps(cfg, first, l);
    LifeFits(cfg, first, l);
    InvClaims(cfg, l.w, m, s);
    if Settled(cfg, l, m, s) {
      assert OnCourse(cfg, l, m, s);
      hide OnCourse;
      forall v, v' | LivesDuring(cfg, l, v) && LivedStep(cfg, v, v')
        ensures CommitAgrees(cfg, v, v', s)
      {
        var ls :| IsLife(cfg, ls) && Busy(ls) && ls[0] == l && ls[|ls| - 1] == v;
        OnCourseLife(cfg, ls, m, s);
        CommitOnCourse(cfg, v, v', m, s);
      }
    } else {
      hide LivesDuring;
      var v, v' := UnsettledCommit(cfg, l, m, s);
    }
  }

  lemma InvClaims(cfg: Config, w: World, m: string, s: string)
    requires Inv(cfg, w) && w.op == LoadReading(m, s)
    ensures s in cfg.slots && m in cfg.modes && cfg.modes[m].services != []
  {
  }

  lemma LifeFits(cfg: Config, first: Lived, l: Lived)
    requires Lives(cfg, first, l)
    ensures Fits(cfg, l)
  {
    hide Step, Processes, Fresh;
    var ls :| IsLife(cfg, ls) && ls[0] == first && ls[|ls| - 1] == l;
    if |ls| > 1 {
      assert LivedStep(cfg, ls[|ls| - 2], ls[|ls| - 2 + 1]);
    }
  }

  // ---- Such a load exists ----

  lemma LivesLonger(cfg: Config, first: Lived, l: Lived, l': Lived)
    requires Lives(cfg, first, l) && LivedStep(cfg, l, l')
    ensures Lives(cfg, first, l')
  {
    hide LivedStep, Fits, Fresh;
    var ls :| IsLife(cfg, ls) && ls[0] == first && ls[|ls| - 1] == l;
    var longer := ls + [l'];
    assert longer[|ls| - 1] == l && longer[|ls|] == l';
    assert IsLife(cfg, longer);
  }

  lemma {:induction false} PathIsLived(cfg: Config, first: Lived, l: Lived, ws: seq<World>) returns (l': Lived)
    requires Lives(cfg, first, l) && IsPath(cfg, ws) && ws[0] == l.w
    ensures Lives(cfg, first, l') && l'.w == ws[|ws| - 1]
    decreases |ws|
  {
    hide Step, Lives, LivedStep, Fits;
    l' := l;
    if |ws| > 1 {
      assert Step(cfg, ws[0], ws[0 + 1]);
      LifeFits(cfg, first, l);
      var next := StepIsLived(cfg, l, ws[1]);
      LivesLonger(cfg, first, l, next);
      forall i | 0 <= i < |ws[1..]| - 1
        ensures Step(cfg, ws[1..][i], ws[1..][i + 1])
      {
        assert Step(cfg, ws[i + 1], ws[i + 1 + 1]);
      }
      l' := PathIsLived(cfg, first, next, ws[1..]);
    }
  }

  lemma ReachesIsLived(cfg: Config, first: Lived, l: Lived, w: World) returns (l': Lived)
    requires Lives(cfg, first, l) && Reaches(cfg, l.w, w)
    ensures Lives(cfg, first, l') && l'.w == w
  {
    hide Step, Lives;
    var ws :| IsPath(cfg, ws) && ws[0] == l.w && ws[|ws| - 1] == w;
    l' := PathIsLived(cfg, first, l, ws);
  }

  /** Each active unit has read its file. */
  lemma FirstLives(cfg: Config, w: World) returns (first: Lived)
    requires Fresh(cfg, w)
    ensures first.w == w && Lives(cfg, first, first)
  {
    first := Lived(w, map s | s in cfg.slots :: if w.units[s] == Active then Some(w.envs[s]) else None);
    hide Fresh;
    assert IsLife(cfg, [first]) && [first][0] == first && Fits(cfg, first);
  }

  lemma LoadingLives(cfg: Config, l: Lived, l': Lived, m: string, s: string)
    requires Fits(cfg, l) && l.w.op == Idle && l' == l.(w := l.w.(op := LoadReading(m, s)))
    requires s in cfg.slots && m in cfg.modes && cfg.modes[m].services != [] && Free(l.w.modes, m, s)
    ensures LivedStep(cfg, l, l')
  {
    assert LoadBegins(cfg, l.w, l'.w);
    hide LoadBegins, Free, Step;
    OneStep(cfg, l.w, l'.w);
    assert l.procs == l.procs[s := l.procs[s]] && l.w.units == l.w.units[s := l.w.units[s]];
    OneLives(cfg, l, l', s);
  }

  /** From a fresh start with one mode up, a run to a load of another mode into its slot that is not sure to
      be served: its unit may be restarting by itself when the load reads it. */
  lemma LoadOverRestart(cfg: Config, other: string, m: string, s: string) returns (first: Lived, l: Lived)
    requires CatalogConfig(cfg) && s in cfg.slots && other != m
    requires other in cfg.modes && cfg.modes[other].services != []
    requires m in cfg.modes && cfg.modes[m].services != []
    ensures Lives(cfg, first, l) && l.w.op == LoadReading(m, s)
    ensures s in l.w.units && s in l.w.envs && s in l.procs && !LoadAgrees(cfg, l, s)
  {
    hide CatalogConfig, Step, Reaches, MayInfer, Serves, LivedStep, Lives, LoadAgrees, Fresh;
    NotEmpty(cfg, m);
    var w := AloneAt(cfg, other, s);
    var booted := BootsWith(cfg, w, s, other, s, other);
    first := FirstLives(cfg, w);
    var up := ReachesIsLived(cfg, first, first, booted);
    l := up.(w := booted.(op := LoadReading(m, s)));
    LifeFits(cfg, first, up);
    LoadingLives(cfg, up, l, m, s);
    LivesLonger(cfg, first, up, l);
    if Serves(cfg, l.w.envs[s], m) {
      ServedIsInferred(cfg, l.w.envs[s], m, other);
    }
    LoadServesExactly(cfg, first, l, m, s);
  }
}
