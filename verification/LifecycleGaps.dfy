/** Where the lifecycle falls short of its comments, and exactly when: the start-up states from which
    no two slots can ever track one mode, a load that starts a unit whose process is alive, and a mode
    that is dropped while its unit is still going down. */
module LifecycleGaps {
  import opened Wrappers
  import opened SlotInference
  import opened Lifecycle
  import opened LifecycleSafety

  // ---- Paths ----

  ghost predicate IsPath(cfg: Config, ws: seq<World>)
  {
    ws != [] && forall i | 0 <= i < |ws| - 1 :: Step(cfg, ws[i], ws[i + 1])
  }

  ghost predicate Reaches(cfg: Config, a: World, b: World)
  {
    exists ws :: IsPath(cfg, ws) && ws[0] == a && ws[|ws| - 1] == b
  }

  lemma ReachesItself(cfg: Config, a: World)
    ensures Reaches(cfg, a, a)
  {
    assert IsPath(cfg, [a]);
  }

  lemma Extend(cfg: Config, a: World, b: World, c: World)
    requires Reaches(cfg, a, b) && Step(cfg, b, c)
    ensures Reaches(cfg, a, c)
  {
    hide Step;
    var ws :| IsPath(cfg, ws) && ws[0] == a && ws[|ws| - 1] == b;
    var longer := ws + [c];
    assert longer[|ws| - 1] == b && longer[|ws|] == c;
    assert IsPath(cfg, longer);
  }

  lemma {:induction false} JoinPaths(cfg: Config, a: World, b: World, ws: seq<World>)
    requires Reaches(cfg, a, b) && IsPath(cfg, ws) && ws[0] == b
    ensures Reaches(cfg, a, ws[|ws| - 1])
    decreases |ws|
  {
    hide Step, Reaches;
    if |ws| > 1 {
      Extend(cfg, a, b, ws[1]);
      forall i | 0 <= i < |ws[1..]| - 1
        ensures Step(cfg, ws[1..][i], ws[1..][i + 1])
      {
        assert Step(cfg, ws[i + 1], ws[i + 1 + 1]);
      }
      JoinPaths(cfg, a, ws[1], ws[1..]);
    }
  }

  lemma Join(cfg: Config, a: World, b: World, c: World)
    requires Reaches(cfg, a, b) && Reaches(cfg, b, c)
    ensures Reaches(cfg, a, c)
  {
    hide Step;
    var ws :| IsPath(cfg, ws) && ws[0] == b && ws[|ws| - 1] == c;
    JoinPaths(cfg, a, b, ws);
  }

  // ---- The steps that the runs below take ----

  lemma Drifting(cfg: Config, w: World, s: string, v: Unit)
    requires Shaped(cfg, w) && w.op != Booting && s in cfg.slots && Drifts(w.units[s], v)
    ensures Step(cfg, w, w.(units := w.units[s := v]))
  {
  }

  lemma Unloading(cfg: Config, w: World, s: string)
    requires Shaped(cfg, w) && w.op == Idle && s in cfg.slots
    ensures Reaches(cfg, w, w.(units := w.units[s := Gone], modes := w.modes[s := ""]))
  {
    var w1 := w.(op := UnloadStopping(s));
    var w2 := w.(units := w.units[s := Gone], op := UnloadAwaiting(s));
    var w3 := w2.(op := UnloadClearing(s));
    var w4 := w.(units := w.units[s := Gone], modes := w.modes[s := ""]);
    assert UnloadStep(cfg, w, w1);
    assert UnloadStep(cfg, w1, w2) by {
      assert Stopped(w1.units[s], Gone);
    }
    assert UnloadStep(cfg, w2, w3);
    assert UnloadStep(cfg, w3, w4);
    hide UnloadStep, Step, Reaches;
    OneStep(cfg, w, w1);
    OneStep(cfg, w1, w2);
    OneStep(cfg, w2, w3);
    OneStep(cfg, w3, w4);
    ReachesItself(cfg, w);
    Extend(cfg, w, w, w1);
    Extend(cfg, w, w1, w2);
    Extend(cfg, w, w2, w3);
    Extend(cfg, w, w3, w4);
  }

  /** Nothing is tracked, and every unit but that of s is gone. */
  ghost predicate Emptied(cfg: Config, w: World, s: string)
  {
    && Shaped(cfg, w) && w.op == Idle
    && forall u | u in cfg.slots :: w.modes[u] == "" && (u != s ==> w.units[u] == Gone)
  }

  lemma {:induction false} UnloadingAll(cfg: Config, w: World, s: string, todo: set<string>) returns (w': World)
    requires Shaped(cfg, w) && w.op == Idle && s in cfg.slots && s !in todo && todo <= cfg.slots.Keys
    requires w.modes[s] == ""
    requires forall u | u in cfg.slots && u != s && u !in todo :: w.modes[u] == "" && w.units[u] == Gone
    ensures Reaches(cfg, w, w') && Emptied(cfg, w', s) && w'.units[s] == w.units[s]
    decreases |todo|
  {
    hide Step, Reaches;
    if todo == {} {
      ReachesItself(cfg, w);
      w' := w;
    } else {
      var u := Member(todo);
      var next := w.(units := w.units[u := Gone], modes := w.modes[u := ""]);
      Unloading(cfg, w, u);
      w' := UnloadingAll(cfg, next, s, todo - {u});
      Join(cfg, w, next, w');
    }
  }

  // ---- Loads that read the unit as not occupying the slot ----

  function FileOf(cfg: Config, m: string): EnvFile
    requires m in cfg.modes && cfg.modes[m].services != []
  {
    EnvFile(cfg.modes[m].services[0].alias, "")
  }

  lemma FilesServe(cfg: Config, m: string, r: string)
    requires CatalogConfig(cfg) && m in cfg.modes && cfg.modes[m].services != []
    ensures Serves(cfg, FileOf(cfg, m), m) && m != ""
    ensures MayInfer(cfg, FileOf(cfg, m), r) <==> r == m
  {
    var svc := cfg.modes[m].services[0];
    assert svc in cfg.modes[m].services;
    InferenceIsExact(cfg, m, svc, "", r);
  }

  ghost predicate CanLoad(cfg: Config, w: World, m: string, s: string)
  {
    && Shaped(cfg, w) && w.op == Idle && s in cfg.slots && m in cfg.modes && cfg.modes[m].services != []
    && Free(w.modes, m, s) && (w.units[s] == Gone || w.units[s] == Activating)
  }

  lemma ReadAsFree(cfg: Config, w: World, w': World, m: string, s: string)
    requires Shaped(cfg, w) && w.op == LoadReading(m, s) && s in cfg.slots
    requires w.units[s] == Gone || w.units[s] == Activating
    requires w' == w.(op := Placing(m, s, w.units[s], Writing))
    ensures Step(cfg, w, w')
  {
    assert LoadClears(cfg, w, w');
    hide LoadClears, Step;
    OneStep(cfg, w, w');
  }

  lemma WriteSucceeds(cfg: Config, w: World, w': World, m: string, s: string)
    requires CatalogConfig(cfg) && Shaped(cfg, w) && s in cfg.slots && m in cfg.modes && cfg.modes[m].services != []
    requires w.op.Placing? && w.op.mode == m && w.op.slot == s && w.op.pc == Writing
    requires w' == w.(envs := w.envs[s := FileOf(cfg, m)], op := w.op.(pc := Starting))
    ensures Step(cfg, w, w')
  {
    hide CatalogConfig, MayInfer, Serves;
    FilesServe(cfg, m, m);
    assert WriteStep(cfg, w, w');
    hide WriteStep, Step;
    OneStep(cfg, w, w');
  }

  /** A load of m up to the point where it writes the files. */
  lemma LoadingUpToWrite(cfg: Config, w: World, m: string, s: string)
    requires CanLoad(cfg, w, m, s)
    ensures Reaches(cfg, w, w.(op := Placing(m, s, w.units[s], Writing)))
  {
    var w1 := w.(op := LoadReading(m, s));
    var w2 := w.(op := Placing(m, s, w.units[s], Writing));
    assert LoadBegins(cfg, w, w1) by {
      hide Free;
    }
    hide LoadBegins, Step, Reaches, Free;
    OneStep(cfg, w, w1);
    ReadAsFree(cfg, w1, w2, m, s);
    ReachesItself(cfg, w);
    Extend(cfg, w, w, w1);
    Extend(cfg, w, w1, w2);
  }

  lemma WriteFails(cfg: Config, w: World, env: EnvFile)
    requires w.op.Placing? && w.op.pc == Writing && w.op.slot in w.envs
    ensures WriteStep(cfg, w, w.(envs := w.envs[w.op.slot := env], op := Idle))
  {
  }

  /** Writing the environment file and then failing on the arguments file leaves the new mode's file
      behind and the unit as it was. */
  lemma FailingToWrite(cfg: Config, w: World, m: string, s: string)
    requires CanLoad(cfg, w, m, s)
    ensures Reaches(cfg, w, w.(envs := w.envs[s := FileOf(cfg, m)]))
  {
    var w1 := w.(op := Placing(m, s, w.units[s], Writing));
    var w2 := w.(envs := w.envs[s := FileOf(cfg, m)]);
    LoadingUpToWrite(cfg, w, m, s);
    WriteFails(cfg, w1, FileOf(cfg, m));
    hide WriteStep, Step, Reaches;
    OneStep(cfg, w1, w2);
    Extend(cfg, w, w1, w2);
  }

  lemma LoadingUpToStart(cfg: Config, w: World, m: string, s: string)
    requires CatalogConfig(cfg) && CanLoad(cfg, w, m, s)
    ensures Reaches(cfg, w, w.(envs := w.envs[s := FileOf(cfg, m)], op := Placing(m, s, w.units[s], Starting)))
  {
    hide CatalogConfig, Step, Reaches, Free;
    var w1 := w.(op := Placing(m, s, w.units[s], Writing));
    var w2 := w.(envs := w.envs[s := FileOf(cfg, m)], op := Placing(m, s, w.units[s], Starting));
    LoadingUpToWrite(cfg, w, m, s);
    WriteSucceeds(cfg, w1, w2, m, s);
    Extend(cfg, w, w1, w2);
  }

  lemma Loading(cfg: Config, w: World, m: string, s: string)
    requires CatalogConfig(cfg) && CanLoad(cfg, w, m, s)
    ensures Reaches(cfg, w, w.(envs := w.envs[s := FileOf(cfg, m)], units := w.units[s := Active],
                               modes := w.modes[s := m]))
  {
    hide CatalogConfig, Reaches, Free;
    var starting := w.(envs := w.envs[s := FileOf(cfg, m)], op := Placing(m, s, w.units[s], Starting));
    var running := starting.(units := w.units[s := Active], op := Placing(m, s, w.units[s], Running));
    var loaded := w.(envs := starting.envs, units := running.units, modes := w.modes[s := m]);
    LoadingUpToStart(cfg, w, m, s);
    assert StartStep(starting, running) by {
      assert Started(Active, true);
    }
    assert SettleStep(running, loaded);
    hide StartStep, SettleStep, Step;
    OneStep(cfg, starting, running);
    OneStep(cfg, running, loaded);
    Extend(cfg, w, starting, running);
    Extend(cfg, w, running, loaded);
  }

  // ---- Which start-up states are safe ----

  /** The daemon starts with nothing tracked; the units and files are whatever they are. */
  ghost predicate Start(cfg: Config, w: World)
  {
    Shaped(cfg, w) && w.op == Booting && forall s | s in cfg.slots :: w.modes[s] == ""
  }

  ghost predicate Safe(cfg: Config, w: World)
  {
    forall w' | Reaches(cfg, w, w') :: ModesDistinct(w'.modes)
  }

  /** The first reconciliation, with chosen adoptions for two slots. */
  lemma BootsWith(cfg: Config, w: World, s: string, ms: string, t: string, mt: string) returns (w': World)
    requires Start(cfg, w) && s in cfg.slots && t in cfg.slots && (s == t ==> ms == mt)
    requires Reconciles(cfg, Look(w.units[s]), w.envs[s], "", ms)
    requires Reconciles(cfg, Look(w.units[t]), w.envs[t], "", mt)
    ensures Reaches(cfg, w, w') && Shaped(cfg, w') && w'.op == Idle && w'.units == w.units && w'.envs == w.envs
    ensures w'.modes[s] == ms && w'.modes[t] == mt
    ensures forall x | x in cfg.slots && w.units[x] == Gone :: w'.modes[x] == ""
  {
    hide MayInfer;
    w' := World(map x | x in cfg.slots :: if x == s then ms else if x == t then mt
                                          else Adopted(cfg, w.units[x], w.envs[x]),
                w.units, w.envs, Idle);
    assert ReconcileStep(cfg, w, w');
    hide ReconcileStep, Step, Reaches;
    OneStep(cfg, w, w');
    ReachesItself(cfg, w);
    Extend(cfg, w, w, w');
  }

  /** Some mode that a reconciliation may give a slot that tracks none. */
  ghost function Adopted(cfg: Config, u: Unit, env: EnvFile): (r: string)
    ensures Reconciles(cfg, Look(u), env, "", r)
  {
    if u == Active then
      var some := Inferred(cfg, env);
      some
    else ""
  }

  ghost function Inferred(cfg: Config, env: EnvFile): (r: string)
    ensures MayInfer(cfg, env, r)
  {
    SomeInferenceExists(cfg, env);
    var r :| MayInfer(cfg, env, r);
    r
  }

  lemma SomeInferenceExists(cfg: Config, env: EnvFile)
    ensures exists r :: MayInfer(cfg, env, r)
  {
    var r := SomeInference(cfg, env);
  }

  /** From a unit that is restarting and untracked, two slots come to track one mode: a load into its
      slot fails after writing the file, the mode is loaded elsewhere, and then the unit is up. */
  lemma RestartingIsUnsafe(cfg: Config, w: World, m: string, s: string, t: string)
    requires CatalogConfig(cfg) && Shaped(cfg, w) && w.op == Idle && s in cfg.slots && t in cfg.slots && s != t
    requires m in cfg.modes && cfg.modes[m].services != []
    requires w.modes[s] == "" && w.units[s] == Activating
    ensures exists w' :: Reaches(cfg, w, w') && !ModesDistinct(w'.modes)
  {
    hide CatalogConfig, Step, Reaches, ModesDistinct;
    var empty := UnloadingAll(cfg, w, s, cfg.slots.Keys - {s});
    var left := empty.(envs := empty.envs[s := FileOf(cfg, m)]);
    NotEmpty(cfg, m);
    FailingToWrite(cfg, empty, m, s);
    Join(cfg, w, empty, left);
    var bad := SecondSlotToo(cfg, left, m, s, t);
    Join(cfg, w, left, bad);
  }

  lemma NotEmpty(cfg: Config, m: string)
    requires CatalogConfig(cfg) && m in cfg.modes
    ensures m != ""
  {
  }

  lemma SecondSlotToo(cfg: Config, w: World, m: string, s: string, t: string) returns (bad: World)
    requires CatalogConfig(cfg) && Emptied(cfg, w, s) && s in cfg.slots && t in cfg.slots && s != t
    requires m in cfg.modes && cfg.modes[m].services != []
    requires w.units[s] == Activating && w.envs[s] == FileOf(cfg, m)
    ensures Reaches(cfg, w, bad) && !ModesDistinct(bad.modes)
  {
    hide CatalogConfig, Step, Reaches, ModesDistinct, FileOf;
    NotEmpty(cfg, m);
    var loaded := w.(envs := w.envs[t := FileOf(cfg, m)], units := w.units[t := Active], modes := w.modes[t := m]);
    Loading(cfg, w, m, t);
    var up := loaded.(units := loaded.units[s := Active]);
    Drifting(cfg, loaded, s, Active);
    Extend(cfg, w, loaded, up);
    bad := up.(modes := up.modes[s := m]);
    AdoptsSecond(cfg, up, bad, m, s, t);
    Extend(cfg, w, up, bad);
    TracksTwice(bad.modes, s, t);
  }

  lemma TracksTwice(modes: map<string, string>, s: string, t: string)
    requires s in modes && t in modes && s != t && modes[s] == modes[t] != ""
    ensures !ModesDistinct(modes)
  {
  }

  lemma AdoptsSecond(cfg: Config, w: World, w': World, m: string, s: string, t: string)
    requires CatalogConfig(cfg) && m in cfg.modes && cfg.modes[m].services != []
    requires Shaped(cfg, w) && w.op == Idle && s in cfg.slots && t in cfg.slots && s != t
    requires w.units[s] == Active && w.modes[s] == "" && w.envs[s] == FileOf(cfg, m)
    requires w.modes[t] == m && w.units[t] == Active
    requires forall u | u in cfg.slots && u != s && u != t :: w.modes[u] == "" && w.units[u] == Gone
    requires w' == w.(modes := w.modes[s := m])
    ensures Step(cfg, w, w')
  {
    hide MayInfer, CatalogConfig;
    FilesServe(cfg, m, m);
    assert ReconcileStep(cfg, w, w');
    hide ReconcileStep, Step;
    OneStep(cfg, w, w');
  }

  /** A unit that is up or coming up when the daemon starts, and not adopted, makes the start unsafe. */
  lemma UnadoptedIsUnsafe(cfg: Config, w: World, m: string, s: string, t: string)
    requires CatalogConfig(cfg) && Start(cfg, w) && s in cfg.slots && t in cfg.slots && s != t
    requires m in cfg.modes && cfg.modes[m].services != []
    requires w.units[s] in {Activating, Deactivating(false)} || (w.units[s] == Active && MayInfer(cfg, w.envs[s], ""))
    ensures !Safe(cfg, w)
  {
    hide CatalogConfig, Step, Reaches, ModesDistinct, MayInfer;
    var booted := BootsWith(cfg, w, s, "", s, "");
    var restarting := booted;
    if w.units[s] != Activating {
      restarting := booted.(units := booted.units[s := Activating]);
      Drifting(cfg, booted, s, Activating);
      Extend(cfg, w, booted, restarting);
    }
    RestartingIsUnsafe(cfg, restarting, m, s, t);
    var bad :| Reaches(cfg, restarting, bad) && !ModesDistinct(bad.modes);
    Join(cfg, w, restarting, bad);
  }

  lemma SharedIsUnsafe(cfg: Config, w: World, m: string, s: string, t: string)
    requires Start(cfg, w) && s in cfg.slots && t in cfg.slots && s != t && m != ""
    requires w.units[s] == Active && w.units[t] == Active && MayInfer(cfg, w.envs[s], m) && MayInfer(cfg, w.envs[t], m)
    ensures !Safe(cfg, w)
  {
    hide Reaches, ModesDistinct, MayInfer;
    var booted := BootsWith(cfg, w, s, m, t, m);
    TracksTwice(booted.modes, s, t);
  }

  lemma ReachableInv(cfg: Config, first: World, w: World)
    requires CatalogConfig(cfg) && Fresh(cfg, first) && Reaches(cfg, first, w)
    ensures Inv(cfg, w)
  {
    hide CatalogConfig, Step, Fresh, Inv;
    var ws :| IsPath(cfg, ws) && ws[0] == first && ws[|ws| - 1] == w;
    RunKeeps(cfg, ws, |ws| - 1);
  }

  lemma FreshIsSafe(cfg: Config, w: World)
    requires CatalogConfig(cfg) && Fresh(cfg, w)
    ensures Safe(cfg, w)
  {
    hide CatalogConfig, Reaches, Fresh, ModesDistinct;
    forall w' | Reaches(cfg, w, w')
      ensures ModesDistinct(w'.modes)
    {
      ReachableInv(cfg, w, w');
      InvDistinct(cfg, w');
    }
  }

  lemma InvDistinct(cfg: Config, w: World)
    requires Inv(cfg, w)
    ensures ModesDistinct(w.modes)
  {
  }

  /** With two slots and a mode to load, no two slots ever come to track one mode exactly when the
      daemon starts with every unit down, ordered to stop, or active under a file that stands for a
      mode of its own. */
  lemma SafeStartExactly(cfg: Config, w: World, m: string, a: string, b: string)
    requires CatalogConfig(cfg) && Start(cfg, w)
    requires a in cfg.slots && b in cfg.slots && a != b && m in cfg.modes && cfg.modes[m].services != []
    ensures Safe(cfg, w) <==> Fresh(cfg, w)
  {
    hide CatalogConfig, Safe, MayInfer;
    if Fresh(cfg, w) {
      FreshIsSafe(cfg, w);
    } else if s :| s in cfg.slots && w.units[s] in {Activating, Deactivating(false)} {
      UnadoptedIsUnsafe(cfg, w, m, s, if s == a then b else a);
    } else if s :| s in cfg.slots && w.units[s] == Active && MayInfer(cfg, w.envs[s], "") {
      UnadoptedIsUnsafe(cfg, w, m, s, if s == a then b else a);
    } else {
      assert forall s | s in cfg.slots :: w.units[s] in {Gone, Active, Deactivating(true)} by {
        forall s | s in cfg.slots
          ensures w.units[s] in {Gone, Active, Deactivating(true)}
        {
          UnitCases(w.units[s]);
        }
      }
      var s, t, r :| s in cfg.slots && t in cfg.slots && w.units[s] == Active && w.units[t] == Active &&
                     MayInfer(cfg, w.envs[s], r) && MayInfer(cfg, w.envs[t], r) && s != t;
      SharedIsUnsafe(cfg, w, r, s, t);
    }
  }

  lemma UnitCases(u: Unit)
    ensures u in {Gone, Active, Deactivating(true), Activating, Deactivating(false)}
  {
  }

  // ---- A load that starts a live unit ----

  lemma AloneAt(cfg: Config, m: string, s: string) returns (w: World)
    requires CatalogConfig(cfg) && s in cfg.slots && m in cfg.modes && cfg.modes[m].services != []
    ensures Fresh(cfg, w) && Start(cfg, w) && w.units[s] == Active && MayInfer(cfg, w.envs[s], m)
    ensures forall x | x in cfg.slots && x != s :: w.units[x] == Gone
  {
    hide CatalogConfig, MayInfer, Serves;
    FilesServe(cfg, m, "");
    FilesServe(cfg, m, m);
    w := World(map x | x in cfg.slots :: "", map x | x in cfg.slots :: if x == s then Active else Gone,
               map x | x in cfg.slots :: FileOf(cfg, m), Booting);
  }

  /** Load can start a unit whose process is alive: a unit restarting by itself is seen activating,
      which is neither active nor deactivating, and it may be up again by the time of the start. */
  lemma LoadStartsLiveUnit(cfg: Config, m: string, s: string) returns (first: World, w: World, w': World)
    requires CatalogConfig(cfg) && s in cfg.slots && m in cfg.modes && cfg.modes[m].services != []
    ensures Fresh(cfg, first) && Reaches(cfg, first, w) && StartStep(w, w')
    ensures w.op == Placing(m, s, Activating, Starting) && s in w.units && w.units[s] == Active
  {
    hide CatalogConfig, Step, Reaches, MayInfer, Fresh, Serves;
    first := AloneAt(cfg, m, s);
    var booted := BootsWith(cfg, first, s, m, s, m);
    NotEmpty(cfg, m);
    var restarting := booted.(units := booted.units[s := Activating]);
    Drifting(cfg, booted, s, Activating);
    Extend(cfg, first, booted, restarting);
    var starting := restarting.(envs := restarting.envs[s := FileOf(cfg, m)],
                                op := Placing(m, s, Activating, Starting));
    LoadingUpToStart(cfg, restarting, m, s);
    Join(cfg, first, restarting, starting);
    w := starting.(units := starting.units[s := Active]);
    Drifting(cfg, starting, s, Active);
    Extend(cfg, first, starting, w);
    w' := w.(units := w.units[s := Active], op := Placing(m, s, Activating, Running));
    assert Started(Active, true);
  }

  ghost predicate FindsGone(w: World, w': World)
  {
    StartStep(w, w') ==> w.units[w.op.slot] == Gone
  }

  /** Over all runs, the unit is sure to be gone when it is started exactly when it was seen gone. */
  lemma StartFindsGoneExactly(cfg: Config, m: string, s: string, seen: Unit)
    requires CatalogConfig(cfg) && s in cfg.slots && m in cfg.modes && cfg.modes[m].services != []
    requires seen == Gone || seen == Activating
    ensures (forall first, w, w' | Fresh(cfg, first) && Reaches(cfg, first, w) &&
                                   w.op == Placing(m, s, seen, Starting) ::
               FindsGone(w, w')) <==> seen == Gone
  {
    hide CatalogConfig, Reaches, Fresh;
    if seen == Gone {
      forall first, w, w' | Fresh(cfg, first) && Reaches(cfg, first, w) && w.op == Placing(m, s, seen, Starting)
        ensures FindsGone(w, w')
      {
        ReachableInv(cfg, first, w);
        hide AliveTracked, ModesDistinct;
      }
    } else {
      var first, w, w' := LoadStartsLiveUnit(cfg, m, s);
      assert !FindsGone(w, w');
    }
  }

  // ---- What one load can be sure of when it reads the unit ----

  /** From a to b without an operation ending in between. */
  ghost predicate During(cfg: Config, a: World, b: World)
  {
    exists ws :: IsPath(cfg, ws) && StaysBusy(ws) && ws[0] == a && ws[|ws| - 1] == b
  }

  ghost predicate StaysBusy(ws: seq<World>)
  {
    forall w | w in ws :: w.op != Idle
  }

  lemma DuringItself(cfg: Config, a: World)
    requires a.op != Idle
    ensures During(cfg, a, a)
  {
    assert IsPath(cfg, [a]) && StaysBusy([a]);
  }

  lemma ExtendDuring(cfg: Config, a: World, b: World, c: World)
    requires During(cfg, a, b) && Step(cfg, b, c) && c.op != Idle
    ensures During(cfg, a, c)
  {
    hide Step;
    var ws :| IsPath(cfg, ws) && StaysBusy(ws) && ws[0] == a && ws[|ws| - 1] == b;
    var longer := ws + [c];
    assert longer[|ws| - 1] == b && longer[|ws|] == c;
    assert IsPath(cfg, longer) && StaysBusy(longer);
  }

  /** The load of m into s has the old unit down for good, or down by an order it awaits. */
  ghost predicate Secured(w: World, m: string, s: string)
  {
    s in w.units &&
    match w.op
    case LoadReading(m', s') => m' == m && s' == s && !Alive(w.units[s])
    case LoadAwaiting(m', s') => m' == m && s' == s && !Alive(w.units[s])
    case Placing(m', s', seen, pc) =>
      m' == m && s' == s && seen == Gone && (pc == Writing || pc == Starting ==> w.units[s] == Gone)
    case _ => false
  }

  lemma SecuredOwnStep(cfg: Config, w: World, w': World, m: string, s: string)
    requires Secured(w, m, s) && Shaped(cfg, w) && Shaped(cfg, w') && w'.op != Idle
    requires LoadClears(cfg, w, w') || PlaceStep(cfg, w, w')
    ensures Secured(w', m, s)
  {
    hide Serves;
  }

  lemma SecuredStep(cfg: Config, w: World, w': World, m: string, s: string)
    requires Secured(w, m, s) && Step(cfg, w, w') && w'.op != Idle
    ensures Secured(w', m, s)
  {
    hide Free, SlotReconciles, TargetSlot, LoadClears, PlaceStep;
    if LoadClears(cfg, w, w') || PlaceStep(cfg, w, w') {
      SecuredOwnStep(cfg, w, w', m, s);
    }
  }

  lemma {:induction false} SecuredPath(cfg: Config, ws: seq<World>, m: string, s: string)
    requires IsPath(cfg, ws) && StaysBusy(ws) && Secured(ws[0], m, s)
    ensures Secured(ws[|ws| - 1], m, s)
    decreases |ws|
  {
    hide Step, Secured;
    if |ws| > 1 {
      assert Step(cfg, ws[0], ws[0 + 1]) && ws[1] in ws;
      SecuredStep(cfg, ws[0], ws[1], m, s);
      forall i | 0 <= i < |ws[1..]| - 1
        ensures Step(cfg, ws[1..][i], ws[1..][i + 1])
      {
        assert Step(cfg, ws[i + 1], ws[i + 1 + 1]);
      }
      SecuredPath(cfg, ws[1..], m, s);
    }
  }

  /** From a load that is about to read a unit that may come up, a path to the start of the live unit. */
  lemma ReadingUpToLiveStart(cfg: Config, w: World, m: string, s: string) returns (v: World, v': World)
    requires CatalogConfig(cfg) && Shaped(cfg, w) && w.op == LoadReading(m, s) && s in cfg.slots
    requires m in cfg.modes && cfg.modes[m].services != [] && Alive(w.units[s])
    ensures During(cfg, w, v) && !FindsGone(v, v')
  {
    hide CatalogConfig, MayInfer, Serves, During;
    DuringItself(cfg, w);
    var up := w.(units := w.units[s := Activating]);
    if w.units[s] == Activating {
      assert up == w;
    } else {
      Drifting(cfg, w, s, Activating);
      hide Step;
      ExtendDuring(cfg, w, w, up);
    }
    var writing := up.(op := Placing(m, s, Activating, Writing));
    ReadAsFree(cfg, up, writing, m, s);
    ExtendDuring(cfg, w, up, writing);
    var starting := writing.(envs := writing.envs[s := FileOf(cfg, m)], op := Placing(m, s, Activating, Starting));
    WriteSucceeds(cfg, writing, starting, m, s);
    ExtendDuring(cfg, w, writing, starting);
    v := starting.(units := starting.units[s := Active]);
    Drifting(cfg, starting, s, Active);
    ExtendDuring(cfg, w, starting, v);
    v' := v.(units := v.units[s := Active], op := Placing(m, s, Activating, Running));
    assert Started(Active, true);
  }

  /** In every reachable state in which a load is about to read its slot's unit, the load is sure to start
      that unit only when it is gone exactly when it is gone by then or has been ordered to stop. */
  lemma LoadFindsGoneExactly(cfg: Config, first: World, w: World, m: string, s: string)
    requires CatalogConfig(cfg) && Fresh(cfg, first) && Reaches(cfg, first, w) && w.op == LoadReading(m, s)
    ensures s in w.units
    ensures (forall v, v' | During(cfg, w, v) :: FindsGone(v, v')) <==>
            w.units[s] == Gone || w.units[s] == Deactivating(true)
  {
    hide CatalogConfig, Reaches, Fresh, Step, ModesDistinct, AliveTracked, Free;
    ReachableInv(cfg, first, w);
    if Alive(w.units[s]) {
      var v, v' := ReadingUpToLiveStart(cfg, w, m, s);
    } else {
      forall v, v' | During(cfg, w, v)
        ensures FindsGone(v, v')
      {
        var ws :| IsPath(cfg, ws) && StaysBusy(ws) && ws[0] == w && ws[|ws| - 1] == v;
        SecuredPath(cfg, ws, m, s);
      }
    }
  }

  // ---- A mode that is dropped too early ----

  lemma StopsSlowly(cfg: Config, w: World, done: set<string>, u: string) returns (w': World)
    requires Shaped(cfg, w) && w.op == SwitchStopping(None, done) && u in cfg.slots && u !in done
    ensures Step(cfg, w, w') && Shaped(cfg, w')
    ensures w' == w.(units := w.units[u := w'.units[u]], op := SwitchStopping(None, done + {u}))
    ensures w.units[u] == Active ==> w'.units[u] == Deactivating(true)
  {
    var v := if w.units[u] == Gone then Gone else Deactivating(true);
    w' := w.(units := w.units[u := v], op := SwitchStopping(None, done + {u}));
    assert Stopped(w.units[u], v) && done != cfg.slots.Keys;
    assert SwitchStep(cfg, w, w');
    hide SwitchStep, Step;
    OneStep(cfg, w, w');
  }

  /** Ordering the remaining units to stop, each taking its time. */
  lemma {:induction false} StoppingRest(cfg: Config, w: World, done: set<string>, todo: set<string>, s: string)
      returns (w': World)
    requires Shaped(cfg, w) && w.op == SwitchStopping(None, done) && s in cfg.slots
    requires done !! todo && done + todo == cfg.slots.Keys
    requires w.units[s] == if s in done then Deactivating(true) else Active
    ensures Reaches(cfg, w, w') && w' == w.(units := w'.units, op := SwitchStopping(None, cfg.slots.Keys))
    ensures Shaped(cfg, w') && w'.units[s] == Deactivating(true)
    decreases |todo|
  {
    hide Reaches, Step;
    ReachesItself(cfg, w);
    if todo == {} {
      assert done == cfg.slots.Keys;
      w' := w;
    } else {
      var u := Member(todo);
      assert u in cfg.slots.Keys && u !in done;
      var next := StopsSlowly(cfg, w, done, u);
      Extend(cfg, w, w, next);
      hide Shaped;
      w' := StoppingRest(cfg, next, done + {u}, todo - {u}, s);
      Join(cfg, w, next, w');
    }
  }

  lemma TimesOut(cfg: Config, w: World, w': World, polled: set<string>, ok: bool, u: string)
    requires Shaped(cfg, w) && w.op == SwitchAwaiting(None, polled, ok) && u in cfg.slots && u !in polled
    requires w' == w.(op := SwitchAwaiting(None, polled + {u}, false))
    ensures Step(cfg, w, w')
  {
    assert PollResult(w.units[u], false) && polled != cfg.slots.Keys;
    assert SwitchStep(cfg, w, w');
    hide SwitchStep, Step;
    OneStep(cfg, w, w');
  }

  /** Waiting in vain for the remaining units. */
  lemma {:induction false} TimingOut(cfg: Config, w: World, polled: set<string>, todo: set<string>, ok: bool)
    requires Shaped(cfg, w) && w.op == SwitchAwaiting(None, polled, ok)
    requires polled !! todo && polled + todo == cfg.slots.Keys && (todo == {} ==> !ok)
    ensures Reaches(cfg, w, w.(op := SwitchAwaiting(None, cfg.slots.Keys, false)))
    decreases |todo|
  {
    hide Reaches, Step;
    ReachesItself(cfg, w);
    if todo == {} {
      assert polled == cfg.slots.Keys;
    } else {
      var u := Member(todo);
      assert u in cfg.slots.Keys && u !in polled;
      var next := w.(op := SwitchAwaiting(None, polled + {u}, false));
      TimesOut(cfg, w, next, polled, ok, u);
      Extend(cfg, w, w, next);
      assert Shaped(cfg, next);
      hide Shaped;
      TimingOut(cfg, next, polled + {u}, todo - {u}, false);
      Join(cfg, w, next, w.(op := SwitchAwaiting(None, cfg.slots.Keys, false)));
    }
  }

  /** From a fresh start there is a run in which unloadAll clears the mode of a unit that is still going
      down. */
  lemma UnloadAllDropsEarly(cfg: Config, m: string, s: string) returns (first: World, w: World, w': World)
    requires CatalogConfig(cfg) && s in cfg.slots && m in cfg.modes && cfg.modes[m].services != []
    ensures Fresh(cfg, first) && Reaches(cfg, first, w) && Shaped(cfg, w) && Shaped(cfg, w')
    ensures UnloadAllStep(cfg, w, w') && w'.units[s] == Deactivating(true) && w.modes[s] == m && w'.modes[s] == ""
  {
    hide CatalogConfig, Step, Reaches, MayInfer, Fresh;
    first := AloneAt(cfg, m, s);
    var booted := BootsWith(cfg, first, s, m, s, m);
    var begun := booted.(op := SwitchStopping(None, {}));
    assert SwitchStep(cfg, booted, begun);
    OneStep(cfg, booted, begun);
    Extend(cfg, first, booted, begun);
    var stopped := StoppingRest(cfg, begun, {}, cfg.slots.Keys, s);
    Join(cfg, first, begun, stopped);
    var awaiting := stopped.(op := SwitchAwaiting(None, {}, true));
    assert SwitchStep(cfg, stopped, awaiting);
    OneStep(cfg, stopped, awaiting);
    Extend(cfg, first, stopped, awaiting);
    assert s in cfg.slots.Keys;
    TimingOut(cfg, awaiting, {}, cfg.slots.Keys, true);
    w := awaiting.(op := SwitchAwaiting(None, cfg.slots.Keys, false));
    Join(cfg, first, awaiting, w);
    w' := w.(modes := map x | x in cfg.slots :: "", op := Idle);
  }
}
