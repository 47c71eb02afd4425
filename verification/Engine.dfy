/** The lifecycle operations as the engine runs them (go/internal/engine/lifecycle.go), with everything
    that other goroutines and systemd do in between given by a script. Every statement is one step of the
    state machine, so whatever the script says, an execution is a run of the machine. */
module Engine {
  import opened Wrappers
  import opened SlotInference
  import opened Lifecycle
  import opened LifecycleSafety
  import FitPlan
  import Manager
  import RecordedMode

  const DEACTIVATING_WAIT: int := 330

  /** What may happen between two statements: a unit moves by itself, SlotStates runs on a report that misses
      the units of some slots, or another goroutine asks for the current mode, which may save it. */
  datatype Disturbance =
    | Drift(slot: string, unit: Unit)
    | Reconcile(missing: set<string>)
    | AskMode(stamp: string, saveWorks: bool)

  /** The memory figures that a fit check reads. */
  datatype Memory = Memory(
    footprint: string -> nat, estimate: string -> Option<nat>, freeBytes: nat, comfy: Option<int>)

  /** All that an operation does not decide: disturbances before its statements and polls, the weights
      behind each mode and the memory budget (None when it cannot be read), the slots whose units a fit
      check could not read, whether a stopped unit is down at once, how the write and the start turn out,
      what waitServiceRunning reads, and the time stamps and fates of the writes to the state file. */
  datatype Script = Script(
    before: nat -> seq<Disturbance>, poll: nat -> seq<Disturbance>,
    identity: string -> string, memory: Option<Memory>, unread: set<string>, downAtOnce: bool,
    writes: bool, written: EnvFile, modelPath: string, starts: bool, activeAtOnce: bool,
    readings: Manager.Readings, health: nat -> bool, port: int, startup: int,
    stamp: nat -> string, saveWorks: nat -> bool)

  /** Write, start and the wait for the service all succeed. */
  ghost predicate Succeeds(sc: Script)
  {
    sc.writes && sc.starts && Manager.ComesUp(sc.readings, sc.health, sc.port, sc.startup)
  }

  lemma SucceedsMeans(sc: Script)
    ensures Succeeds(sc) <==> sc.writes && sc.starts && Manager.ComesUp(sc.readings, sc.health, sc.port, sc.startup)
  {
  }

  ghost predicate NoPolls(poll: nat -> seq<Disturbance>)
  {
    forall k: nat :: poll(k) == []
  }

  lemma NoPollsMeans(poll: nat -> seq<Disturbance>)
    ensures NoPolls(poll) ==> forall k: nat :: poll(k) == []
  {
  }

  /** Nothing happens between the statements. */
  ghost predicate Quiet(sc: Script)
    ensures Quiet(sc) ==> NoPolls(sc.poll) && forall k: nat :: sc.before(k) == []
  {
    NoPolls(sc.poll) && forall k: nat :: sc.before(k) == []
  }

  /** The unit of a service that was started. */
  function UnitUp(sc: Script): Unit
  {
    if sc.activeAtOnce then Active else Activating
  }

  /** An operation of another caller. */
  datatype Call =
    | CallLoad(mode: string, slot: string, sc: Script)
    | CallUnload(slot: string, sc: Script)
    | CallUnloadAll(stops: string -> Script)
    | CallSwitch(mode: string, stops: string -> Script, sc: Script)

  /** What Restart does not decide: the fate of its first scan's save, the calls that others make before it
      has the lock and between its halves, and the scripts of its stop and of its switch. */
  datatype RestartScript = RestartScript(
    stamp: string, saveWorks: bool, before: seq<Call>, stops: string -> Script,
    between: seq<Call>, again: string -> Script, sc: Script)

  ghost predicate DownAtOnce(cfg: Config, stops: string -> Script)
  {
    forall s | s in cfg.slots :: stops(s).downAtOnce
  }

  /** Every unit that Restart stops is down at once, both times. */
  ghost predicate AllDownAtOnce(cfg: Config, r: RestartScript)
  {
    DownAtOnce(cfg, r.stops) && DownAtOnce(cfg, r.again)
  }

  lemma AllDownAtOnceMeans(cfg: Config, r: RestartScript)
    ensures AllDownAtOnce(cfg, r) <==> DownAtOnce(cfg, r.stops) && DownAtOnce(cfg, r.again)
  {
  }

  lemma DownAtOnceMeans(cfg: Config, stops: string -> Script)
    ensures DownAtOnce(cfg, stops) <==> forall s | s in cfg.slots :: stops(s).downAtOnce
  {
  }

  /** The file names the mode, and the units fit it. */
  ghost predicate TrustedHere(cfg: Config, units: map<string, Unit>, text: string, mode: string)
  {
    RecordedMode.RecordedIn(text) == mode && RecordedMode.Fits(cfg, units, mode)
  }

  lemma TrustedMeans(cfg: Config, units: map<string, Unit>, text: string, mode: string)
    ensures TrustedHere(cfg, units, text, mode) <==>
            RecordedMode.RecordedIn(text) == mode && RecordedMode.Fits(cfg, units, mode)
  {
  }

  /** CurrentMode may give the answer. */
  ghost predicate Answers(cfg: Config, units: map<string, Unit>, recorded: string, answer: string)
  {
    exists saves :: RecordedMode.MayBeCurrent(cfg, units, recorded, answer, saves)
  }

  lemma Answered(cfg: Config, units: map<string, Unit>, recorded: string, answer: string, saves: bool)
    requires RecordedMode.MayBeCurrent(cfg, units, recorded, answer, saves)
    ensures Answers(cfg, units, recorded, answer)
  {
  }

  /** The mode's own slot tracks it. */
  ghost predicate TargetTracks(cfg: Config, modes: map<string, string>, mode: string)
  {
    TargetSlot(cfg, mode).Some? && TargetSlot(cfg, mode).value in modes && modes[TargetSlot(cfg, mode).value] == mode
  }

  lemma TargetTracked(cfg: Config, modes: map<string, string>, mode: string)
    requires TargetSlot(cfg, mode).Some? && TargetSlot(cfg, mode).value in modes
    requires modes[TargetSlot(cfg, mode).value] == mode
    ensures TargetTracks(cfg, modes, mode)
  {
  }

  /** One slot tracks the mode and has its unit started; nothing else is tracked or up. */
  ghost predicate OnlyOne(cfg: Config, modes: map<string, string>, units: map<string, Unit>, mode: string,
                          slot: string, sc: Script)
  {
    modes == (map s | s in cfg.slots :: "")[slot := mode] &&
    units == (map s | s in cfg.slots :: Gone)[slot := UnitUp(sc)]
  }

  lemma OnlyOnePlaced(cfg: Config, cleared: map<string, string>, down: map<string, Unit>, mode: string, slot: string,
                      sc: Script)
    requires cleared == map s | s in cfg.slots :: ""
    requires down.Keys == cfg.slots.Keys && forall s | s in cfg.slots :: down[s] == Gone
    ensures OnlyOne(cfg, cleared[slot := mode], down[slot := UnitUp(sc)], mode, slot, sc)
  {
    assert down == map s | s in cfg.slots :: Gone;
  }

  /** Where a switch stands once the slots are cleared. */
  ghost function AfterClear(cfg: Config, target: Option<string>): Op
    ensures target.None? ==> AfterClear(cfg, target) == Idle
  {
    match target
    case Some(m) =>
      (match TargetSlot(cfg, m)
       case Some(s) => Placing(m, s, Gone, Writing)
       case None => Idle)
    case None => Idle
  }

  lemma AfterClearMeans(cfg: Config, mode: string)
    ensures TargetSlot(cfg, mode).None? ==> AfterClear(cfg, Some(mode)) == Idle
    ensures TargetSlot(cfg, mode).Some? ==>
              AfterClear(cfg, Some(mode)) == Placing(mode, TargetSlot(cfg, mode).value, Gone, Writing)
  {
  }

  lemma FitsOnlyKnown(cfg: Config, units: map<string, Unit>, mode: string)
    ensures RecordedMode.Fits(cfg, units, mode) ==> mode in cfg.modes
  {
  }

  /** Load's own refusals: unknown slot or mode, no service, or tracked by another slot. */
  ghost predicate Loadable(cfg: Config, modes: map<string, string>, mode: string, slot: string)
  {
    slot in cfg.slots && mode in cfg.modes && cfg.modes[mode].services != [] && Free(modes, mode, slot)
  }

  // ---- The same-weights guard ----

  ghost predicate IsSibling(modes: map<string, string>, mode: string, slot: string, identity: string -> string,
                            s: string)
  {
    s in modes && s != slot && modes[s] != "" && modes[s] != mode && identity(modes[s]) == identity(mode)
  }

  /** Another slot tracks another mode with the same, known weights. */
  ghost predicate HasSibling(modes: map<string, string>, mode: string, slot: string, identity: string -> string)
  {
    identity(mode) != "" && exists s :: IsSibling(modes, mode, slot, identity, s)
  }

  /** What FitPlan sees: no transition is in flight while a load holds opMu and has not marked its slot. */
  function Snapshot(cfg: Config, order: seq<string>, modes: map<string, string>, mem: Memory): FitPlan.Machine
  {
    FitPlan.Machine(cfg.modes.Keys, order, map s | s in modes :: FitPlan.Assignment(modes[s], None, None),
                    mem.footprint, mem.estimate, mem.freeBytes, mem.comfy)
  }

  /** The need is unknown, or more than everything that can be freed. */
  ghost predicate NoRoom(m: FitPlan.Machine, mode: string)
    requires FitPlan.ValidMachine(m)
  {
    m.estimate(mode).None? ||
    m.estimate(mode).value > FitPlan.EffectiveFree(m, mode) + FitPlan.Footprints(FitPlan.Candidates(m)) +
                             FitPlan.ComfyBytes(m)
  }

  ghost predicate SiblingRefused(cfg: Config, order: seq<string>, seen: map<string, string>,
                                 planned: map<string, string>, mode: string, slot: string, sc: Script)
  {
    HasSibling(seen, mode, slot, sc.identity) && sc.memory.Some? &&
    var m := Snapshot(cfg, order, planned, sc.memory.value);
    FitPlan.ValidMachine(m) && NoRoom(m, mode)
  }

  lemma NotRefused(cfg: Config, order: seq<string>, seen: map<string, string>, planned: map<string, string>,
                   mode: string, slot: string, sc: Script)
    requires !HasSibling(seen, mode, slot, sc.identity) || sc.memory.None?
    ensures !SiblingRefused(cfg, order, seen, planned, mode, slot, sc)
  {
  }

  lemma RefusedByRoom(cfg: Config, order: seq<string>, seen: map<string, string>, planned: map<string, string>,
                      mode: string, slot: string, sc: Script)
    requires HasSibling(seen, mode, slot, sc.identity) && sc.memory.Some?
    requires FitPlan.ValidMachine(Snapshot(cfg, order, planned, sc.memory.value))
    ensures SiblingRefused(cfg, order, seen, planned, mode, slot, sc) <==>
            NoRoom(Snapshot(cfg, order, planned, sc.memory.value), mode)
  {
  }

  /** A load of the mode into the slot that is the run's since-th world or later tracked these modes when
      it was about to read the unit. */
  ghost predicate Saw(trace: seq<World>, since: nat, mode: string, slot: string, modes: map<string, string>)
  {
    exists i :: since <= i < |trace| && trace[i].op == LoadReading(mode, slot) && trace[i].modes == modes
  }

  /** The guard refuses a load exactly when a sibling was resident at one look and, at a later one, nothing
      fitted. */
  ghost predicate Guarded(cfg: Config, order: seq<string>, trace: seq<World>, since: nat, mode: string, slot: string,
                          sc: Script, refused: bool)
  {
    exists seen, planned :: Verdict(cfg, order, trace, since, mode, slot, sc, seen, planned, refused)
  }

  ghost predicate Verdict(cfg: Config, order: seq<string>, trace: seq<World>, since: nat, mode: string, slot: string,
                          sc: Script, seen: map<string, string>, planned: map<string, string>, refused: bool)
  {
    Saw(trace, since, mode, slot, seen) && Saw(trace, since, mode, slot, planned) &&
    (refused <==> SiblingRefused(cfg, order, seen, planned, mode, slot, sc))
  }

  lemma Decides(cfg: Config, order: seq<string>, trace: seq<World>, since: nat, mode: string, slot: string,
                sc: Script, seen: map<string, string>, planned: map<string, string>, refused: bool)
    requires Saw(trace, since, mode, slot, seen) && Saw(trace, since, mode, slot, planned)
    requires refused <==> SiblingRefused(cfg, order, seen, planned, mode, slot, sc)
    ensures Guarded(cfg, order, trace, since, mode, slot, sc, refused)
  {
    hide Saw, SiblingRefused;
    assert Verdict(cfg, order, trace, since, mode, slot, sc, seen, planned, refused);
  }

  lemma SawGrows(a: seq<World>, b: seq<World>, since: nat, mode: string, slot: string, modes: map<string, string>)
    requires Grows(a, b) && Saw(a, since, mode, slot, modes)
    ensures Saw(b, since, mode, slot, modes)
  {
    var i :| since <= i < |a| && a[i].op == LoadReading(mode, slot) && a[i].modes == modes;
    assert b[i] == a[i];
  }

  lemma GuardedGrows(cfg: Config, order: seq<string>, a: seq<World>, b: seq<World>, since: nat, mode: string,
                     slot: string, sc: Script, refused: bool)
    requires Grows(a, b) && Guarded(cfg, order, a, since, mode, slot, sc, refused)
    ensures Guarded(cfg, order, b, since, mode, slot, sc, refused)
  {
    hide Saw, SiblingRefused, Grows;
    var seen, planned :| Verdict(cfg, order, a, since, mode, slot, sc, seen, planned, refused);
    SawGrows(a, b, since, mode, slot, seen);
    SawGrows(a, b, since, mode, slot, planned);
    Decides(cfg, order, b, since, mode, slot, sc, seen, planned, refused);
  }

  /** Slots() lists every configured slot once. */
  ghost predicate ListsSlots(order: seq<string>, cfg: Config)
  {
    (forall s :: s in order <==> s in cfg.slots) && forall i, j | 0 <= i < j < |order| :: order[i] != order[j]
  }

  lemma HoldsSet(slots: map<string, Manager.SlotRec>, modes: map<string, string>, s: string, mode: string)
    requires Manager.Holds(slots, modes) && s in modes
    ensures s in slots && Manager.Holds(slots[s := slots[s].(mode := mode)], modes[s := mode])
  {
  }

  /** A fresh start: nothing is tracked. */
  function Untracked(cfg: Config, units: map<string, Unit>, envs: map<string, EnvFile>): World
  {
    World(map s | s in cfg.slots :: "", units, envs, Booting)
  }

  lemma HoldsEmpty(cfg: Config, units: map<string, Unit>, envs: map<string, EnvFile>)
    ensures Manager.Holds(Manager.EmptyRecs(cfg), Untracked(cfg, units, envs).modes)
  {
  }

  lemma HoldsNone(slots: map<string, Manager.SlotRec>, modes: map<string, string>)
    requires Manager.Holds(slots, modes)
    ensures Manager.Holds(map s | s in slots :: Manager.EMPTY_REC, map s | s in modes :: "")
  {
  }

  /** The run b goes on from the run a. */
  ghost predicate Grows(a: seq<World>, b: seq<World>)
    ensures Grows(a, b) ==> |a| <= |b|
  {
    a <= b
  }

  /** Units that were gone still are. */
  ghost predicate StayGone(before: map<string, Unit>, after: map<string, Unit>)
  {
    forall s | s in before && before[s] == Gone :: s in after && after[s] == Gone
  }

  /** Every slot whose unit is not gone tracks what it tracked before. */
  ghost predicate KeepsTracked(before: map<string, string>, after: map<string, string>, units: map<string, Unit>)
  {
    forall s | s in after && s in units && units[s] != Gone :: s in before && after[s] == before[s]
  }

  lemma KeepsTrackedStarts(modes: map<string, string>, units: map<string, Unit>)
    ensures KeepsTracked(modes, modes, units)
  {
  }

  lemma KeepsTrackedOn(first: map<string, string>, before: map<string, string>, after: map<string, string>,
                       units: map<string, Unit>)
    requires KeepsTracked(first, before, units) && KeepsTracked(before, after, units)
    ensures KeepsTracked(first, after, units)
  {
  }

  lemma KeepsTrackedMoved(first: map<string, string>, modes: map<string, string>, before: map<string, Unit>,
                          after: map<string, Unit>)
    requires KeepsTracked(first, modes, before) && StayGone(before, after) && before.Keys == after.Keys
    ensures KeepsTracked(first, modes, after)
  {
  }

  /** Between operations a reconciliation adopts nothing and clears only what is gone. */
  lemma IdleKeeps(cfg: Config, w: World, w': World, missing: set<string>)
    requires Inv(cfg, w) && w.op == Idle && Shaped(cfg, w') && w'.units == w.units
    requires Manager.AllReconciled(cfg, w, w', missing)
    ensures KeepsTracked(w.modes, w'.modes, w'.units)
  {
    hide ModesDistinct, OpKnows, Fresh, MayInfer;
    forall s | s in cfg.slots
      ensures w.units[s] != Gone ==> w'.modes[s] == w.modes[s]
    {
      assert SlotTracked(w, s);
    }
  }

  /** A load finds the slot's unit gone, or gets it down: undisturbed, and with a stop that works at once. */
  ghost predicate MakesWay(units: map<string, Unit>, slot: string, sc: Script)
  {
    slot in units && (units[slot] == Gone || (units[slot] == Active && sc.downAtOnce && Quiet(sc)))
  }

  lemma MakesWayMeans(units: map<string, Unit>, slot: string, sc: Script)
    ensures MakesWay(units, slot, sc) ==>
              slot in units && (units[slot] == Gone || (units[slot] == Active && sc.downAtOnce && Quiet(sc)))
  {
  }

  lemma MakesWayStill(before: map<string, Unit>, after: map<string, Unit>, slot: string, sc: Script)
    requires StayGone(before, after) && (Quiet(sc) ==> after == before)
    ensures MakesWay(before, slot, sc) ==> MakesWay(after, slot, sc)
  {
    hide Quiet;
  }

  lemma SameButThen(before: map<string, Unit>, after: map<string, Unit>, slot: string, v: Unit)
    requires SameBut(before, after, slot)
    ensures after[slot := v] == before[slot := v]
  {
  }

  lemma SameButItself(units: map<string, Unit>, slot: string)
    requires slot in units
    ensures SameBut(units, units, slot)
  {
    assert units == units[slot := units[slot]];
  }

  ghost predicate SameBut(before: map<string, Unit>, after: map<string, Unit>, slot: string)
  {
    slot in after && after == before[slot := after[slot]]
  }

  /** The units stopped so far are gone if they go down at once. */
  ghost predicate DownIfAtOnce(units: map<string, Unit>, done: set<string>, stops: string -> Script)
  {
    forall s | s in done :: s in units && (stops(s).downAtOnce ==> units[s] == Gone)
  }

  lemma NoneDown(units: map<string, Unit>, stops: string -> Script)
    ensures DownIfAtOnce(units, {}, stops)
  {
  }

  lemma StillDown(before: map<string, Unit>, after: map<string, Unit>, done: set<string>, stops: string -> Script)
    requires DownIfAtOnce(before, done, stops) && StayGone(before, after) && before.Keys == after.Keys
    ensures DownIfAtOnce(after, done, stops)
  {
  }

  lemma OneMoreDown(before: map<string, Unit>, after: map<string, Unit>, done: set<string>, stops: string -> Script,
                    s: string)
    requires DownIfAtOnce(before, done, stops) && s in after && after == before[s := after[s]]
    requires stops(s).downAtOnce ==> after[s] == Gone
    ensures DownIfAtOnce(after, done + {s}, stops)
  {
  }

  lemma AllDown(units: map<string, Unit>, slots: set<string>, stops: string -> Script)
    requires DownIfAtOnce(units, slots, stops)
    ensures (forall s | s in slots :: stops(s).downAtOnce) ==> forall s | s in slots :: s in units && units[s] == Gone
  {
  }

  lemma GoneAfter(before: map<string, Unit>, after: map<string, Unit>, s: string)
    requires StayGone(before, after) && s in before && before[s] == Gone
    ensures s in after && after[s] == Gone
  {
  }

  lemma StayGoneTransitive()
    ensures forall a, b, c :: StayGone(a, b) && StayGone(b, c) ==> StayGone(a, c)
    ensures forall a :: StayGone(a, a)
  {
  }

  lemma GrowsTransitive()
    ensures forall a, b, c :: Grows(a, b) && Grows(b, c) ==> Grows(a, c)
    ensures forall a :: Grows(a, a)
  {
  }

  class Engine {
    const cfg: Config
    const order: seq<string>
    const table: Manager.SlotTable
    const state: RecordedMode.StateFile
    ghost var modes: map<string, string>
    var units: map<string, Unit>
    var envs: map<string, EnvFile>
    ghost var op: Op
    ghost var trace: seq<World>

    ghost function Now(): World
      reads this
    {
      World(modes, units, envs, op)
    }

    /** The table holds the tracked modes. */
    ghost predicate Backed()
      reads this, table
    {
      table.cfg == cfg && Manager.Holds(table.slots, modes) && ListsSlots(order, cfg) && Shaped(cfg, Now())
    }

    /** A run of the machine ends in the given world. */
    ghost predicate Ran(last: World)
      reads this
    {
      CatalogConfig(cfg) && IsRun(cfg, trace) && trace[|trace| - 1] == last && Shaped(cfg, last)
    }

    ghost predicate Valid()
      reads this, table
      ensures Valid() ==> forall s | s in cfg.slots :: s in modes && s in units && s in envs
    {
      Ran(Now()) && Backed()
    }

    /** NewManager: nothing is tracked until the first reconciliation. */
    constructor (cfg: Config, order: seq<string>, units: map<string, Unit>, envs: map<string, EnvFile>, text: string)
      requires ListsSlots(order, cfg)
      requires CatalogConfig(cfg) && units.Keys == cfg.slots.Keys && envs.Keys == cfg.slots.Keys
      requires Fresh(cfg, Untracked(cfg, units, envs))
      ensures this.cfg == cfg && this.units == units && this.envs == envs && fresh(table) && fresh(state)
      ensures state.text == text
      ensures Valid() && op == Idle && ModesDistinct(modes)
    {
      this.cfg := cfg;
      this.order := order;
      table := new Manager.SlotTable(cfg);
      state := new RecordedMode.StateFile(text);
      this.units := units;
      this.envs := envs;
      modes := Untracked(cfg, units, envs).modes;
      op := Booting;
      trace := [Untracked(cfg, units, envs)];
      new;
      hide *;
      FreshIsRun(cfg, Untracked(cfg, units, envs));
      HoldsEmpty(cfg, units, envs);
      Built();
      SlotStates({});
      Distinct();
    }

    /** A run of one world. */
    lemma Built()
      requires CatalogConfig(cfg) && ListsSlots(order, cfg)
      requires modes == Untracked(cfg, units, envs).modes && op == Booting && trace == [Untracked(cfg, units, envs)]
      requires IsRun(cfg, trace) && Shaped(cfg, trace[0])
      requires table.cfg == cfg && Manager.Holds(table.slots, modes)
      ensures Valid()
    {
      hide CatalogConfig, IsRun, Shaped, Manager.Holds, ListsSlots;
      assert Now() == Untracked(cfg, units, envs);
      assert Ran(Now()) && Backed();
    }

    /** Whatever happened so far, no two slots track one mode. */
    lemma Distinct()
      requires Valid()
      ensures ModesDistinct(modes)
    {
      InvAtEnd(cfg, trace);
    }

    /** The next world of the run. */
    ghost method Advance(was: World)
      requires Ran(was) && Backed() && Step(cfg, was, Now())
      modifies this`trace
      ensures Valid() && Grows(old(trace), trace) && |old(trace)| < |trace|
    {
      hide CatalogConfig, IsRun, Step;
      RunExtends(cfg, trace, Now());
      trace := trace + [Now()];
    }

    /** One reconciliation on a current report, which at start-up is complete. */
    method SlotStates(missing: set<string>)
      requires Valid() && (op == Booting ==> missing == {})
      modifies this`modes, this`op, this`trace, table
      ensures Valid() && Grows(old(trace), trace) && op == if old(op) == Booting then Idle else old(op)
      ensures Shaped(cfg, old(Now())) && Shaped(cfg, Now()) && Manager.AllReconciled(cfg, old(Now()), Now(), missing)
    {
      var report := Report(missing);
      hide CatalogConfig, IsRun, Step, Shaped, ListsSlots, Manager.Holds, Manager.Reports, Manager.Swept;
      ghost var before := table.slots;
      var out := table.SlotStates(report, envs);
      Reconciled(Now(), missing, before, report, out);
    }

    /** The table's pass is a step of the machine. */
    ghost method Reconciled(was: World, missing: set<string>, before: map<string, Manager.SlotRec>,
                            report: map<string, Manager.UnitState>, out: map<string, Manager.SlotRec>)
      requires Ran(was) && was == Now() && table.cfg == cfg && ListsSlots(order, cfg) && Shaped(cfg, was)
      requires Manager.Reports(cfg, was, report, missing) && Manager.Holds(before, was.modes)
      requires was.envs.Keys == cfg.slots.Keys
      requires Manager.Swept(cfg, report, was.envs, before, table.slots, out)
      modifies this`modes, this`op, this`trace
      ensures Valid() && Grows(old(trace), trace) && op == if was.op == Booting then Idle else was.op
      ensures Shaped(cfg, Now()) && Manager.AllReconciled(cfg, was, Now(), missing)
    {
      hide CatalogConfig, IsRun, Step, Shaped, ListsSlots, Manager.Holds, Manager.Reports, Manager.Swept,
           Manager.ModesOf, Manager.AllReconciled, ReconcileStep;
      modes := Manager.ModesOf(table.slots);
      op := if op == Booting then Idle else op;
      Manager.TableStepIsMachineStep(cfg, was, Now(), report, missing, before, table.slots, out);
      assert Ran(was) && Backed();
      hide *;
      OneStep(cfg, was, Now());
      Advance(was);
    }

    /** reconcileLive's report: every unit that could be read, as it is. */
    method Report(missing: set<string>) returns (report: map<string, Manager.UnitState>)
      requires Valid() && (op == Booting ==> missing == {})
      ensures Shaped(cfg, Now()) && envs.Keys == cfg.slots.Keys && Manager.Reports(cfg, Now(), report, missing)
    {
      hide IsRun, ListsSlots, Manager.Holds, AliasesUnique, Manager.Reports, Manager.ReportOf;
      report := Manager.ReportOf(cfg, units, missing);
      Manager.ReportIsCurrent(cfg, Now(), missing);
    }

    method Disturb(ds: seq<Disturbance>)
      requires Valid() && op != Booting
      modifies this`modes, this`units, this`op, this`trace, table, state
      ensures Valid() && op == old(op) && Grows(old(trace), trace) && StayGone(old(units), units)
      ensures units.Keys == old(units).Keys
      ensures ds == [] ==> modes == old(modes) && units == old(units) && state.text == old(state.text)
      ensures op == Idle ==> KeepsTracked(old(modes), modes, units)
    {
      hide *;
      GrowsTransitive();
      StayGoneTransitive();
      KeepsTrackedStarts(modes, units);
      for i := 0 to |ds|
        invariant Valid() && op == old(op) && Grows(old(trace), trace) && StayGone(old(units), units)
        invariant units.Keys == old(units).Keys
        invariant ds == [] ==> modes == old(modes) && units == old(units) && state.text == old(state.text)
        invariant op == Idle ==> KeepsTracked(old(modes), modes, units)
      {
        DisturbOnce(ds[i], old(modes));
      }
    }

    method DisturbOnce(d: Disturbance, ghost first: map<string, string>)
      requires Valid() && op != Booting && (op == Idle ==> KeepsTracked(first, modes, units))
      modifies this`modes, this`units, this`op, this`trace, table, state
      ensures Valid() && op == old(op) && Grows(old(trace), trace) && StayGone(old(units), units)
      ensures units.Keys == old(units).Keys
      ensures op == Idle ==> KeepsTracked(first, modes, units)
    {
      hide *;
      match d {
        case Drift(s, v) => DriftNow(s, v, first);
        case Reconcile(missing) => ReconcileNow(missing, first);
        case AskMode(stamp, saveWorks) => AskModeNow(stamp, saveWorks);
      }
    }

    method AskModeNow(stamp: string, saveWorks: bool)
      requires Valid()
      modifies state
      ensures Valid() && Grows(old(trace), trace) && StayGone(old(units), units)
    {
      UnitsOfSlots();
      hide *;
      GrowsTransitive();
      StayGoneTransitive();
      var _, _ := RecordedMode.CurrentMode(cfg, units, state, stamp, saveWorks);
    }

    method DriftNow(s: string, v: Unit, ghost first: map<string, string>)
      requires Valid() && op != Booting && (op == Idle ==> KeepsTracked(first, modes, units))
      modifies this`units, this`trace
      ensures Valid() && Grows(old(trace), trace) && StayGone(old(units), units) && units.Keys == old(units).Keys
      ensures op == Idle ==> KeepsTracked(first, modes, units)
    {
      hide *;
      GrowsTransitive();
      StayGoneTransitive();
      if s in cfg.slots && Drifts(units[s], v) {
        Move(s, v);
        if op == Idle {
          KeepsTrackedMoved(first, modes, old(units), units);
        }
      }
    }

    method ReconcileNow(missing: set<string>, ghost first: map<string, string>)
      requires Valid() && op != Booting && (op == Idle ==> KeepsTracked(first, modes, units))
      modifies this`modes, this`op, this`trace, table
      ensures Valid() && op == old(op) && Grows(old(trace), trace) && StayGone(old(units), units)
      ensures op == Idle ==> KeepsTracked(first, modes, units)
    {
      InvNow();
      hide *;
      StayGoneTransitive();
      ghost var was := Now();
      SlotStates(missing);
      if op == Idle {
        IdleKeeps(cfg, was, Now(), missing);
        KeepsTrackedOn(first, was.modes, modes, units);
      }
    }

    lemma InvNow()
      requires Valid()
      ensures Inv(cfg, Now())
    {
      InvAtEnd(cfg, trace);
    }

    lemma UnitsOfSlots()
      requires Valid()
      ensures cfg.slots.Keys == units.Keys
    {
    }

    method Move(s: string, v: Unit)
      requires Valid() && op != Booting && s in cfg.slots && Drifts(units[s], v)
      modifies this`units, this`trace
      ensures Valid() && Grows(old(trace), trace) && StayGone(old(units), units) && units.Keys == old(units).Keys
    {
      hide CatalogConfig, IsRun, Step, Manager.Holds, ListsSlots;
      ghost var was := Now();
      units := units[s := v];
      assert DriftStep(cfg, was, Now());
      assert Ran(was) && Backed();
      hide *;
      OneStep(cfg, was, Now());
      Advance(was);
    }

    /** waitUnitGone with other goroutines acting before every poll. The readings it takes are those of
        Manager's waitUnitGone. */
    method WaitUnitGone(s: string, timeout: int, poll: nat -> seq<Disturbance>)
        returns (gone: bool, ghost seen: seq<Manager.UnitState>)
      requires Valid() && op != Booting && s in cfg.slots
      modifies this`modes, this`units, this`op, this`trace, table, state
      ensures Valid() && op == old(op) && Grows(old(trace), trace)
      ensures gone ==> units[s] == Gone
      ensures old(units[s]) == Gone ==> gone
      ensures StayGone(old(units), units)
      ensures NoPolls(poll) ==> modes == old(modes) && units == old(units) && state.text == old(state.text)
      ensures Manager.PolledUntilGone(seen, timeout, gone)
    {
      hide *;
      GrowsTransitive();
      StayGoneTransitive();
      NoPollsMeans(poll);
      var k: nat := 0;
      seen := [];
      Manager.NotPolled(timeout);
      while true
        invariant Valid() && op == old(op) && Grows(old(trace), trace) && StayGone(old(units), units)
        invariant NoPolls(poll) ==> modes == old(modes) && units == old(units) && state.text == old(state.text)
        invariant k <= Manager.LastPoll(timeout) && |seen| == k && Manager.NoneGone(seen)
        decreases Manager.LastPoll(timeout) - k
      {
        Disturb(poll(k));
        if old(units[s]) == Gone {
          GoneAfter(old(units), units, s);
        }
        var reading := Manager.StateOf(units[s]);
        Manager.PollOnce(seen, reading, units[s], timeout);
        seen := seen + [reading];
        if Manager.ShowsGone(Some(reading)) {
          return true, seen;
        }
        if 2 * k >= timeout {
          return false, seen;
        }
        k := k + 1;
      }
    }

    /** The unit after Stop has been ordered. */
    function AfterStop(s: string, downAtOnce: bool): (v: Unit)
      requires s in units
      reads this
      ensures Stopped(units[s], v)
    {
      if units[s] == Gone || downAtOnce then Gone else Deactivating(true)
    }

    /** The single-instance guard, a scan of the records in any order. */
    method LoadedElsewhere(mode: string, slot: string) returns (found: bool)
      requires Manager.Holds(table.slots, modes) && mode != ""
      ensures found <==> !Free(modes, mode, slot)
    {
      var left := table.slots.Keys;
      while left != {}
        invariant left <= table.slots.Keys
        invariant forall s | s in modes && s !in left :: s != slot ==> modes[s] != mode
        decreases |left|
      {
        ghost var some := Member(left);
        var s :| s in left;
        if s != slot && table.slots[s].mode == mode && table.slots[s].mode != "" {
          return true;
        }
        left := left - {s};
      }
      return false;
    }

    /** Whether another slot's mode has the same weights, a scan of the records in any order. */
    method SiblingResident(mode: string, slot: string, identity: string -> string) returns (found: bool)
      requires Manager.Holds(table.slots, modes)
      ensures found <==> HasSibling(modes, mode, slot, identity)
    {
      if identity(mode) == "" {
        return false;
      }
      var left := table.slots.Keys;
      while left != {}
        invariant left <= table.slots.Keys
        invariant forall s | s in modes && s !in left :: !IsSibling(modes, mode, slot, identity, s)
        decreases |left|
      {
        ghost var some := Member(left);
        var s :| s in left;
        var other := table.slots[s].mode;
        if s != slot && other != "" && other != mode && identity(other) == identity(mode) {
          assert IsSibling(modes, mode, slot, identity, s);
          return true;
        }
        left := left - {s};
      }
      return false;
    }

    /** The same-weights guard: beside a sibling a mode is only loaded where FitPlan finds or can make
        room. FitPlan reconciles on its own before it looks. */
    method SiblingGuard(mode: string, slot: string, ghost since: nat, sc: Script) returns (refused: bool)
      requires Valid() && op == LoadReading(mode, slot) && mode in cfg.modes && since < |trace|
      modifies this`modes, this`op, this`trace, table
      ensures Valid() && op == old(op) && Grows(old(trace), trace)
      ensures Guarded(cfg, order, trace, since, mode, slot, sc, refused)
      ensures !HasSibling(old(modes), mode, slot, sc.identity) ==> !refused && modes == old(modes)
    {
      Sees(mode, slot, since);
      hide *;
      var sibling := SiblingResident(mode, slot, sc.identity);
      if sibling && sc.memory.Some? {
        refused := FitGuard(mode, slot, since, sc, modes);
      } else {
        refused := false;
        Passes(mode, slot, since, sc);
      }
    }

    lemma Passes(mode: string, slot: string, since: nat, sc: Script)
      requires !HasSibling(modes, mode, slot, sc.identity) || sc.memory.None?
      requires Saw(trace, since, mode, slot, modes)
      ensures Guarded(cfg, order, trace, since, mode, slot, sc, false) && Grows(trace, trace)
    {
      hide Saw, Guarded, SiblingRefused, HasSibling;
      NotRefused(cfg, order, modes, modes, mode, slot, sc);
      Decides(cfg, order, trace, since, mode, slot, sc, modes, modes, false);
    }

    /** The fit check beside a resident sibling. */
    method FitGuard(mode: string, slot: string, ghost since: nat, sc: Script, ghost seen: map<string, string>)
        returns (refused: bool)
      requires Valid() && op == LoadReading(mode, slot) && mode in cfg.modes && since < |trace|
      requires HasSibling(seen, mode, slot, sc.identity) && sc.memory.Some? && Saw(trace, since, mode, slot, seen)
      modifies this`modes, this`op, this`trace, table
      ensures Valid() && op == old(op) && Grows(old(trace), trace)
      ensures Guarded(cfg, order, trace, since, mode, slot, sc, refused)
    {
      hide *;
      SlotStates(sc.unread);
      SawGrows(old(trace), trace, since, mode, slot, seen);
      Sees(mode, slot, since);
      refused := NothingFits(mode, sc.memory.value);
      RefusedByRoom(cfg, order, seen, modes, mode, slot, sc);
      Decides(cfg, order, trace, since, mode, slot, sc, seen, modes, refused);
    }

    lemma Sees(mode: string, slot: string, since: nat)
      requires Valid() && op == LoadReading(mode, slot) && since < |trace|
      ensures Saw(trace, since, mode, slot, modes)
      ensures Manager.Holds(table.slots, modes) && ListsSlots(order, cfg) && modes.Keys == cfg.slots.Keys
    {
      hide CatalogConfig, Fresh, Step;
      assert trace[|trace| - 1] == Now();
    }

    /** FitPlan's terminal refusal. */
    method NothingFits(mode: string, mem: Memory) returns (refused: bool)
      requires Manager.Holds(table.slots, modes) && ListsSlots(order, cfg) && modes.Keys == cfg.slots.Keys
      requires mode in cfg.modes
      ensures FitPlan.ValidMachine(Snapshot(cfg, order, modes, mem))
      ensures refused <==> NoRoom(Snapshot(cfg, order, modes, mem), mode)
    {
      var m := FitPlan.Machine(cfg.modes.Keys, order,
                               map s | s in table.slots :: FitPlan.Assignment(table.slots[s].mode, None, None),
                               mem.footprint, mem.estimate, mem.freeBytes, mem.comfy);
      assert m == Snapshot(cfg, order, modes, mem);
      hide FitPlan.EffectiveFree, FitPlan.Footprints, FitPlan.Candidates, FitPlan.ComfyBytes, FitPlan.Sort,
           FitPlan.FreeSlots, FitPlan.ShortestPrefix;
      var plan := FitPlan.FitPlan(m, mode);
      refused := !plan.fits && plan.evict == [] && !plan.evictComfyUI;
    }

    // ---- Load ----

    /** Loads a mode into one slot. It is refused without any effect for an unknown slot or mode, a mode
        without services, or one that another slot tracks, and then by the same-weights guard. */
    method Load(mode: string, slot: string, sc: Script) returns (ok: bool, ghost refused: bool)
      requires Valid() && op == Idle
      modifies this, table, state
      ensures Valid() && op == Idle && Grows(old(trace), trace) && ModesDistinct(modes)
      ensures ok ==> slot in modes && mode in cfg.modes && modes[slot] == mode
      ensures !Loadable(cfg, old(modes), mode, slot) ==> !ok && trace == old(trace)
      ensures Loadable(cfg, old(modes), mode, slot) ==>
                Guarded(cfg, order, trace, old(|trace|), mode, slot, sc, refused)
      ensures refused ==> !ok
      ensures Loadable(cfg, old(modes), mode, slot) && MakesWay(old(units), slot, sc) ==>
                (ok <==> !refused && Succeeds(sc))
      ensures Quiet(sc) && !HasSibling(old(modes), mode, slot, sc.identity) && Loadable(cfg, old(modes), mode, slot) ==>
                !refused && (ok ==> modes == old(modes)[slot := mode] && units == old(units)[slot := UnitUp(sc)] &&
                                    state.text == old(state.text))
    {
      hide *;
      GrowsTransitive();
      Distinct();
      var may := MayLoad(mode, slot);
      if !may {
        return false, true;
      }
      LoadableMeans(mode, slot);
      ghost var since := |trace|;
      BeginLoad(mode, slot);
      ok, refused := FinishLoad(mode, slot, since, sc);
      Distinct();
    }

    /** Load's own checks. */
    method MayLoad(mode: string, slot: string) returns (may: bool)
      requires Valid()
      ensures may <==> Loadable(cfg, modes, mode, slot)
    {
      LoadableMeans(mode, slot);
      hide *;
      if slot !in cfg.slots || mode !in cfg.modes || cfg.modes[mode].services == [] {
        return false;
      }
      var elsewhere := LoadedElsewhere(mode, slot);
      may := !elsewhere;
    }

    /** A load that passed the single-instance guard. */
    method FinishLoad(mode: string, slot: string, ghost since: nat, sc: Script) returns (ok: bool, ghost refused: bool)
      requires Valid() && op == LoadReading(mode, slot) && slot in cfg.slots && since < |trace|
      requires mode in cfg.modes && cfg.modes[mode].services != []
      modifies this, table, state
      ensures Valid() && op == Idle && Grows(old(trace), trace)
      ensures ok ==> slot in modes && modes[slot] == mode
      ensures Guarded(cfg, order, trace, since, mode, slot, sc, refused) && (refused ==> !ok)
      ensures MakesWay(old(units), slot, sc) ==> (ok <==> !refused && Succeeds(sc))
      ensures Quiet(sc) && !HasSibling(old(modes), mode, slot, sc.identity) ==>
                !refused && (ok ==> modes == old(modes)[slot := mode] && units == old(units)[slot := UnitUp(sc)] &&
                                    state.text == old(state.text))
    {
      hide *;
      GrowsTransitive();
      Disturb(sc.before(0));
      MakesWayStill(old(units), units, slot, sc);
      var no := SiblingGuard(mode, slot, since, sc);
      refused := no;
      ghost var guarded := trace;
      if no {
        RefuseLoad(mode, slot);
        ok := false;
      } else {
        ok := ClearAndPlace(mode, slot, sc);
      }
      GuardedGrows(cfg, order, guarded, trace, since, mode, slot, sc, refused);
    }

    method ClearAndPlace(mode: string, slot: string, sc: Script) returns (ok: bool)
      requires Valid() && op == LoadReading(mode, slot) && slot in cfg.slots
      requires mode in cfg.modes && cfg.modes[mode].services != []
      modifies this, table, state
      ensures Valid() && op == Idle && Grows(old(trace), trace)
      ensures ok ==> slot in modes && modes[slot] == mode
      ensures MakesWay(old(units), slot, sc) ==> (ok <==> Succeeds(sc))
      ensures Quiet(sc) && ok ==> modes == old(modes)[slot := mode] && units == old(units)[slot := UnitUp(sc)] &&
                                  state.text == old(state.text)
    {
      hide *;
      GrowsTransitive();
      ok := ClearSlot(mode, slot, sc);
      if ok {
        ghost var cleared := units;
        ok := Place(mode, slot, sc);
        if Quiet(sc) {
          SameButThen(old(units), cleared, slot, UnitUp(sc));
        }
      }
    }

    lemma LoadableMeans(mode: string, slot: string)
      requires Valid()
      ensures Loadable(cfg, modes, mode, slot) <==>
              slot in cfg.slots && mode in cfg.modes && cfg.modes[mode].services != [] && Free(modes, mode, slot)
      ensures Manager.Holds(table.slots, modes) && ListsSlots(order, cfg) && (mode in cfg.modes ==> mode != "")
    {
    }

    /** The guard's refusal ends the load. */
    ghost method RefuseLoad(mode: string, slot: string)
      requires Valid() && op == LoadReading(mode, slot) && slot in cfg.slots
      modifies this`op, this`trace
      ensures Valid() && Grows(old(trace), trace) && op == Idle
    {
      hide CatalogConfig, IsRun, Step, Manager.Holds, ListsSlots;
      ghost var was := Now();
      op := Idle;
      assert LoadClears(cfg, was, Now());
      assert Ran(was) && Backed();
      hide *;
      OneStep(cfg, was, Now());
      Advance(was);
    }

    ghost method BeginLoad(mode: string, slot: string)
      requires Valid() && op == Idle && slot in cfg.slots && mode in cfg.modes && cfg.modes[mode].services != []
      requires Free(modes, mode, slot)
      modifies this`op, this`trace
      ensures Valid() && Grows(old(trace), trace) && |old(trace)| < |trace| && op == LoadReading(mode, slot)
    {
      hide CatalogConfig, IsRun, Step, Manager.Holds, ListsSlots;
      ghost var was := Now();
      op := LoadReading(mode, slot);
      assert LoadBegins(cfg, was, Now()) by {
        hide Free;
      }
      assert Ran(was) && Backed();
      hide *;
      OneStep(cfg, was, Now());
      Advance(was);
    }

    /** The unit as Load first sees it. */
    ghost method SeeUnit(mode: string, slot: string)
      requires Valid() && op == LoadReading(mode, slot) && slot in cfg.slots
      modifies this`op, this`trace
      ensures Valid() && Grows(old(trace), trace)
      ensures op == match units[slot] {
                case Active => LoadStopping(mode, slot)
                case Deactivating(_) => LoadAwaiting(mode, slot)
                case seen => Placing(mode, slot, seen, Writing)
              }
    {
      hide CatalogConfig, IsRun, Step, Manager.Holds, ListsSlots;
      ghost var was := Now();
      op := match units[slot] {
        case Active => LoadStopping(mode, slot)
        case Deactivating(_) => LoadAwaiting(mode, slot)
        case seen => Placing(mode, slot, seen, Writing)
      };
      assert LoadClears(cfg, was, Now());
      assert Ran(was) && Backed();
      hide *;
      OneStep(cfg, was, Now());
      Advance(was);
    }

    ghost method LoadAwaited(mode: string, slot: string, gone: bool)
      requires Valid() && op == LoadAwaiting(mode, slot) && slot in cfg.slots && (gone ==> units[slot] == Gone)
      modifies this`op, this`trace
      ensures Valid() && Grows(old(trace), trace) && op == if gone then Placing(mode, slot, Gone, Writing) else Idle
    {
      hide CatalogConfig, IsRun, Step, Manager.Holds, ListsSlots;
      ghost var was := Now();
      op := if gone then Placing(mode, slot, Gone, Writing) else Idle;
      assert LoadClears(cfg, was, Now());
      assert Ran(was) && Backed();
      hide *;
      OneStep(cfg, was, Now());
      Advance(was);
    }

    /** Stops and awaits an active unit, awaits a deactivating one, and takes any other as no occupant. */
    method ClearSlot(mode: string, slot: string, sc: Script) returns (ok: bool)
      requires Valid() && op == LoadReading(mode, slot) && slot in cfg.slots
      modifies this, table, state
      ensures Valid() && Grows(old(trace), trace)
      ensures !ok ==> op == Idle
      ensures MakesWay(old(units), slot, sc) ==> ok
      ensures ok ==> op.Placing? && op.mode == mode && op.slot == slot && op.pc == Writing
      ensures Quiet(sc) ==> modes == old(modes) && state.text == old(state.text) && SameBut(old(units), units, slot)
    {
      hide *;
      GrowsTransitive();
      var seen := units[slot];
      SameButItself(units, slot);
      MakesWayMeans(units, slot, sc);
      ghost var read;
      SeeUnit(mode, slot);
      match seen {
        case Active =>
          Disturb(sc.before(1));
          StopForLoad(mode, slot, sc.downAtOnce);
          ok, read := WaitUnitGone(slot, 15, sc.poll);
          if !ok {
            ok, read := WaitUnitGone(slot, DEACTIVATING_WAIT - 15, sc.poll);
          }
        case Deactivating(_) =>
          ok, read := WaitUnitGone(slot, DEACTIVATING_WAIT, sc.poll);
        case _ =>
          return true;
      }
      LoadAwaited(mode, slot, ok);
    }

    method StopForLoad(mode: string, slot: string, downAtOnce: bool)
      requires Valid() && op == LoadStopping(mode, slot) && slot in cfg.slots
      modifies this`units, this`op, this`trace
      ensures Valid() && Grows(old(trace), trace) && op == LoadAwaiting(mode, slot)
      ensures SameBut(old(units), units, slot) && slot in units && (downAtOnce ==> units[slot] == Gone)
    {
      hide CatalogConfig, IsRun, Step, Manager.Holds, ListsSlots;
      ghost var was := Now();
      units := units[slot := AfterStop(slot, downAtOnce)];
      op := LoadAwaiting(mode, slot);
      assert LoadClears(cfg, was, Now());
      assert Ran(was) && Backed();
      hide *;
      OneStep(cfg, was, Now());
      Advance(was);
    }

    // ---- Write, start, wait, commit: the tail of Load and SwitchMode ----

    method Place(mode: string, slot: string, sc: Script) returns (ok: bool)
      requires Valid() && slot in cfg.slots && mode in cfg.modes && cfg.modes[mode].services != []
      requires op.Placing? && op.mode == mode && op.slot == slot && op.pc == Writing
      modifies this, table, state
      ensures Valid() && op == Idle && Grows(old(trace), trace)
      ensures ok <==> Succeeds(sc)
      ensures ok ==> slot in modes && modes[slot] == mode
      ensures Quiet(sc) && ok ==> modes == old(modes)[slot := mode] && units == old(units)[slot := UnitUp(sc)] &&
                                  state.text == old(state.text)
    {
      SucceedsMeans(sc);
      hide *;
      GrowsTransitive();
      Disturb(sc.before(2));
      var written := WriteServiceFiles(mode, slot, sc);
      if !written {
        return false;
      }
      Disturb(sc.before(3));
      var started := StartUnit(slot, sc);
      if !started {
        return false;
      }
      ok := AwaitService(mode, slot, sc);
    }

    /** Waits for a started service; one that does not come up is stopped. */
    method AwaitService(mode: string, slot: string, sc: Script) returns (ok: bool)
      requires Valid() && slot in cfg.slots
      requires op.Placing? && op.mode == mode && op.slot == slot && op.pc == Running
      modifies this, table, state
      ensures Valid() && op == Idle && Grows(old(trace), trace)
      ensures ok <==> Manager.ComesUp(sc.readings, sc.health, sc.port, sc.startup)
      ensures ok ==> slot in modes && modes[slot] == mode
      ensures Quiet(sc) && ok ==> modes == old(modes)[slot := mode] && units == old(units) &&
                                  state.text == old(state.text)
    {
      hide *;
      GrowsTransitive();
      Disturb(sc.before(4));
      ok := Manager.WaitServiceRunning(sc.readings, sc.health, sc.port, sc.startup);
      if !ok {
        Abandon(slot);
        Disturb(sc.before(5));
        StopAbandoned(slot, sc.downAtOnce);
      } else {
        Commit(mode, slot);
      }
    }

    method WriteServiceFiles(mode: string, slot: string, sc: Script) returns (ok: bool)
      requires Valid() && slot in cfg.slots && mode in cfg.modes && cfg.modes[mode].services != []
      requires op.Placing? && op.mode == mode && op.slot == slot && op.pc == Writing
      modifies this`envs, this`op, this`trace
      ensures Valid() && Grows(old(trace), trace)
      ensures ok == sc.writes && op == if ok then old(op).(pc := Starting) else Idle
    {
      hide CatalogConfig, IsRun, Step, Manager.Holds, ListsSlots;
      ghost var was := Now();
      ok := sc.writes;
      var svc := cfg.modes[mode].services[0];
      envs := envs[slot := if ok then EnvFile(svc.alias, sc.modelPath) else sc.written];
      op := if ok then op.(pc := Starting) else Idle;
      assert svc in cfg.modes[mode].services;
      assert WriteStep(cfg, was, Now());
      assert Ran(was) && Backed();
      hide *;
      OneStep(cfg, was, Now());
      Advance(was);
    }

    method StartUnit(slot: string, sc: Script) returns (ok: bool)
      requires Valid() && slot in cfg.slots && op.Placing? && op.slot == slot && op.pc == Starting
      modifies this`units, this`op, this`trace
      ensures Valid() && Grows(old(trace), trace)
      ensures ok == sc.starts && op == if ok then old(op).(pc := Running) else Idle
      ensures ok ==> units == old(units)[slot := UnitUp(sc)]
    {
      hide CatalogConfig, IsRun, Step, Manager.Holds, ListsSlots;
      ghost var was := Now();
      ok := sc.starts;
      units := units[slot := if ok then UnitUp(sc) else Gone];
      op := if ok then op.(pc := Running) else Idle;
      assert Started(units[slot], ok);
      assert StartStep(was, Now());
      assert Ran(was) && Backed();
      hide *;
      OneStep(cfg, was, Now());
      Advance(was);
    }

    ghost method Abandon(slot: string)
      requires Valid() && slot in cfg.slots && op.Placing? && op.slot == slot && op.pc == Running
      modifies this`op, this`trace
      ensures Valid() && Grows(old(trace), trace) && op == old(op).(pc := Abandoning)
    {
      hide CatalogConfig, IsRun, Step, Manager.Holds, ListsSlots;
      ghost var was := Now();
      op := op.(pc := Abandoning);
      assert SettleStep(was, Now());
      assert Ran(was) && Backed();
      hide *;
      OneStep(cfg, was, Now());
      Advance(was);
    }

    method StopAbandoned(slot: string, downAtOnce: bool)
      requires Valid() && slot in cfg.slots && op.Placing? && op.slot == slot && op.pc == Abandoning
      modifies this`units, this`op, this`trace
      ensures Valid() && Grows(old(trace), trace) && op == Idle
    {
      hide CatalogConfig, IsRun, Step, Manager.Holds, ListsSlots;
      ghost var was := Now();
      units := units[slot := AfterStop(slot, downAtOnce)];
      op := Idle;
      assert AbandonStep(was, Now());
      assert Ran(was) && Backed();
      hide *;
      OneStep(cfg, was, Now());
      Advance(was);
    }

    /** setSlotMode at the end of a placement. */
    method Commit(mode: string, slot: string)
      requires Valid() && slot in cfg.slots
      requires op.Placing? && op.mode == mode && op.slot == slot && op.pc == Running
      modifies this`modes, this`op, this`trace, table
      ensures Valid() && Grows(old(trace), trace) && op == Idle && modes == old(modes)[slot := mode]
    {
      hide CatalogConfig, IsRun, Step, Manager.Holds, ListsSlots;
      ghost var was := Now();
      HoldsSet(table.slots, modes, slot, mode);
      table.SetSlotMode(slot, mode);
      modes := modes[slot := mode];
      op := Idle;
      assert SettleStep(was, Now());
      assert Ran(was) && Backed();
      hide *;
      OneStep(cfg, was, Now());
      Advance(was);
    }

    // ---- Unload ----

    /** Frees one slot. The mode is cleared only after the unit was seen gone. */
    method Unload(slot: string, sc: Script) returns (ok: bool)
      requires Valid() && op == Idle
      modifies this, table, state
      ensures Valid() && op == Idle && Grows(old(trace), trace) && ModesDistinct(modes)
      ensures ok ==> slot in modes && modes[slot] == "" && slot in units && units[slot] == Gone
      ensures slot !in cfg.slots ==> !ok && trace == old(trace)
      ensures slot in cfg.slots && sc.downAtOnce ==> ok
    {
      hide *;
      GrowsTransitive();
      Distinct();
      if slot !in cfg.slots {
        return false;
      }
      BeginUnload(slot);
      Disturb(sc.before(0));
      StopForUnload(slot, sc.downAtOnce);
      ghost var read;
      ok, read := WaitUnitGone(slot, DEACTIVATING_WAIT, sc.poll);
      UnloadAwaited(slot, ok);
      if ok {
        Disturb(sc.before(1));
        ClearUnloaded(slot);
      }
      Distinct();
    }

    ghost method BeginUnload(slot: string)
      requires Valid() && op == Idle && slot in cfg.slots
      modifies this`op, this`trace
      ensures Valid() && Grows(old(trace), trace) && op == UnloadStopping(slot)
    {
      hide CatalogConfig, IsRun, Step, Manager.Holds, ListsSlots;
      ghost var was := Now();
      op := UnloadStopping(slot);
      assert UnloadStep(cfg, was, Now());
      assert Ran(was) && Backed();
      hide *;
      OneStep(cfg, was, Now());
      Advance(was);
    }

    ghost method UnloadAwaited(slot: string, gone: bool)
      requires Valid() && op == UnloadAwaiting(slot) && slot in cfg.slots && (gone ==> units[slot] == Gone)
      modifies this`op, this`trace
      ensures Valid() && Grows(old(trace), trace) && op == if gone then UnloadClearing(slot) else Idle
    {
      hide CatalogConfig, IsRun, Step, Manager.Holds, ListsSlots;
      ghost var was := Now();
      op := if gone then UnloadClearing(slot) else Idle;
      assert UnloadStep(cfg, was, Now());
      assert Ran(was) && Backed();
      hide *;
      OneStep(cfg, was, Now());
      Advance(was);
    }

    method StopForUnload(slot: string, downAtOnce: bool)
      requires Valid() && op == UnloadStopping(slot) && slot in cfg.slots
      modifies this`units, this`op, this`trace
      ensures Valid() && Grows(old(trace), trace) && op == UnloadAwaiting(slot)
      ensures downAtOnce ==> units[slot] == Gone
    {
      hide CatalogConfig, IsRun, Step, Manager.Holds, ListsSlots;
      ghost var was := Now();
      units := units[slot := AfterStop(slot, downAtOnce)];
      op := UnloadAwaiting(slot);
      assert UnloadStep(cfg, was, Now());
      assert Ran(was) && Backed();
      hide *;
      OneStep(cfg, was, Now());
      Advance(was);
    }

    method ClearUnloaded(slot: string)
      requires Valid() && op == UnloadClearing(slot) && slot in cfg.slots
      modifies this`modes, this`op, this`trace, table
      ensures Valid() && Grows(old(trace), trace) && op == Idle
      ensures slot in modes && modes[slot] == "" && slot in units && units[slot] == Gone
    {
      hide CatalogConfig, IsRun, Step, Manager.Holds, ListsSlots, Inv;
      ghost var was := Now();
      InvAtEnd(cfg, trace);
      GoneAtClear(cfg, was, slot);
      HoldsSet(table.slots, modes, slot, "");
      table.SetSlotMode(slot, "");
      modes := modes[slot := ""];
      op := Idle;
      assert UnloadStep(cfg, was, Now());
      assert Ran(was) && Backed();
      hide *;
      OneStep(cfg, was, Now());
      Advance(was);
    }

    // ---- SwitchMode and Restart ----

    /** SwitchMode's test for a mode that is current and fully active. */
    method AlreadyIn(mode: string, sc: Script) returns (already: bool)
      requires Valid() && op == Idle && mode in cfg.modes
      modifies this`modes, this`units, this`op, this`trace, table, state
      ensures Valid() && op == Idle && Grows(old(trace), trace)
      ensures already ==> RecordedMode.Fits(cfg, units, mode) && StayGone(old(units), units) &&
                          KeepsTracked(old(modes), modes, units)
      ensures Quiet(sc) ==> modes == old(modes) && units == old(units)
      ensures Quiet(sc) && already ==>
                RecordedMode.MayShortcut(cfg, units, RecordedMode.RecordedIn(old(state.text)), mode)
      ensures Quiet(sc) && TrustedHere(cfg, old(units), old(state.text), mode) ==> already
    {
      hide *;
      GrowsTransitive();
      StayGoneTransitive();
      Disturb(sc.before(6));
      UnitsOfSlots();
      LoadableMeans(mode, "");
      TrustedMeans(cfg, old(units), old(state.text), mode);
      ghost var asked, recorded, tracked := units, RecordedMode.RecordedIn(state.text), modes;
      ghost var saves;
      var current;
      current, saves := RecordedMode.CurrentMode(cfg, units, state, sc.stamp(0), sc.saveWorks(0));
      RecordedMode.RecordedAnswers(cfg, asked, recorded, current, saves);
      Disturb(sc.before(7));
      KeepsTrackedMoved(old(modes), tracked, asked, units);
      KeepsTrackedOn(old(modes), tracked, modes, units);
      if current != mode {
        return false;
      }
      UnitsOfSlots();
      already := RecordedMode.FullyActive(cfg, units, mode);
      RecordedMode.AnswerMayShortcut(cfg, asked, recorded, mode, saves);
    }

    /** Stops every slot, starts the mode's service in its own and records the mode. */
    method Activate(mode: string, stops: string -> Script, sc: Script) returns (ok: bool)
      requires Valid() && op == Idle && mode in cfg.modes
      modifies this, table, state
      ensures Valid() && op == Idle && Grows(old(trace), trace)
      ensures ok && TargetSlot(cfg, mode).Some? ==> TargetTracks(cfg, modes, mode)
      ensures (forall s | s in cfg.slots :: stops(s).downAtOnce) ==>
                (ok <==> TargetSlot(cfg, mode).None? || Succeeds(sc))
      ensures ok && sc.saveWorks(1) ==> state.text == RecordedMode.SavedLine(mode, sc.stamp(1))
      ensures Quiet(sc) && ok && TargetSlot(cfg, mode).Some? ==>
                OnlyOne(cfg, modes, units, mode, TargetSlot(cfg, mode).value, sc)
    {
      hide *;
      GrowsTransitive();
      ok := StopAllOrFail(Some(mode), stops);
      if ok {
        ClearAllSlots(Some(mode));
        ok := StartMode(mode, sc);
      }
      if ok {
        state.Save(mode, sc.stamp(1), sc.saveWorks(1));
      }
    }

    /** The start of a mode in its slot once everything is down and cleared. */
    method StartMode(mode: string, sc: Script) returns (ok: bool)
      requires Valid() && mode in cfg.modes && op == AfterClear(cfg, Some(mode))
      requires modes == (map s | s in cfg.slots :: "") && forall s | s in cfg.slots :: units[s] == Gone
      modifies this, table, state
      ensures Valid() && op == Idle && Grows(old(trace), trace)
      ensures ok <==> TargetSlot(cfg, mode).None? || Succeeds(sc)
      ensures ok && TargetSlot(cfg, mode).Some? ==> TargetTracks(cfg, modes, mode)
      ensures Quiet(sc) && ok && TargetSlot(cfg, mode).Some? ==>
                OnlyOne(cfg, modes, units, mode, TargetSlot(cfg, mode).value, sc)
    {
      AfterClearMeans(cfg, mode);
      hide *;
      GrowsTransitive();
      var target := TargetSlot(cfg, mode);
      if target.None? {
        return true;
      }
      ghost var cleared, down := modes, units;
      UnitsOfSlots();
      ok := Place(mode, target.value, sc);
      if ok {
        TargetTracked(cfg, modes, mode);
        OnlyOnePlaced(cfg, cleared, down, mode, target.value, sc);
      }
    }

    /** Switches to a mode, with a shortcut for one that is taken to be current already. After a success the
        mode's slot tracks it exactly when the shortcut was not taken or the slot already tracked it. */
    method SwitchMode(mode: string, stops: string -> Script, sc: Script) returns (ok: bool, ghost shortcut: bool)
      requires Valid() && op == Idle
      modifies this, table, state
      ensures Valid() && op == Idle && Grows(old(trace), trace) && ModesDistinct(modes)
      ensures mode !in cfg.modes ==> !ok && !shortcut && trace == old(trace) && state.text == old(state.text)
      ensures ok && TargetSlot(cfg, mode).Some? ==>
                (TargetTracks(cfg, modes, mode) <==> !shortcut || TargetTracks(cfg, old(modes), mode))
      ensures shortcut ==> ok && RecordedMode.Fits(cfg, units, mode) && StayGone(old(units), units)
      ensures Quiet(sc) && shortcut ==>
                modes == old(modes) && units == old(units) &&
                RecordedMode.MayShortcut(cfg, units, RecordedMode.RecordedIn(old(state.text)), mode)
      ensures Quiet(sc) && TrustedHere(cfg, old(units), old(state.text), mode) ==> shortcut
      ensures mode in cfg.modes && !shortcut && (forall s | s in cfg.slots :: stops(s).downAtOnce) ==>
                (ok <==> TargetSlot(cfg, mode).None? || Succeeds(sc))
      ensures ok && !shortcut && sc.saveWorks(1) ==> state.text == RecordedMode.SavedLine(mode, sc.stamp(1))
      ensures Quiet(sc) && ok && !shortcut && TargetSlot(cfg, mode).Some? ==>
                OnlyOne(cfg, modes, units, mode, TargetSlot(cfg, mode).value, sc)
    {
      hide *;
      GrowsTransitive();
      Distinct();
      FitsOnlyKnown(cfg, units, mode);
      TrustedMeans(cfg, units, state.text, mode);
      if mode !in cfg.modes {
        return false, false;
      }
      var already := AlreadyIn(mode, sc);
      shortcut := already;
      if already {
        ok := true;
        TargetKept(mode, old(modes));
      } else {
        ok := Activate(mode, stops, sc);
      }
      Distinct();
    }

    lemma TargetKept(mode: string, before: map<string, string>)
      requires Valid() && RecordedMode.Fits(cfg, units, mode) && KeepsTracked(before, modes, units)
      ensures TargetSlot(cfg, mode).Some? ==> (TargetTracks(cfg, modes, mode) <==> TargetTracks(cfg, before, mode))
    {
      hide IsRun, ListsSlots, Manager.Holds, RecordedMode.Fits;
      if TargetSlot(cfg, mode).Some? {
        RecordedMode.FitsTarget(cfg, units, mode, TargetSlot(cfg, mode).value);
      }
    }

    // ---- The operations of other callers ----

    method Perform(c: Call)
      requires Valid() && op == Idle
      modifies this, table, state
      ensures Valid() && op == Idle && Grows(old(trace), trace)
    {
      hide *;
      ghost var verdict;
      var ok;
      match c {
        case CallLoad(mode, slot, sc) => ok, verdict := Load(mode, slot, sc);
        case CallUnload(slot, sc) => ok := Unload(slot, sc);
        case CallUnloadAll(stops) => ok := UnloadAll(stops);
        case CallSwitch(mode, stops, sc) => ok, verdict := SwitchMode(mode, stops, sc);
      }
    }

    method PerformAll(calls: seq<Call>)
      requires Valid() && op == Idle
      modifies this, table, state
      ensures Valid() && op == Idle && Grows(old(trace), trace)
      ensures calls == [] ==> units == old(units)
    {
      hide *;
      GrowsTransitive();
      for i := 0 to |calls|
        invariant Valid() && op == Idle && Grows(old(trace), trace)
        invariant calls == [] ==> units == old(units)
      {
        Perform(calls[i]);
      }
    }

    /** Restart switches to the mode it takes as current, after a stop and a clear of its own. Other callers
        may come in before it has the lock and between its two halves. */
    method Restart(r: RestartScript) returns (ok: bool, ghost current: string, ghost shortcut: bool)
      requires Valid() && op == Idle
      modifies this, table, state
      ensures Valid() && op == Idle && Grows(old(trace), trace) && ModesDistinct(modes)
      ensures Answers(cfg, old(units), RecordedMode.RecordedIn(old(state.text)), current)
      ensures current == "unknown" ==> !ok && !shortcut && trace == old(trace)
      ensures current == "unloaded" ==> ok && !shortcut && trace == old(trace)
      ensures ok && !shortcut && current != "unloaded" && TargetSlot(cfg, current).Some? ==>
                TargetTracks(cfg, modes, current)
      ensures shortcut && r.between == [] ==> TargetSlot(cfg, current).None?
      ensures current != "unknown" && current != "unloaded" && !shortcut && AllDownAtOnce(cfg, r) ==>
                (ok <==> current in cfg.modes && (TargetSlot(cfg, current).None? || Succeeds(r.sc)))
    {
      hide *;
      GrowsTransitive();
      Distinct();
      UnitsOfSlots();
      shortcut := false;
      ghost var saves;
      var answer;
      answer, saves := RecordedMode.CurrentMode(cfg, units, state, r.stamp, r.saveWorks);
      current := answer;
      Answered(cfg, units, RecordedMode.RecordedIn(old(state.text)), answer, saves);
      if answer == "unknown" {
        return false, current, false;
      }
      if answer == "unloaded" {
        return true, current, false;
      }
      PerformAll(r.before);
      ok, shortcut := StopAndSwitch(answer, r);
      Distinct();
    }

    /** Restart's two halves. */
    method StopAndSwitch(mode: string, r: RestartScript) returns (ok: bool, ghost shortcut: bool)
      requires Valid() && op == Idle
      modifies this, table, state
      ensures Valid() && op == Idle && Grows(old(trace), trace)
      ensures ok && !shortcut && TargetSlot(cfg, mode).Some? ==> TargetTracks(cfg, modes, mode)
      ensures shortcut && r.between == [] ==> TargetSlot(cfg, mode).None?
      ensures !shortcut && AllDownAtOnce(cfg, r) ==>
                (ok <==> mode in cfg.modes && (TargetSlot(cfg, mode).None? || Succeeds(r.sc)))
    {
      hide *;
      GrowsTransitive();
      AllDownAtOnceMeans(cfg, r);
      DownAtOnceMeans(cfg, r.stops);
      ok := StopAllOrFail(None, r.stops);
      shortcut := false;
      if ok {
        ClearAllSlots(None);
        ok, shortcut := SwitchAgain(mode, r);
      }
    }

    method SwitchAgain(mode: string, r: RestartScript) returns (ok: bool, ghost shortcut: bool)
      requires Valid() && op == Idle && forall s | s in cfg.slots :: units[s] == Gone
      modifies this, table, state
      ensures Valid() && op == Idle && Grows(old(trace), trace)
      ensures ok && !shortcut && TargetSlot(cfg, mode).Some? ==> TargetTracks(cfg, modes, mode)
      ensures shortcut && r.between == [] ==> TargetSlot(cfg, mode).None?
      ensures !shortcut && DownAtOnce(cfg, r.again) ==>
                (ok <==> mode in cfg.modes && (TargetSlot(cfg, mode).None? || Succeeds(r.sc)))
    {
      hide *;
      GrowsTransitive();
      DownAtOnceMeans(cfg, r.again);
      ghost var down := units;
      PerformAll(r.between);
      ok, shortcut := SwitchMode(mode, r.again, r.sc);
      if shortcut && r.between == [] {
        NoneUp(mode, down);
      }
    }

    /** A mode with a slot does not fit while every unit stays gone. */
    lemma NoneUp(mode: string, before: map<string, Unit>)
      requires Valid() && RecordedMode.Fits(cfg, units, mode) && StayGone(before, units)
      requires forall s | s in cfg.slots :: s in before && before[s] == Gone
      ensures TargetSlot(cfg, mode).None?
    {
      hide IsRun, ListsSlots, Manager.Holds, RecordedMode.Fits;
      if TargetSlot(cfg, mode).Some? {
        RecordedMode.FitsTarget(cfg, units, mode, TargetSlot(cfg, mode).value);
        assert false;
      }
    }

    ghost method BeginSwitch(target: Option<string>)
      requires Valid() && op == Idle && (target.Some? ==> target.value in cfg.modes)
      modifies this`op, this`trace
      ensures Valid() && Grows(old(trace), trace) && op == SwitchStopping(target, {})
    {
      hide CatalogConfig, IsRun, Step, Manager.Holds, ListsSlots;
      ghost var was := Now();
      op := SwitchStopping(target, {});
      assert SwitchStep(cfg, was, Now());
      assert Ran(was) && Backed();
      hide *;
      OneStep(cfg, was, Now());
      Advance(was);
    }

    ghost method AllStopped(target: Option<string>)
      requires Valid() && op == SwitchStopping(target, cfg.slots.Keys)
      modifies this`op, this`trace
      ensures Valid() && Grows(old(trace), trace) && op == SwitchAwaiting(target, {}, true)
    {
      hide CatalogConfig, IsRun, Step, Manager.Holds, ListsSlots;
      ghost var was := Now();
      op := SwitchAwaiting(target, {}, true);
      assert SwitchStep(cfg, was, Now());
      assert Ran(was) && Backed();
      hide *;
      OneStep(cfg, was, Now());
      Advance(was);
    }

    ghost method AllPolled(target: Option<string>, ok: bool)
      requires Valid() && op == SwitchAwaiting(target, cfg.slots.Keys, ok)
      modifies this`op, this`trace
      ensures Valid() && Grows(old(trace), trace) && op == if ok then SwitchClearing(target) else Idle
    {
      hide CatalogConfig, IsRun, Step, Manager.Holds, ListsSlots;
      ghost var was := Now();
      op := if ok then SwitchClearing(target) else Idle;
      assert SwitchStep(cfg, was, Now());
      assert Ran(was) && Backed();
      hide *;
      OneStep(cfg, was, Now());
      Advance(was);
    }

    /** stopAll: orders every unit to stop, then awaits each; true when all were seen gone. */
    method StopAll(target: Option<string>, stops: string -> Script) returns (ok: bool)
      requires Valid() && op == Idle && (target.Some? ==> target.value in cfg.modes)
      modifies this, table, state
      ensures Valid() && Grows(old(trace), trace)
      ensures op == SwitchAwaiting(target, cfg.slots.Keys, ok)
      ensures ok ==> forall s | s in cfg.slots :: units[s] == Gone
      ensures (forall s | s in cfg.slots :: stops(s).downAtOnce) ==> ok
    {
      hide *;
      GrowsTransitive();
      BeginSwitch(target);
      StopEach(target, stops);
      AllDown(units, cfg.slots.Keys, stops);
      AllStopped(target);
      ok := AwaitAll(target, stops);
      if ok {
        GoneAtSwitch(target);
      }
    }

    /** The stop that SwitchMode and Restart go on from only when it succeeds. */
    method StopAllOrFail(target: Option<string>, stops: string -> Script) returns (ok: bool)
      requires Valid() && op == Idle && (target.Some? ==> target.value in cfg.modes)
      modifies this, table, state
      ensures Valid() && Grows(old(trace), trace)
      ensures op == if ok then SwitchClearing(target) else Idle
      ensures ok ==> forall s | s in cfg.slots :: units[s] == Gone
      ensures (forall s | s in cfg.slots :: stops(s).downAtOnce) ==> ok
    {
      hide *;
      GrowsTransitive();
      ok := StopAll(target, stops);
      AllPolled(target, ok);
    }

    /** unloadAll clears every slot whatever stopAll returns. */
    method UnloadAll(stops: string -> Script) returns (down: bool)
      requires Valid() && op == Idle
      modifies this, table, state
      ensures Valid() && op == Idle && Grows(old(trace), trace)
      ensures modes == map s | s in cfg.slots :: ""
      ensures down ==> forall s | s in cfg.slots :: units[s] == Gone
      ensures (forall s | s in cfg.slots :: stops(s).downAtOnce) ==> down
    {
      hide *;
      GrowsTransitive();
      down := StopAll(None, stops);
      if down {
        AllPolled(None, true);
        ClearAllSlots(None);
      } else {
        ClearAnyway();
      }
    }

    method ClearAnyway()
      requires Valid() && op == SwitchAwaiting(None, cfg.slots.Keys, false)
      modifies this`modes, this`op, this`trace, table
      ensures Valid() && Grows(old(trace), trace) && op == Idle && modes == map s | s in cfg.slots :: ""
    {
      hide CatalogConfig, IsRun, Step, Manager.Holds, ListsSlots;
      ghost var was := Now();
      HoldsNone(table.slots, modes);
      table.ClearAllSlots();
      modes := map s | s in cfg.slots :: "";
      op := Idle;
      assert UnloadAllStep(cfg, was, Now());
      assert Ran(was) && Backed();
      hide *;
      OneStep(cfg, was, Now());
      Advance(was);
    }

    lemma GoneAtSwitch(target: Option<string>)
      requires Valid() && op == SwitchAwaiting(target, cfg.slots.Keys, true)
      ensures forall s | s in cfg.slots :: units[s] == Gone
    {
      hide Fresh, ModesDistinct, AliveTracked, IsRun, CatalogConfig;
      InvAtEnd(cfg, trace);
    }

    method StopEach(target: Option<string>, stops: string -> Script)
      requires Valid() && op == SwitchStopping(target, {})
      modifies this, table, state
      ensures Valid() && Grows(old(trace), trace) && op == SwitchStopping(target, cfg.slots.Keys)
      ensures DownIfAtOnce(units, cfg.slots.Keys, stops)
    {
      NoneDown(units, stops);
      hide *;
      GrowsTransitive();
      var left := cfg.slots.Keys;
      ghost var done: set<string> := {};
      while left != {}
        invariant Valid() && Grows(old(trace), trace) && op == SwitchStopping(target, done)
        invariant forall s :: s in left <==> s in cfg.slots && s !in done
        invariant forall s :: s in done ==> s in cfg.slots
        invariant DownIfAtOnce(units, done, stops)
        decreases |left|
      {
        ghost var some := Member(left);
        var s :| s in left;
        ghost var was := units;
        Disturb(stops(s).before(0));
        StillDown(was, units, done, stops);
        was := units;
        StopOne(target, done, s, stops(s).downAtOnce);
        OneMoreDown(was, units, done, stops, s);
        done := done + {s};
        left := left - {s};
      }
      assert done == cfg.slots.Keys;
    }

    method StopOne(target: Option<string>, ghost done: set<string>, s: string, downAtOnce: bool)
      requires Valid() && op == SwitchStopping(target, done) && s in cfg.slots && s !in done
      modifies this`units, this`op, this`trace
      ensures Valid() && Grows(old(trace), trace) && op == SwitchStopping(target, done + {s})
      ensures units == old(units)[s := units[s]] && (downAtOnce ==> units[s] == Gone)
    {
      hide CatalogConfig, IsRun, Step, Manager.Holds, ListsSlots;
      ghost var was := Now();
      var v := AfterStop(s, downAtOnce);
      units := units[s := v];
      op := SwitchStopping(target, done + {s});
      assert done != cfg.slots.Keys;
      assert SwitchStep(cfg, was, Now());
      assert Ran(was) && Backed();
      hide *;
      OneStep(cfg, was, Now());
      Advance(was);
    }

    method AwaitAll(target: Option<string>, stops: string -> Script) returns (ok: bool)
      requires Valid() && op == SwitchAwaiting(target, {}, true)
      modifies this, table, state
      ensures Valid() && Grows(old(trace), trace) && op == SwitchAwaiting(target, cfg.slots.Keys, ok)
      ensures (forall s | s in cfg.slots :: old(units)[s] == Gone) ==> ok
    {
      hide *;
      GrowsTransitive();
      StayGoneTransitive();
      ok := true;
      var left := cfg.slots.Keys;
      ghost var polled: set<string> := {};
      while left != {}
        invariant Valid() && Grows(old(trace), trace) && op == SwitchAwaiting(target, polled, ok)
        invariant forall s :: s in left <==> s in cfg.slots && s !in polled
        invariant forall s :: s in polled ==> s in cfg.slots
        invariant StayGone(old(units), units)
        invariant (forall s | s in cfg.slots :: old(units)[s] == Gone) ==> ok
        decreases |left|
      {
        ghost var some := Member(left);
        var s :| s in left;
        if old(units)[s] == Gone {
          GoneAfter(old(units), units, s);
        }
        var gone, _ := WaitUnitGone(s, 5, stops(s).poll);
        Polled(target, polled, ok, s, gone);
        polled := polled + {s};
        ok := ok && gone;
        left := left - {s};
      }
      assert polled == cfg.slots.Keys;
    }

    ghost method Polled(target: Option<string>, polled: set<string>, ok: bool, s: string, gone: bool)
      requires Valid() && op == SwitchAwaiting(target, polled, ok) && s in cfg.slots && s !in polled
      requires gone ==> units[s] == Gone
      modifies this`op, this`trace
      ensures Valid() && Grows(old(trace), trace) && op == SwitchAwaiting(target, polled + {s}, ok && gone)
    {
      hide CatalogConfig, IsRun, Step, Manager.Holds, ListsSlots;
      ghost var was := Now();
      op := SwitchAwaiting(target, polled + {s}, ok && gone);
      assert polled != cfg.slots.Keys;
      assert Now() == was.(op := SwitchAwaiting(target, polled + {s}, ok && gone));
      assert PollResult(was.units[s], gone);
      assert SwitchStep(cfg, was, Now());
      assert Ran(was) && Backed();
      hide *;
      OneStep(cfg, was, Now());
      Advance(was);
    }

    method ClearAllSlots(target: Option<string>)
      requires Valid() && op == SwitchClearing(target)
      modifies this`modes, this`op, this`trace, table
      ensures Valid() && Grows(old(trace), trace) && modes == map s | s in cfg.slots :: ""
      ensures op == AfterClear(cfg, target)
    {
      hide CatalogConfig, IsRun, Step, Manager.Holds, ListsSlots;
      ghost var was := Now();
      HoldsNone(table.slots, modes);
      table.ClearAllSlots();
      modes := map s | s in cfg.slots :: "";
      op := match target {
        case Some(m) =>
          (match TargetSlot(cfg, m)
           case Some(s) => Placing(m, s, Gone, Writing)
           case None => Idle)
        case None => Idle
      };
      assert SwitchStep(cfg, was, Now());
      assert Ran(was) && Backed();
      hide *;
      OneStep(cfg, was, Now());
      Advance(was);
    }
  }

  lemma FreshIsRun(cfg: Config, w: World)
    requires Fresh(cfg, w)
    ensures IsRun(cfg, [w]) && Shaped(cfg, w)
  {
  }

  lemma RunExtends(cfg: Config, ws: seq<World>, w: World)
    requires IsRun(cfg, ws) && Step(cfg, ws[|ws| - 1], w)
    ensures IsRun(cfg, ws + [w]) && Shaped(cfg, w)
  {
    hide Fresh;
    assert forall i | 0 <= i < |ws| - 1 :: Step(cfg, ws[i], ws[i + 1]);
  }

  lemma GoneAtClear(cfg: Config, w: World, slot: string)
    requires Inv(cfg, w) && w.op == UnloadClearing(slot)
    ensures slot in w.units && w.units[slot] == Gone
  {
    hide Fresh, ModesDistinct, AliveTracked;
  }

  lemma InvAtEnd(cfg: Config, ws: seq<World>)
    requires CatalogConfig(cfg) && IsRun(cfg, ws)
    ensures ws != [] && Inv(cfg, ws[|ws| - 1])
  {
    hide Inv, CatalogConfig, Step, Fresh;
    RunKeeps(cfg, ws, |ws| - 1);
  }
}
