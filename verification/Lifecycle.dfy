/** The slot lifecycle as a state machine (go/internal/engine/lifecycle.go, manager.go): one operation
    at a time holds opMu, and between any two of its steps systemd moves units and SlotStates
    reconciles. Every step reads or changes one thing, so every interleaving is a run. */
module Lifecycle {
  import opened Wrappers
  import opened SlotInference

  /** A slot's unit. A unit that goes down by itself may be restarted by systemd; one that was told
      to stop may not. */
  datatype Unit = Gone | Activating | Active | Deactivating(stopping: bool)

  /** Placing a service is the common tail of Load and SwitchMode. */
  datatype PlacePc = Writing | Starting | Running | Abandoning

  datatype Op =
    | Booting
    | Idle
    | LoadReading(mode: string, slot: string)
    | LoadStopping(mode: string, slot: string)
    | LoadAwaiting(mode: string, slot: string)
    | Placing(mode: string, slot: string, seen: Unit, pc: PlacePc)
    | UnloadStopping(slot: string)
    | UnloadAwaiting(slot: string)
    | UnloadClearing(slot: string)
    | SwitchStopping(target: Option<string>, done: set<string>)
    | SwitchAwaiting(target: Option<string>, polled: set<string>, ok: bool)
    | SwitchClearing(target: Option<string>)

  datatype World = World(
    modes: map<string, string>,    // tracked mode of each slot, "" when empty
    units: map<string, Unit>,      // the unit of each slot
    envs: map<string, EnvFile>,    // the environment file of each slot
    op: Op)

  ghost predicate Shaped(cfg: Config, w: World)
  {
    w.modes.Keys == cfg.slots.Keys && w.units.Keys == cfg.slots.Keys && w.envs.Keys == cfg.slots.Keys
  }

  /** The catalog builds modes of at most one service, and every slot names a unit of its own. */
  ghost predicate CatalogConfig(cfg: Config)
  {
    && AliasesUnique(cfg)
    && (forall name | name in cfg.modes :: |cfg.modes[name].services| <= 1)
    && (forall s | s in cfg.slots :: cfg.slots[s] != "")
    && forall s, t | s in cfg.slots && t in cfg.slots && cfg.slots[s] == cfg.slots[t] :: s == t
  }

  // ---- systemd ----

  /** What a unit may do by itself: it never comes up from being gone or from an ordered stop. */
  predicate Drifts(u: Unit, v: Unit)
  {
    match u
    case Gone => false
    case Activating => v != Deactivating(true)
    case Active => v != Deactivating(true)
    case Deactivating(stopping) => if stopping then v == Gone else v == Activating || v == Gone
  }

  predicate Stopped(u: Unit, v: Unit)
  {
    if u == Gone then v == Gone else v == Deactivating(true) || v == Gone
  }

  predicate Started(v: Unit, ok: bool)
  {
    if ok then v == Activating || v == Active else v == Gone
  }

  // ---- Reconciliation ----

  datatype Sight = SeenActive | SeenGone | SeenOther

  function Look(u: Unit): Sight
  {
    match u
    case Active => SeenActive
    case Gone => SeenGone
    case _ => SeenOther
  }

  /** What SlotStates does to one slot's mode. */
  ghost predicate Reconciles(cfg: Config, sight: Sight, env: EnvFile, mode: string, mode': string)
  {
    match sight
    case SeenActive => if mode == "" then MayInfer(cfg, env, mode') else mode' == mode
    case SeenGone => mode' == ""
    case SeenOther => mode' == mode
  }

  /** A unit that could not be read keeps its slot's mode; only the reconciliation at start-up is assumed
      to read every unit. */
  ghost predicate SlotReconciles(cfg: Config, w: World, w': World, s: string)
    requires Shaped(cfg, w) && Shaped(cfg, w') && s in cfg.slots
  {
    Reconciles(cfg, Look(w.units[s]), w.envs[s], w.modes[s], w'.modes[s]) ||
    (w.op != Booting && w'.modes[s] == w.modes[s])
  }

  ghost predicate ReconcileStep(cfg: Config, w: World, w': World)
    requires Shaped(cfg, w) && Shaped(cfg, w')
  {
    && w'.units == w.units && w'.envs == w.envs
    && w'.op == (if w.op == Booting then Idle else w.op)
    && forall s | s in cfg.slots :: SlotReconciles(cfg, w, w', s)
  }

  ghost predicate DriftStep(cfg: Config, w: World, w': World)
    requires Shaped(cfg, w) && Shaped(cfg, w')
  {
    w.op != Booting &&
    exists s, v | s in cfg.slots && Drifts(w.units[s], v) :: w' == w.(units := w.units[s := v])
  }

  // ---- Load ----

  /** The single-instance guard: no other slot tracks the mode. */
  predicate Free(modes: map<string, string>, mode: string, slot: string)
  {
    forall t | t in modes && t != slot :: modes[t] != mode
  }

  ghost predicate LoadBegins(cfg: Config, w: World, w': World)
    requires Shaped(cfg, w)
  {
    w.op == Idle && w'.op.LoadReading? &&
    var m, s := w'.op.mode, w'.op.slot;
    && s in cfg.slots && m in cfg.modes && cfg.modes[m].services != []
    && Free(w.modes, m, s) && w' == w.(op := w'.op)
  }

  /** The same-weights guard may refuse the load. Otherwise the old unit is stopped and awaited when
      active, awaited when deactivating, and in any other state taken as not occupying the slot. */
  ghost predicate LoadClears(cfg: Config, w: World, w': World)
    requires Shaped(cfg, w)
  {
    match w.op
    case LoadReading(m, s) =>
      s in w.units &&
      (w' == w.(op := Idle) ||
       w' == w.(op := match w.units[s] {
                  case Active => LoadStopping(m, s)
                  case Deactivating(_) => LoadAwaiting(m, s)
                  case seen => Placing(m, s, seen, Writing)
                }))
    case LoadStopping(m, s) =>
      s in w.units &&
      exists v | Stopped(w.units[s], v) :: w' == w.(units := w.units[s := v], op := LoadAwaiting(m, s))
    case LoadAwaiting(m, s) =>
      s in w.units &&
      (w' == w.(op := Idle) || (w.units[s] == Gone && w' == w.(op := Placing(m, s, Gone, Writing))))
    case _ => false
  }

  // ---- Placing: write the files, start, wait, commit ----

  /** The file that writeServiceFiles leaves for a mode. */
  ghost predicate Serves(cfg: Config, env: EnvFile, mode: string)
  {
    mode in cfg.modes && exists svc | svc in cfg.modes[mode].services :: env.alias == svc.alias
  }

  /** A failed write may leave anything in the file. */
  ghost predicate WriteStep(cfg: Config, w: World, w': World)
  {
    w.op.Placing? && w.op.pc == Writing && w.op.slot in w.envs && w.op.slot in w'.envs &&
    var env := w'.envs[w.op.slot];
    && w'.modes == w.modes && w'.units == w.units && w'.envs == w.envs[w.op.slot := env]
    && (w'.op == Idle || (Serves(cfg, env, w.op.mode) && w'.op == w.op.(pc := Starting)))
  }

  ghost predicate StartStep(w: World, w': World)
  {
    w.op.Placing? && w.op.pc == Starting && w.op.slot in w.units &&
    exists v, ok | Started(v, ok) ::
      w' == w.(units := w.units[w.op.slot := v], op := if ok then w.op.(pc := Running) else Idle)
  }

  /** waitServiceRunning: commit the mode, or give up. */
  ghost predicate SettleStep(w: World, w': World)
  {
    w.op.Placing? && w.op.pc == Running && w.op.slot in w.modes &&
    (w' == w.(modes := w.modes[w.op.slot := w.op.mode], op := Idle) || w' == w.(op := w.op.(pc := Abandoning)))
  }

  ghost predicate AbandonStep(w: World, w': World)
  {
    w.op.Placing? && w.op.pc == Abandoning && w.op.slot in w.units &&
    exists v | Stopped(w.units[w.op.slot], v) :: w' == w.(units := w.units[w.op.slot := v], op := Idle)
  }

  ghost predicate PlaceStep(cfg: Config, w: World, w': World)
  {
    WriteStep(cfg, w, w') || StartStep(w, w') || SettleStep(w, w') || AbandonStep(w, w')
  }

  // ---- Unload ----

  ghost predicate UnloadStep(cfg: Config, w: World, w': World)
    requires Shaped(cfg, w)
  {
    match w.op
    case Idle => w'.op.UnloadStopping? && w'.op.slot in cfg.slots && w' == w.(op := w'.op)
    case UnloadStopping(s) =>
      s in w.units && exists v | Stopped(w.units[s], v) :: w' == w.(units := w.units[s := v], op := UnloadAwaiting(s))
    case UnloadAwaiting(s) =>
      s in w.units && (w' == w.(op := Idle) || (w.units[s] == Gone && w' == w.(op := UnloadClearing(s))))
    case UnloadClearing(s) => s in w.modes && w' == w.(modes := w.modes[s := ""], op := Idle)
    case _ => false
  }

  // ---- SwitchMode, the stop and clear of Restart, and unloadAll ----

  /** The slot that a mode's service is placed in; None when it has no service or its role is no slot. */
  function TargetSlot(cfg: Config, mode: string): (r: Option<string>)
    ensures r.Some? ==> r.value in cfg.slots && mode in cfg.modes && cfg.modes[mode].services != []
  {
    if mode in cfg.modes && cfg.modes[mode].services != [] && cfg.modes[mode].services[0].portRole in cfg.slots
    then Some(cfg.modes[mode].services[0].portRole) else None
  }

  /** waitUnitGone succeeds only on seeing the unit gone. */
  predicate PollResult(u: Unit, gone: bool)
  {
    gone ==> u == Gone
  }

  /** target is the mode to switch to, or None for unloadAll and for Restart, which stops and clears before
      its switch. */
  ghost predicate SwitchStep(cfg: Config, w: World, w': World)
    requires Shaped(cfg, w)
  {
    match w.op
    case Idle =>
      w'.op.SwitchStopping? && w'.op.done == {} && w' == w.(op := w'.op) &&
      (w'.op.target.Some? ==> w'.op.target.value in cfg.modes)
    case SwitchStopping(target, done) =>
      if done == cfg.slots.Keys then w' == w.(op := SwitchAwaiting(target, {}, true))
      else exists s, v | s in cfg.slots && s !in done && Stopped(w.units[s], v) ::
             w' == w.(units := w.units[s := v], op := SwitchStopping(target, done + {s}))
    case SwitchAwaiting(target, polled, ok) =>
      if polled == cfg.slots.Keys then w' == w.(op := if ok then SwitchClearing(target) else Idle)
      else exists s, gone | s in cfg.slots && s !in polled && PollResult(w.units[s], gone) ::
             w' == w.(op := SwitchAwaiting(target, polled + {s}, ok && gone))
    case SwitchClearing(target) =>
      w' == w.(modes := map s | s in cfg.slots :: "",
               op := match target {
                 case Some(m) =>
                   (match TargetSlot(cfg, m)
                    case Some(s) => Placing(m, s, Gone, Writing)
                    case None => Idle)
                 case None => Idle
               })
    case _ => false
  }

  /** unloadAll stops and awaits as a switch without a target does, but then clears every mode even when a
      unit was not seen gone. */
  ghost predicate UnloadAllStep(cfg: Config, w: World, w': World)
    requires Shaped(cfg, w)
  {
    w.op == SwitchAwaiting(None, cfg.slots.Keys, false) && w' == w.(modes := map s | s in cfg.slots :: "", op := Idle)
  }

  // ---- Runs ----

  ghost predicate Step(cfg: Config, w: World, w': World)
  {
    Shaped(cfg, w) && Shaped(cfg, w') &&
    (ReconcileStep(cfg, w, w') || DriftStep(cfg, w, w') || LoadBegins(cfg, w, w') || LoadClears(cfg, w, w') ||
     PlaceStep(cfg, w, w') || UnloadStep(cfg, w, w') || SwitchStep(cfg, w, w') || UnloadAllStep(cfg, w, w'))
  }

  /** A step of any kind is a step. */
  lemma OneStep(cfg: Config, w: World, w': World)
    requires Shaped(cfg, w) && Shaped(cfg, w')
    requires ReconcileStep(cfg, w, w') || DriftStep(cfg, w, w') || LoadBegins(cfg, w, w') || LoadClears(cfg, w, w') ||
             WriteStep(cfg, w, w') || StartStep(w, w') || SettleStep(w, w') || AbandonStep(w, w') ||
             UnloadStep(cfg, w, w') || SwitchStep(cfg, w, w') || UnloadAllStep(cfg, w, w')
    ensures Step(cfg, w, w')
  {
    hide Shaped, ReconcileStep, DriftStep, LoadBegins, LoadClears, WriteStep, StartStep, SettleStep, AbandonStep,
         UnloadStep, SwitchStep, UnloadAllStep;
  }

  /** The daemon starts with nothing tracked. No unit is on its way up, and the active ones belong to
      distinct modes: what an earlier run of the daemon leaves behind once its units have settled. */
  ghost predicate Fresh(cfg: Config, w: World)
  {
    && Shaped(cfg, w) && w.op == Booting
    && (forall s | s in cfg.slots :: w.modes[s] == "")
    && (forall s | s in cfg.slots :: w.units[s] in {Gone, Active, Deactivating(true)})
    && (forall s | s in cfg.slots && w.units[s] == Active :: !MayInfer(cfg, w.envs[s], ""))
    && forall s, t, m | s in cfg.slots && t in cfg.slots && w.units[s] == Active && w.units[t] == Active &&
                        MayInfer(cfg, w.envs[s], m) && MayInfer(cfg, w.envs[t], m) :: s == t
  }

  ghost predicate IsRun(cfg: Config, ws: seq<World>)
  {
    && ws != [] && Fresh(cfg, ws[0])
    && forall i | 0 <= i < |ws| - 1 :: Step(cfg, ws[i], ws[i + 1])
  }
}
