/** What every run of the slot lifecycle keeps: no two slots track one mode, a mode is dropped only
    when its unit is gone, and where a load may start a unit. */
module LifecycleSafety {
  import opened Wrappers
  import opened SlotInference
  import opened Lifecycle

  /** The unit may still come up without being started. */
  predicate Alive(u: Unit)
  {
    u != Gone && u != Deactivating(true)
  }

  // ---- The invariant ----

  ghost predicate ModesDistinct(modes: map<string, string>)
  {
    forall s, t | s in modes && t in modes && s != t && modes[s] == modes[t] :: modes[s] == ""
  }

  /** The slot whose unit has been started and whose mode is not yet committed. */
  predicate BeingStarted(op: Op, s: string)
  {
    op.Placing? && op.slot == s && (op.pc == Running || op.pc == Abandoning)
  }

  ghost predicate SlotTracked(w: World, s: string)
    requires s in w.modes && s in w.units
  {
    Alive(w.units[s]) && !BeingStarted(w.op, s) ==> w.modes[s] != ""
  }

  /** Every unit that may be up is tracked, but for the one being started. */
  ghost predicate AliveTracked(cfg: Config, w: World)
    requires Shaped(cfg, w)
  {
    forall s | s in cfg.slots :: SlotTracked(w, s)
  }

  ghost predicate Claims(cfg: Config, modes: map<string, string>, mode: string, slot: string)
  {
    slot in cfg.slots && mode in cfg.modes && cfg.modes[mode].services != [] && Free(modes, mode, slot)
  }

  /** What each operation knows at each of its steps. */
  ghost predicate OpKnows(cfg: Config, w: World)
    requires Shaped(cfg, w)
  {
    match w.op
    case LoadReading(m, s) => Claims(cfg, w.modes, m, s)
    case LoadStopping(m, s) => Claims(cfg, w.modes, m, s)
    case LoadAwaiting(m, s) => Claims(cfg, w.modes, m, s)
    case Placing(m, s, seen, pc) =>
      && Claims(cfg, w.modes, m, s)
      && (seen == Gone || seen == Activating)
      && ((pc == Writing || pc == Starting) && seen == Gone ==> w.units[s] == Gone)
      && (pc != Writing ==> Serves(cfg, w.envs[s], m))
    case UnloadStopping(s) => s in cfg.slots
    case UnloadAwaiting(s) => s in cfg.slots
    case UnloadClearing(s) => s in cfg.slots && w.units[s] == Gone
    case SwitchStopping(target, done) =>
      (target.Some? ==> target.value in cfg.modes) &&
      done <= cfg.slots.Keys && forall s | s in done :: !Alive(w.units[s])
    case SwitchAwaiting(target, polled, ok) =>
      (target.Some? ==> target.value in cfg.modes) && polled <= cfg.slots.Keys &&
      (forall s | s in cfg.slots :: !Alive(w.units[s])) && (ok ==> forall s | s in polled :: w.units[s] == Gone)
    case SwitchClearing(target) =>
      (target.Some? ==> target.value in cfg.modes) && forall s | s in cfg.slots :: w.units[s] == Gone
    case _ => true
  }

  ghost predicate Inv(cfg: Config, w: World)
  {
    Shaped(cfg, w) &&
    if w.op == Booting then Fresh(cfg, w)
    else ModesDistinct(w.modes) && AliveTracked(cfg, w) && OpKnows(cfg, w)
  }

  // ---- Reconciliation keeps it ----

  /** A slot may newly track a mode only if no other slot does. */
  lemma ReconcileKeepsDistinct(cfg: Config, w: World, w': World)
    requires CatalogConfig(cfg) && Inv(cfg, w) && w.op != Booting && Shaped(cfg, w') && ReconcileStep(cfg, w, w')
    ensures ModesDistinct(w'.modes)
  {
    forall s, t | s in w'.modes && t in w'.modes && s != t && w'.modes[s] == w'.modes[t]
      ensures w'.modes[s] == ""
    {
      AdoptedMode(cfg, w, w', s);
      AdoptedMode(cfg, w, w', t);
    }
  }

  /** A reconciled mode is the old one, none, or the mode of the slot being started. */
  lemma AdoptedMode(cfg: Config, w: World, w': World, s: string)
    requires CatalogConfig(cfg) && Inv(cfg, w) && w.op != Booting && Shaped(cfg, w') && ReconcileStep(cfg, w, w')
    requires s in cfg.slots
    ensures w'.modes[s] == w.modes[s] || w'.modes[s] == "" || (BeingStarted(w.op, s) && w'.modes[s] == w.op.mode)
  {
    hide MayInfer;
    assert SlotReconciles(cfg, w, w', s);
    if w.units[s] == Active && w.modes[s] == "" && w'.modes[s] != "" {
      StartedServes(cfg, w, s);
      hide Inv, CatalogConfig;
      ServedIsInferred(cfg, w.envs[s], w.op.mode, w'.modes[s]);
    }
  }

  /** An active slot without a mode is the one being started, and its file serves the mode. */
  lemma StartedServes(cfg: Config, w: World, s: string)
    requires Inv(cfg, w) && w.op != Booting && s in cfg.slots && w.units[s] == Active && w.modes[s] == ""
    ensures BeingStarted(w.op, s) && Serves(cfg, w.envs[s], w.op.mode)
  {
    hide Fresh, ModesDistinct, Serves;
    assert SlotTracked(w, s);
  }

  lemma ServedIsInferred(cfg: Config, env: EnvFile, mode: string, r: string)
    requires CatalogConfig(cfg) && Serves(cfg, env, mode) && MayInfer(cfg, env, r)
    ensures r == mode
  {
    var svc :| svc in cfg.modes[mode].services && env.alias == svc.alias;
    InferenceIsExact(cfg, mode, svc, env.modelPath, r);
  }

  lemma ReconcileKeepsTracked(cfg: Config, w: World, w': World)
    requires Inv(cfg, w) && w.op != Booting && Shaped(cfg, w') && ReconcileStep(cfg, w, w')
    ensures AliveTracked(cfg, w')
  {
    hide ModesDistinct, OpKnows, MayInfer;
    forall s | s in cfg.slots
      ensures SlotTracked(w', s)
    {
      assert SlotTracked(w, s);
      assert SlotReconciles(cfg, w, w', s);
    }
  }

  lemma ReconcileKeeps(cfg: Config, w: World, w': World)
    requires CatalogConfig(cfg) && Inv(cfg, w) && w.op != Booting && Shaped(cfg, w') && ReconcileStep(cfg, w, w')
    ensures Inv(cfg, w')
  {
    ReconcileKeepsDistinct(cfg, w, w');
    ReconcileKeepsTracked(cfg, w, w');
    if w.op.LoadReading? || w.op.LoadStopping? || w.op.LoadAwaiting? || w.op.Placing? {
      ReconcileKeepsFree(cfg, w, w', w.op.mode, w.op.slot);
    }
    hide CatalogConfig, ModesDistinct, AliveTracked, SlotReconciles, Serves, Free;
  }

  lemma ReconcileKeepsFree(cfg: Config, w: World, w': World, mode: string, slot: string)
    requires CatalogConfig(cfg) && Inv(cfg, w) && w.op != Booting && Shaped(cfg, w') && ReconcileStep(cfg, w, w')
    requires Free(w.modes, mode, slot) && mode in cfg.modes && (w.op.Placing? ==> w.op.slot == slot)
    ensures Free(w'.modes, mode, slot)
  {
    forall t | t in w'.modes && t != slot
      ensures w'.modes[t] != mode
    {
      AdoptedMode(cfg, w, w', t);
    }
  }

  /** The reconciliation at start-up establishes it. */
  lemma BootEstablishes(cfg: Config, w: World, w': World)
    requires CatalogConfig(cfg) && Fresh(cfg, w) && Shaped(cfg, w') && ReconcileStep(cfg, w, w')
    ensures Inv(cfg, w')
  {
    forall s | s in cfg.slots
      ensures SlotTracked(w', s)
      ensures w'.modes[s] != "" ==> w.units[s] == Active && MayInfer(cfg, w.envs[s], w'.modes[s])
    {
      assert SlotReconciles(cfg, w, w', s);
    }
  }

  // ---- Steps that change no mode ----

  /** With the modes unchanged and no further unit alive, only what the operation knows can change. */
  lemma ModesUnchanged(cfg: Config, w: World, w': World)
    requires Inv(cfg, w) && w.op != Booting && w'.op != Booting && Shaped(cfg, w')
    requires w'.modes == w.modes && OpKnows(cfg, w')
    requires forall s | s in cfg.slots ::
               Alive(w'.units[s]) && !BeingStarted(w'.op, s) ==> Alive(w.units[s]) && !BeingStarted(w.op, s)
    ensures Inv(cfg, w')
  {
  }

  lemma DriftKeeps(cfg: Config, w: World, w': World)
    requires Inv(cfg, w) && Shaped(cfg, w') && DriftStep(cfg, w, w')
    ensures Inv(cfg, w')
  {
    hide Claims, Serves, Free, ModesDistinct, AliveTracked, Fresh;
    forall s | s in cfg.slots
      ensures w.units[s] == Gone ==> w'.units[s] == Gone
      ensures !Alive(w.units[s]) ==> !Alive(w'.units[s])
    {
    }
    ModesUnchanged(cfg, w, w');
  }

  // ---- The operations keep it ----

  lemma LoadBeginKeeps(cfg: Config, w: World, w': World)
    requires Inv(cfg, w) && Shaped(cfg, w') && LoadBegins(cfg, w, w')
    ensures Inv(cfg, w')
  {
  }

  lemma LoadClearKeeps(cfg: Config, w: World, w': World)
    requires Inv(cfg, w) && Shaped(cfg, w') && LoadClears(cfg, w, w')
    ensures Inv(cfg, w')
  {
    hide Serves, Claims, ModesDistinct, AliveTracked, Fresh;
    ModesUnchanged(cfg, w, w');
  }

  lemma WriteKeeps(cfg: Config, w: World, w': World)
    requires Inv(cfg, w) && Shaped(cfg, w') && WriteStep(cfg, w, w')
    ensures Inv(cfg, w')
  {
    hide Serves, Claims, ModesDistinct, AliveTracked, Fresh;
    ModesUnchanged(cfg, w, w');
  }

  lemma StartKeeps(cfg: Config, w: World, w': World)
    requires Inv(cfg, w) && Shaped(cfg, w') && StartStep(w, w')
    ensures Inv(cfg, w')
  {
    hide Serves, Claims, ModesDistinct, AliveTracked, Fresh;
    ModesUnchanged(cfg, w, w');
  }

  lemma AbandonKeeps(cfg: Config, w: World, w': World)
    requires Inv(cfg, w) && Shaped(cfg, w') && AbandonStep(w, w')
    ensures Inv(cfg, w')
  {
    hide Serves, Claims, ModesDistinct, AliveTracked, Fresh;
    ModesUnchanged(cfg, w, w');
  }

  lemma SettleKeeps(cfg: Config, w: World, w': World)
    requires CatalogConfig(cfg) && Inv(cfg, w) && Shaped(cfg, w') && SettleStep(w, w')
    ensures Inv(cfg, w')
  {
    hide Serves, Fresh;
    if w'.op == Idle {
      CommitKeeps(cfg, w, w');
    } else {
      hide ModesDistinct, AliveTracked, Claims;
      ModesUnchanged(cfg, w, w');
    }
  }

  lemma CommitKeeps(cfg: Config, w: World, w': World)
    requires CatalogConfig(cfg) && Inv(cfg, w) && Shaped(cfg, w')
    requires w.op.Placing? && Claims(cfg, w.modes, w.op.mode, w.op.slot)
    requires w' == w.(modes := w.modes[w.op.slot := w.op.mode], op := Idle)
    ensures Inv(cfg, w')
  {
    hide Serves, Fresh, OpKnows;
    NothingToKnow(cfg, w');
    forall s | s in cfg.slots
      ensures SlotTracked(w', s)
    {
      assert SlotTracked(w, s);
    }
  }

  lemma UnloadKeeps(cfg: Config, w: World, w': World)
    requires Inv(cfg, w) && Shaped(cfg, w') && UnloadStep(cfg, w, w')
    ensures Inv(cfg, w')
  {
    if w.op.UnloadClearing? {
      hide Fresh, AliveTracked, ModesDistinct;
      ClearKeeps(cfg, w, w', w.op.slot);
    } else {
      hide Inv, UnloadStep;
      UnloadWaitKeeps(cfg, w, w');
    }
  }

  lemma UnloadWaitKeeps(cfg: Config, w: World, w': World)
    requires Inv(cfg, w) && Shaped(cfg, w') && UnloadStep(cfg, w, w') && !w.op.UnloadClearing?
    ensures Inv(cfg, w')
  {
    hide Serves, Claims, ModesDistinct, AliveTracked, Fresh;
    ModesUnchanged(cfg, w, w');
  }

  lemma ClearKeeps(cfg: Config, w: World, w': World, slot: string)
    requires Inv(cfg, w) && w.op != Booting && Shaped(cfg, w') && slot in cfg.slots && w.units[slot] == Gone
    requires w' == w.(modes := w.modes[slot := ""], op := Idle) && !w.op.Placing?
    ensures Inv(cfg, w')
  {
    hide OpKnows, Fresh;
    assert OpKnows(cfg, w') by {
      NothingToKnow(cfg, w');
    }
    forall s | s in cfg.slots
      ensures SlotTracked(w', s)
    {
      assert SlotTracked(w, s);
    }
  }

  lemma NothingToKnow(cfg: Config, w: World)
    requires Shaped(cfg, w) && w.op == Idle
    ensures OpKnows(cfg, w)
  {
  }

  lemma SwitchStopKeeps(cfg: Config, w: World, w': World)
    requires Inv(cfg, w) && Shaped(cfg, w') && SwitchStep(cfg, w, w') && !w.op.SwitchClearing?
    ensures Inv(cfg, w')
  {
    hide Serves, Claims, ModesDistinct, AliveTracked, Fresh, TargetSlot;
    ModesUnchanged(cfg, w, w');
  }

  lemma SwitchClearKeeps(cfg: Config, w: World, w': World)
    requires CatalogConfig(cfg) && Inv(cfg, w) && Shaped(cfg, w') && SwitchStep(cfg, w, w') && w.op.SwitchClearing?
    ensures Inv(cfg, w')
  {
    hide Serves, Fresh, ModesDistinct, AliveTracked;
    assert forall s | s in cfg.slots :: w'.units[s] == Gone && w'.modes[s] == "";
    assert ModesDistinct(w'.modes) by {
      AllEmptyDistinct(w'.modes);
    }
    assert AliveTracked(cfg, w') by {
      NoneAliveTracked(cfg, w');
    }
  }

  lemma UnloadAllKeeps(cfg: Config, w: World, w': World)
    requires Inv(cfg, w) && Shaped(cfg, w') && UnloadAllStep(cfg, w, w')
    ensures Inv(cfg, w')
  {
    hide Serves, Fresh, ModesDistinct, AliveTracked;
    AllEmptyDistinct(w'.modes);
    assert AliveTracked(cfg, w') by {
      NoneAliveTracked(cfg, w');
    }
  }

  lemma NoneAliveTracked(cfg: Config, w: World)
    requires Shaped(cfg, w) && forall s | s in cfg.slots :: !Alive(w.units[s])
    ensures AliveTracked(cfg, w)
  {
  }

  lemma AllEmptyDistinct(modes: map<string, string>)
    requires forall s | s in modes :: modes[s] == ""
    ensures ModesDistinct(modes)
  {
  }

  lemma StepKeeps(cfg: Config, w: World, w': World)
    requires CatalogConfig(cfg) && Inv(cfg, w) && Step(cfg, w, w')
    ensures Inv(cfg, w')
  {
    hide Inv, ReconcileStep, DriftStep, LoadBegins, LoadClears, WriteStep, StartStep, SettleStep, AbandonStep,
         UnloadStep, SwitchStep, UnloadAllStep, CatalogConfig, Shaped;
    if ReconcileStep(cfg, w, w') {
      if w.op == Booting {
        assert Fresh(cfg, w) by {
          BootingIsFresh(cfg, w);
        }
        BootEstablishes(cfg, w, w');
      } else {
        ReconcileKeeps(cfg, w, w');
      }
    } else if DriftStep(cfg, w, w') {
      DriftKeeps(cfg, w, w');
    } else if LoadBegins(cfg, w, w') {
      LoadBeginKeeps(cfg, w, w');
    } else if LoadClears(cfg, w, w') {
      LoadClearKeeps(cfg, w, w');
    } else if WriteStep(cfg, w, w') {
      WriteKeeps(cfg, w, w');
    } else if StartStep(w, w') {
      StartKeeps(cfg, w, w');
    } else if SettleStep(w, w') {
      SettleKeeps(cfg, w, w');
    } else if AbandonStep(w, w') {
      AbandonKeeps(cfg, w, w');
    } else if UnloadStep(cfg, w, w') {
      UnloadKeeps(cfg, w, w');
    } else if UnloadAllStep(cfg, w, w') {
      UnloadAllKeeps(cfg, w, w');
    } else if w.op.SwitchClearing? {
      SwitchClearKeeps(cfg, w, w');
    } else {
      SwitchStopKeeps(cfg, w, w');
    }
  }

  lemma BootingIsFresh(cfg: Config, w: World)
    requires Inv(cfg, w) && w.op == Booting
    ensures Fresh(cfg, w)
  {
  }

  // ---- Dropping a mode ----

  lemma StepDrops(cfg: Config, w: World, w': World, s: string)
    requires CatalogConfig(cfg) && Inv(cfg, w) && Step(cfg, w, w') && s in cfg.slots
    requires w.modes[s] != "" && w'.modes[s] == ""
    ensures w'.units[s] == w.units[s]
    ensures w.units[s] == Gone || (w.units[s] == Deactivating(true) && UnloadAllStep(cfg, w, w'))
  {
    hide Fresh, AliveTracked, ModesDistinct, Claims, Serves, MayInfer, DriftStep, LoadBegins, LoadClears,
         StartStep, WriteStep, AbandonStep, UnloadStep, SwitchStep, SettleStep, OpKnows, UnloadAllStep;
    if ReconcileStep(cfg, w, w') {
      assert SlotReconciles(cfg, w, w', s);
    } else if SettleStep(w, w') {
      CommitDropsNothing(cfg, w, w', s);
    } else if UnloadStep(cfg, w, w') {
      UnloadDrops(cfg, w, w', s);
    } else if SwitchStep(cfg, w, w') {
      SwitchDrops(cfg, w, w', s);
    } else if UnloadAllStep(cfg, w, w') {
      UnloadAllDrops(cfg, w, w', s);
    } else {
      OthersKeepModes(cfg, w, w');
    }
  }

  lemma CommitDropsNothing(cfg: Config, w: World, w': World, s: string)
    requires CatalogConfig(cfg) && Inv(cfg, w) && Shaped(cfg, w') && SettleStep(w, w') && s in cfg.slots
    ensures w.modes[s] != "" ==> w'.modes[s] != ""
  {
    hide Fresh, AliveTracked, ModesDistinct, Serves, MayInfer;
  }

  lemma UnloadDrops(cfg: Config, w: World, w': World, s: string)
    requires Inv(cfg, w) && Shaped(cfg, w') && UnloadStep(cfg, w, w') && s in cfg.slots
    ensures w.modes[s] != w'.modes[s] ==> w.units[s] == w'.units[s] == Gone
  {
    hide Fresh, AliveTracked, ModesDistinct, Claims, Serves, MayInfer;
  }

  lemma SwitchDrops(cfg: Config, w: World, w': World, s: string)
    requires Inv(cfg, w) && Shaped(cfg, w') && SwitchStep(cfg, w, w') && s in cfg.slots
    ensures w.modes[s] != w'.modes[s] ==> w.units[s] == w'.units[s] == Gone
  {
    hide Fresh, AliveTracked, ModesDistinct, Claims, Serves, MayInfer;
  }

  lemma UnloadAllDrops(cfg: Config, w: World, w': World, s: string)
    requires Inv(cfg, w) && Shaped(cfg, w') && UnloadAllStep(cfg, w, w') && s in cfg.slots
    ensures w'.units == w.units && (w.units[s] == Gone || w.units[s] == Deactivating(true))
  {
    hide Fresh, AliveTracked, ModesDistinct, Claims, Serves, MayInfer;
  }

  lemma OthersKeepModes(cfg: Config, w: World, w': World)
    requires Shaped(cfg, w) && Shaped(cfg, w')
    requires DriftStep(cfg, w, w') || LoadBegins(cfg, w, w') || LoadClears(cfg, w, w') || StartStep(w, w') ||
             WriteStep(cfg, w, w') || AbandonStep(w, w')
    ensures w'.modes == w.modes
  {
  }

  // ---- Whole runs ----

  lemma FreshInv(cfg: Config, w: World)
    requires Fresh(cfg, w)
    ensures Inv(cfg, w)
  {
  }

  lemma {:induction false} RunKeeps(cfg: Config, ws: seq<World>, i: nat)
    requires CatalogConfig(cfg) && IsRun(cfg, ws) && i < |ws|
    ensures Inv(cfg, ws[i])
  {
    hide Inv, Step, CatalogConfig, Fresh;
    if i == 0 {
      FreshInv(cfg, ws[0]);
    } else {
      RunKeeps(cfg, ws, i - 1);
      StepKeeps(cfg, ws[i - 1], ws[i]);
    }
  }

  lemma StepOf(cfg: Config, ws: seq<World>, i: nat)
    requires CatalogConfig(cfg) && IsRun(cfg, ws) && i + 1 < |ws|
    ensures Inv(cfg, ws[i]) && Step(cfg, ws[i], ws[i + 1]) && Inv(cfg, ws[i + 1])
  {
    hide Inv, Step, CatalogConfig;
    RunKeeps(cfg, ws, i);
    RunKeeps(cfg, ws, i + 1);
  }

  /** No two slots ever track the same mode. */
  lemma OneSlotPerMode(cfg: Config, ws: seq<World>, i: nat, s: string, t: string)
    requires CatalogConfig(cfg) && IsRun(cfg, ws) && i < |ws|
    requires s in cfg.slots && t in cfg.slots && s != t
    ensures s in ws[i].modes && t in ws[i].modes && (ws[i].modes[s] == ws[i].modes[t] ==> ws[i].modes[s] == "")
  {
    hide IsRun, CatalogConfig;
    RunKeeps(cfg, ws, i);
  }

  /** A slot loses its mode only while its unit is gone: never while it is active, coming up or going
      down, whichever of SlotStates, Unload and SwitchMode clears it. Only unloadAll, when its wait for some
      unit has failed, may clear the mode of a unit that is still going down. */
  lemma ModeDroppedOnlyWhenGone(cfg: Config, ws: seq<World>, i: nat, s: string)
    requires CatalogConfig(cfg) && IsRun(cfg, ws) && i + 1 < |ws| && s in cfg.slots
    requires s in ws[i].modes && s in ws[i + 1].modes && ws[i].modes[s] != "" && ws[i + 1].modes[s] == ""
    ensures s in ws[i].units && s in ws[i + 1].units && ws[i + 1].units[s] == ws[i].units[s]
    ensures ws[i].units[s] == Gone ||
            (ws[i].units[s] == Deactivating(true) && Shaped(cfg, ws[i]) && UnloadAllStep(cfg, ws[i], ws[i + 1]))
  {
    hide IsRun, CatalogConfig, Step, Inv, UnloadAllStep;
    StepOf(cfg, ws, i);
    ShapedStep(cfg, ws[i], ws[i + 1]);
    StepDrops(cfg, ws[i], ws[i + 1], s);
  }

  lemma ShapedStep(cfg: Config, w: World, w': World)
    requires Step(cfg, w, w')
    ensures Shaped(cfg, w) && Shaped(cfg, w')
  {
  }

  /** Load and SwitchMode start a unit only after seeing it neither active nor deactivating, and if it
      was seen gone it still is. */
  lemma StartedOnlyWhenSeenFree(cfg: Config, ws: seq<World>, i: nat)
    requires CatalogConfig(cfg) && IsRun(cfg, ws) && i + 1 < |ws| && StartStep(ws[i], ws[i + 1])
    ensures ws[i].op.Placing? && ws[i].op.slot in ws[i].units
    ensures ws[i].op.seen == Gone || ws[i].op.seen == Activating
    ensures ws[i].op.seen == Gone ==> ws[i].units[ws[i].op.slot] == Gone
  {
    hide IsRun, CatalogConfig, Step, Fresh, AliveTracked, ModesDistinct, Claims, Serves;
    StepOf(cfg, ws, i);
  }

  /** When a placement commits, its mode is tracked by its slot and by no other. */
  lemma CommitIsExclusive(cfg: Config, ws: seq<World>, i: nat)
    requires CatalogConfig(cfg) && IsRun(cfg, ws) && i + 1 < |ws|
    requires SettleStep(ws[i], ws[i + 1]) && ws[i + 1].op == Idle
    ensures forall t | t in cfg.slots ::
              t in ws[i + 1].modes && (ws[i + 1].modes[t] == ws[i].op.mode <==> t == ws[i].op.slot)
  {
    hide IsRun, CatalogConfig, Step, Fresh, AliveTracked, ModesDistinct, Serves;
    StepOf(cfg, ws, i);
  }
}
