/** Where SwitchMode and Restart go by the state file and not by what the slots track: after a switch to one
    mode and a load of another into its slot. Both are runs of the engine from a fresh start. */
module EngineGaps {
  import opened Wrappers
  import opened Text
  import opened SlotInference
  import opened Lifecycle
  import E = Engine
  import Manager
  import RecordedMode

  /** Nothing interferes and everything works. */
  function Smooth(): E.Script
  {
    E.Script(_ => [], _ => [], _ => "", None, {}, true, true, EnvFile("", ""), "", true, true,
             _ => Some(Manager.UnitState("active", "running")), _ => true, 0, 0, _ => "now", _ => true)
  }

  lemma SmoothSucceeds()
    ensures E.Quiet(Smooth()) && E.Succeeds(Smooth()) && E.UnitUp(Smooth()) == Active && Smooth().downAtOnce
    ensures Smooth().saveWorks(1) && Smooth().stamp(1) == "now"
    ensures forall modes, mode, slot :: !E.HasSibling(modes, mode, slot, Smooth().identity)
  {
    assert Manager.UpAt(Smooth().readings, Manager.StartupTimeout(Smooth().startup), 0);
  }

  /** Every mode can be placed: a is placed in the slot, b is another one that can be loaded there. */
  ghost predicate Rivals(cfg: Config, order: seq<string>, a: string, b: string, slot: string)
  {
    && CatalogConfig(cfg) && E.ListsSlots(order, cfg)
    && TargetSlot(cfg, a) == Some(slot) && IsWord(a)
    && b in cfg.modes && cfg.modes[b].services != [] && b != a
  }

  /** Two modes placed in the one slot, as the daemon's catalog places all of its modes. */
  function TwoModes(a: string, b: string, slot: string, unit: string): Config
  {
    Config(map[slot := unit], map[a := Mode([Service(a, "", slot)], ""), b := Mode([Service(b, "", slot)], "")])
  }

  lemma RivalsExist(a: string, b: string, slot: string, unit: string)
    requires IsWord(a) && b != "" && a != b && unit != ""
    ensures Rivals(TwoModes(a, b, slot, unit), [slot], a, b, slot)
  {
    var cfg := TwoModes(a, b, slot, unit);
    assert AliasesUnique(cfg) by {
      assert forall name, svc | name in cfg.modes && svc in cfg.modes[name].services :: svc.alias == name;
    }
    hide AliasesUnique, IsWord;
  }

  /** The slot tracks b with its unit active, nothing else is up, and the file names a. */
  ghost predicate Stale(cfg: Config, modes: map<string, string>, units: map<string, Unit>, text: string,
                        a: string, b: string, slot: string)
  {
    E.TargetTracks(cfg, modes, a) == false && slot in modes && modes[slot] == b &&
    RecordedMode.Fits(cfg, units, a) && RecordedMode.RecordedIn(text) == a
  }

  lemma FreshGone(cfg: Config)
    ensures var none, units := (map s | s in cfg.slots :: ""), (map s | s in cfg.slots :: Gone);
            Fresh(cfg, World(none, units, map s | s in cfg.slots :: EnvFile("", ""), Booting))
  {
  }

  /** After the switch the load of b is allowed and finds the unit up. */
  lemma LoadAllowed(cfg: Config, order: seq<string>, modes: map<string, string>, units: map<string, Unit>,
                    a: string, b: string, slot: string)
    requires Rivals(cfg, order, a, b, slot) && E.OnlyOne(cfg, modes, units, a, slot, Smooth())
    ensures E.Loadable(cfg, modes, b, slot) && E.MakesWay(units, slot, Smooth())
  {
    SmoothSucceeds();
    hide E.Quiet, Smooth, E.UnitUp;
  }

  lemma AloneFits(cfg: Config, units: map<string, Unit>, a: string, slot: string)
    requires CatalogConfig(cfg) && TargetSlot(cfg, a) == Some(slot)
    requires units == (map s | s in cfg.slots :: Gone)[slot := Active]
    ensures RecordedMode.Fits(cfg, units, a)
  {
    hide CatalogConfig, RecordedMode.Fits;
    RecordedMode.FitsTarget(cfg, units, a, slot);
  }

  lemma LoadLeavesStale(cfg: Config, order: seq<string>, modes: map<string, string>, units: map<string, Unit>,
                        text: string, a: string, b: string, slot: string)
    requires Rivals(cfg, order, a, b, slot) && E.OnlyOne(cfg, modes, units, a, slot, Smooth())
    requires text == RecordedMode.SavedLine(a, "now")
    ensures Stale(cfg, modes[slot := b], units[slot := Active], text, a, b, slot)
  {
    SmoothSucceeds();
    IsWordNotEmpty(a);
    RecordedMode.SavedIsRecorded(a, "now");
    hide Smooth, E.UnitUp, RecordedMode.Fits, RecordedMode.RecordedIn, RecordedMode.SavedLine, Fields, CatalogConfig,
         E.ListsSlots, IsWord;
    AloneFits(cfg, units[slot := Active], a, slot);
  }

  lemma IsWordNotEmpty(a: string)
    requires IsWord(a)
    ensures a != ""
  {
  }

  /** A fresh start, a switch to a, and a load of b into its slot. */
  method SwitchThenLoad(cfg: Config, order: seq<string>, a: string, b: string, slot: string) returns (engine: E.Engine)
    requires Rivals(cfg, order, a, b, slot)
    ensures fresh(engine) && fresh(engine.table) && fresh(engine.state) && engine.cfg == cfg
    ensures engine.Valid() && engine.op == Idle
    ensures Stale(cfg, engine.modes, engine.units, engine.state.text, a, b, slot)
  {
    var units := map s | s in cfg.slots :: Gone;
    FreshGone(cfg);
    SmoothSucceeds();
    RivalsMeans(cfg, order, a, b, slot);
    hide *;
    engine := new E.Engine(cfg, order, units, map s | s in cfg.slots :: EnvFile("", ""), "");
    var ok;
    ghost var verdict;
    ok, verdict := engine.SwitchMode(a, _ => Smooth(), Smooth());
    if verdict {
      engine.NoneUp(a, units);
    }
    LoadAllowed(cfg, order, engine.modes, engine.units, a, b, slot);
    LoadLeavesStale(cfg, order, engine.modes, engine.units, engine.state.text, a, b, slot);
    ok, verdict := engine.Load(b, slot, Smooth());
  }

  lemma RivalsMeans(cfg: Config, order: seq<string>, a: string, b: string, slot: string)
    requires Rivals(cfg, order, a, b, slot)
    ensures CatalogConfig(cfg) && E.ListsSlots(order, cfg) && TargetSlot(cfg, a) == Some(slot)
    ensures a in cfg.modes && b in cfg.modes && a != b
  {
  }

  /** A switch back to a takes the shortcut and succeeds while the slot goes on tracking b. */
  method SwitchBack(cfg: Config, order: seq<string>, a: string, b: string, slot: string)
      returns (engine: E.Engine, ok: bool)
    requires Rivals(cfg, order, a, b, slot)
    ensures fresh(engine) && engine.Valid() && engine.op == Idle && engine.cfg == cfg
    ensures ok && slot in engine.modes && engine.modes[slot] == b
  {
    SmoothSucceeds();
    RivalsMeans(cfg, order, a, b, slot);
    engine := SwitchThenLoad(cfg, order, a, b, slot);
    StaleMeans(cfg, engine.modes, engine.units, engine.state.text, a, b, slot);
    hide *;
    ghost var shortcut;
    ok, shortcut := engine.SwitchMode(a, _ => Smooth(), Smooth());
  }

  lemma StaleMeans(cfg: Config, modes: map<string, string>, units: map<string, Unit>, text: string,
                   a: string, b: string, slot: string)
    requires Stale(cfg, modes, units, text, a, b, slot)
    ensures slot in modes && modes[slot] == b
    ensures RecordedMode.Fits(cfg, units, a) && RecordedMode.RecordedIn(text) == a
    ensures E.TrustedHere(cfg, units, text, a)
    ensures a != "" ==> forall answer | E.Answers(cfg, units, a, answer) :: answer == a
  {
    hide RecordedMode.Fits;
  }

  function SmoothRestart(): E.RestartScript
  {
    E.RestartScript("now", true, [], _ => Smooth(), [], _ => Smooth(), Smooth())
  }

  lemma SmoothRestartMeans(cfg: Config)
    ensures E.AllDownAtOnce(cfg, SmoothRestart()) && SmoothRestart().between == [] && SmoothRestart().sc == Smooth()
  {
  }

  /** A restart stops b and starts a. */
  method RestartStarts(cfg: Config, order: seq<string>, a: string, b: string, slot: string)
      returns (engine: E.Engine, ok: bool)
    requires Rivals(cfg, order, a, b, slot) && a !in {"unknown", "unloaded"}
    ensures fresh(engine) && engine.Valid() && engine.op == Idle && engine.cfg == cfg
    ensures ok && E.TargetTracks(cfg, engine.modes, a)
  {
    SmoothSucceeds();
    RivalsMeans(cfg, order, a, b, slot);
    assert a != "";
    engine := SwitchThenLoad(cfg, order, a, b, slot);
    StaleMeans(cfg, engine.modes, engine.units, engine.state.text, a, b, slot);
    SmoothRestartMeans(cfg);
    hide *;
    ghost var current, shortcut;
    ok, current, shortcut := engine.Restart(SmoothRestart());
  }
}
