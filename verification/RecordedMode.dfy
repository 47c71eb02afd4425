/** The recorded mode and what the daemon takes as its current one (go/internal/engine/manager.go:205-345).
    The unit reads of one scan are taken to show one state. */
module RecordedMode {
  import opened Wrappers
  import opened Text
  import opened SlotInference
  import opened Lifecycle

  // ---- The state file ----

  /** The line that saveMode writes. */
  function SavedLine(mode: string, stamp: string): string
  {
    mode + ([' '] + stamp + ['\n'])
  }

  /** The first field of the file, "" when there is none. */
  function RecordedIn(text: string): string
  {
    if Fields(text) == [] then "" else Fields(text)[0]
  }

  /** A saved mode is read back exactly when its name is one word. */
  lemma SavedIsRecorded(mode: string, stamp: string)
    requires mode != ""
    ensures RecordedIn(SavedLine(mode, stamp)) == mode <==> IsWord(mode)
  {
    if IsWord(mode) {
      FirstWord(mode, [' '] + stamp + ['\n']);
    }
  }

  /** The file "current"; an unreadable one is empty. */
  class StateFile {
    var text: string

    constructor (text: string)
      ensures this.text == text
    {
      this.text := text;
    }

    /** saveMode: a failed write leaves the file as it was. */
    method Save(mode: string, stamp: string, works: bool)
      modifies this
      ensures text == if works then SavedLine(mode, stamp) else old(text)
    {
      if works {
        text := SavedLine(mode, stamp);
      }
    }
  }

  // ---- Which modes the active units fit ----

  ghost function ActiveSlots(cfg: Config, units: map<string, Unit>): set<string>
  {
    set s | s in cfg.slots && s in units && units[s] == Active
  }

  /** The slots that a mode's services run in. */
  ghost function ModeSlots(cfg: Config, mode: string): set<string>
    requires mode in cfg.modes
  {
    set svc | svc in cfg.modes[mode].services && svc.portRole in cfg.slots :: svc.portRole
  }

  /** All units of the mode are active and no other one is. */
  ghost predicate Fits(cfg: Config, units: map<string, Unit>, mode: string)
  {
    mode in cfg.modes && ModeSlots(cfg, mode) == ActiveSlots(cfg, units)
  }

  /** The fallback may pick the mode. */
  ghost predicate MayReconcile(cfg: Config, units: map<string, Unit>, mode: string)
  {
    Fits(cfg, units, mode) && cfg.modes[mode].kind != "service"
  }

  ghost predicate TrustsRecorded(cfg: Config, units: map<string, Unit>, recorded: string)
  {
    recorded != "" && Fits(cfg, units, recorded)
  }

  /** What CurrentMode may answer, and whether it saves the answer. */
  ghost predicate MayBeCurrent(cfg: Config, units: map<string, Unit>, recorded: string, answer: string, saves: bool)
  {
    if TrustsRecorded(cfg, units, recorded) then answer == recorded && !saves
    else if exists mode :: MayReconcile(cfg, units, mode) then MayReconcile(cfg, units, answer) && saves
    else answer == (if recorded != "" then recorded else "unknown") && !saves
  }

  // ---- The scans ----

  method SlotsOfMode(cfg: Config, mode: string) returns (slots: set<string>)
    requires mode in cfg.modes
    ensures slots == ModeSlots(cfg, mode)
  {
    slots := {};
    var services := cfg.modes[mode].services;
    for i := 0 to |services|
      invariant slots == set svc | svc in services[..i] && svc.portRole in cfg.slots :: svc.portRole
    {
      assert services[..i + 1] == services[..i] + [services[i]];
      if services[i].portRole in cfg.slots {
        slots := slots + {services[i].portRole};
      }
    }
    assert services[..|services|] == services;
  }

  method ActiveNow(cfg: Config, units: map<string, Unit>) returns (active: set<string>)
    requires cfg.slots.Keys <= units.Keys
    ensures active == ActiveSlots(cfg, units)
  {
    active := {};
    var left := cfg.slots.Keys;
    while left != {}
      invariant left <= cfg.slots.Keys
      invariant active == set s | s in cfg.slots && s !in left && units[s] == Active
      decreases |left|
    {
      ghost var some := Member(left);
      var s :| s in left;
      if units[s] == Active {
        active := active + {s};
      }
      left := left - {s};
    }
  }

  /** The test that modeFullyActive and CurrentMode make: the expected units first, then the others. */
  method FullyActive(cfg: Config, units: map<string, Unit>, mode: string) returns (full: bool)
    requires mode in cfg.modes && cfg.slots.Keys <= units.Keys
    ensures full <==> Fits(cfg, units, mode)
  {
    var expected := SlotsOfMode(cfg, mode);
    var left := expected;
    while left != {}
      invariant left <= expected
      invariant forall s | s in expected && s !in left :: units[s] == Active
      decreases |left|
    {
      ghost var some := Member(left);
      var s :| s in left;
      if units[s] != Active {
        assert s !in ActiveSlots(cfg, units);
        return false;
      }
      left := left - {s};
    }
    left := cfg.slots.Keys;
    while left != {}
      invariant left <= cfg.slots.Keys
      invariant forall s | s in cfg.slots && s !in left && s !in expected :: units[s] != Active
      decreases |left|
    {
      ghost var some := Member(left);
      var s :| s in left;
      if s !in expected && units[s] == Active {
        assert s in ActiveSlots(cfg, units);
        return false;
      }
      left := left - {s};
    }
    return true;
  }

  /** Sets of one size are equal when one holds the other. */
  lemma SameSize(a: set<string>, b: set<string>)
    ensures |a| == |b| && a <= b <==> a == b
  {
    if |a| == |b| && a <= b {
      if x :| x in b && x !in a {
        SubsetSize(a, b - {x});
      } else {
        assert a == b;
      }
    }
  }

  /** The fallback of CurrentMode: a mode that is no service and whose units are the active ones. */
  method Reconciled(cfg: Config, units: map<string, Unit>) returns (found: Option<string>)
    requires cfg.slots.Keys <= units.Keys
    ensures found.Some? ==> MayReconcile(cfg, units, found.value)
    ensures found.None? ==> forall mode :: !MayReconcile(cfg, units, mode)
  {
    var active := ActiveNow(cfg, units);
    var left := cfg.modes.Keys;
    while left != {}
      invariant left <= cfg.modes.Keys
      invariant forall mode | mode in cfg.modes && mode !in left :: !MayReconcile(cfg, units, mode)
      decreases |left|
    {
      ghost var some := Member(left);
      var mode :| mode in left;
      if cfg.modes[mode].kind != "service" {
        var slots := SlotsOfMode(cfg, mode);
        SameSize(slots, active);
        if |slots| == |active| && slots <= active {
          return Some(mode);
        }
      }
      left := left - {mode};
    }
    return None;
  }

  /** CurrentMode: trust the file when its mode fits, else reconcile from the units and save. */
  method CurrentMode(cfg: Config, units: map<string, Unit>, file: StateFile, stamp: string, works: bool)
      returns (answer: string, ghost saves: bool)
    requires cfg.slots.Keys <= units.Keys
    modifies file
    ensures MayBeCurrent(cfg, units, RecordedIn(old(file.text)), answer, saves)
    ensures file.text == if saves && works then SavedLine(answer, stamp) else old(file.text)
  {
    var recorded := RecordedIn(file.text);
    if recorded in cfg.modes && recorded != "" {
      var full := FullyActive(cfg, units, recorded);
      if full {
        return recorded, false;
      }
    }
    var found := Reconciled(cfg, units);
    if found.Some? {
      file.Save(found.value, stamp, works);
      return found.value, true;
    }
    return if recorded != "" then recorded else "unknown", false;
  }

  // ---- The shortcut of SwitchMode ----

  /** The units fit the mode, and the file names it or names nothing that fits. */
  ghost predicate MayShortcut(cfg: Config, units: map<string, Unit>, recorded: string, mode: string)
  {
    Fits(cfg, units, mode) &&
    if TrustsRecorded(cfg, units, recorded) then recorded == mode
    else if exists other :: MayReconcile(cfg, units, other) then cfg.modes[mode].kind != "service"
    else recorded == "" && mode == "unknown"
  }

  /** CurrentMode may answer with a mode that is fully active exactly when the shortcut may be taken. */
  lemma ShortcutExactly(cfg: Config, units: map<string, Unit>, recorded: string, mode: string)
    ensures (exists saves :: MayBeCurrent(cfg, units, recorded, mode, saves)) && Fits(cfg, units, mode) <==>
            MayShortcut(cfg, units, recorded, mode)
  {
    hide Fits;
    if MayShortcut(cfg, units, recorded, mode) {
      var saves := !TrustsRecorded(cfg, units, recorded) && exists other :: MayReconcile(cfg, units, other);
      assert MayBeCurrent(cfg, units, recorded, mode, saves);
    }
  }

  lemma RecordedAnswers(cfg: Config, units: map<string, Unit>, recorded: string, answer: string, saves: bool)
    requires MayBeCurrent(cfg, units, recorded, answer, saves)
    ensures recorded != "" && Fits(cfg, units, recorded) ==> answer == recorded
  {
    hide Fits;
  }

  lemma AnswerMayShortcut(cfg: Config, units: map<string, Unit>, recorded: string, answer: string, saves: bool)
    requires MayBeCurrent(cfg, units, recorded, answer, saves)
    ensures Fits(cfg, units, answer) ==> MayShortcut(cfg, units, recorded, answer)
  {
    ShortcutExactly(cfg, units, recorded, answer);
  }

  /** Modes that are placed in the same slots fit the same units: only the file tells them apart. */
  lemma FitsBySlots(cfg: Config, units: map<string, Unit>, a: string, b: string)
    requires a in cfg.modes && b in cfg.modes && ModeSlots(cfg, a) == ModeSlots(cfg, b)
    ensures Fits(cfg, units, a) <==> Fits(cfg, units, b)
  {
  }

  /** A mode with a target slot fits when exactly that slot's unit is active. */
  lemma FitsTarget(cfg: Config, units: map<string, Unit>, mode: string, slot: string)
    requires CatalogConfig(cfg) && TargetSlot(cfg, mode) == Some(slot) && cfg.slots.Keys <= units.Keys
    ensures Fits(cfg, units, mode) <==>
            forall s | s in cfg.slots :: units[s] == Active <==> s == slot
  {
    var services := cfg.modes[mode].services;
    assert services == [services[0]] && services[0] in services;
    assert ModeSlots(cfg, mode) == {slot};
    if forall s | s in cfg.slots :: units[s] == Active <==> s == slot {
      assert ActiveSlots(cfg, units) == {slot};
    } else if Fits(cfg, units, mode) {
      assert forall s | s in cfg.slots :: s in ActiveSlots(cfg, units) <==> s == slot;
    }
  }
}
