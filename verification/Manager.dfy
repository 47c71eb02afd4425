/** The manager's slot records and its polling loops (go/internal/engine/manager.go:351-424,
    lifecycle.go:359-433), tied to the relations of the lifecycle state machine. */
module Manager {
  import opened Wrappers
  import opened SlotInference
  import opened Lifecycle

  /** A unit as systemd reports it. */
  datatype UnitState = UnitState(activeState: string, subState: string)

  datatype Transition = Transition(mode: string, startedAt: int)

  datatype SlotRec = SlotRec(mode: string, loading: Option<Transition>, unloading: Option<Transition>)

  const EMPTY_REC: SlotRec := SlotRec("", None, None)

  /** Every configured slot with an empty record. */
  function EmptyRecs(cfg: Config): map<string, SlotRec>
  {
    map s | s in cfg.slots :: EMPTY_REC
  }

  /** What SlotStates makes of a reported state; a unit missing from the report is neither. */
  function SightOf(units: map<string, UnitState>, unit: string): Sight
  {
    if unit !in units then SeenOther
    else if units[unit].activeState == "active" then SeenActive
    else if units[unit].activeState in {"inactive", "failed", "dead"} then SeenGone
    else SeenOther
  }

  /** The record a slot has, or the empty one that SlotStates would create. */
  function Rec(slots: map<string, SlotRec>, s: string): SlotRec
  {
    if s in slots then slots[s] else EMPTY_REC
  }

  /** A reconciled record: the mode by the machine's relation, the transitions untouched. */
  ghost predicate Turned(cfg: Config, sight: Sight, env: EnvFile, rec: SlotRec, rec': SlotRec)
  {
    Reconciles(cfg, sight, env, rec.mode, rec'.mode) && rec' == rec.(mode := rec'.mode)
  }

  lemma TurnedBy(cfg: Config, sight: Sight, env: EnvFile, rec: SlotRec, mode: string)
    requires Reconciles(cfg, sight, env, rec.mode, mode)
    ensures Turned(cfg, sight, env, rec, rec.(mode := mode))
  {
  }

  /** The switch in the loop of SlotStates: infer for an active unit, clear for one that is gone. */
  method ReconcileMode(cfg: Config, sight: Sight, env: EnvFile, mode: string) returns (mode': string)
    ensures Reconciles(cfg, sight, env, mode, mode')
  {
    mode' := mode;
    match sight {
      case SeenActive =>
        if mode == "" {
          mode' := InferSlotMode(cfg, env);
        }
      case SeenGone => mode' := "";
      case SeenOther =>
    }
  }

  /** What one pass of SlotStates does: every configured slot is reconciled and returned, transitions and
      other records stay. */
  ghost predicate Swept(cfg: Config, units: map<string, UnitState>, envs: map<string, EnvFile>,
                        before: map<string, SlotRec>, after: map<string, SlotRec>, out: map<string, SlotRec>)
    requires envs.Keys == cfg.slots.Keys
  {
    && out.Keys == cfg.slots.Keys && after.Keys == before.Keys + cfg.slots.Keys
    && (forall s | s in cfg.slots ::
          Turned(cfg, SightOf(units, cfg.slots[s]), envs[s], Rec(before, s), after[s]) && out[s] == after[s])
    && forall s | s in before && s !in cfg.slots :: after[s] == before[s]
  }

  /** The loop of SlotStates with the slots in left still to come. */
  ghost predicate Progress(cfg: Config, units: map<string, UnitState>, envs: map<string, EnvFile>,
                           before: map<string, SlotRec>, slots: map<string, SlotRec>, out: map<string, SlotRec>,
                           left: set<string>)
    requires envs.Keys == cfg.slots.Keys
  {
    && (forall s :: s in out <==> s in cfg.slots && s !in left)
    && (forall s :: s in slots <==> s in before || s in out)
    && (forall s :: s !in out ==> Rec(slots, s) == Rec(before, s))
    && forall s :: s in out && s in cfg.slots ==> Done(cfg, units, envs, before, slots, out, s)
  }

  ghost predicate Done(cfg: Config, units: map<string, UnitState>, envs: map<string, EnvFile>,
                       before: map<string, SlotRec>, slots: map<string, SlotRec>, out: map<string, SlotRec>, s: string)
    requires s in cfg.slots && s in envs && s in out
  {
    s in slots && out[s] == slots[s] && Turned(cfg, SightOf(units, cfg.slots[s]), envs[s], Rec(before, s), slots[s])
  }

  lemma ProgressStarts(cfg: Config, units: map<string, UnitState>, envs: map<string, EnvFile>,
                       slots: map<string, SlotRec>)
    requires envs.Keys == cfg.slots.Keys
    ensures Progress(cfg, units, envs, slots, slots, map[], cfg.slots.Keys)
  {
  }

  lemma ProgressStep(cfg: Config, units: map<string, UnitState>, envs: map<string, EnvFile>,
                     before: map<string, SlotRec>, slots: map<string, SlotRec>, out: map<string, SlotRec>,
                     left: set<string>, s: string, rec: SlotRec)
    requires envs.Keys == cfg.slots.Keys && Progress(cfg, units, envs, before, slots, out, left)
    requires s in left && s in cfg.slots && Turned(cfg, SightOf(units, cfg.slots[s]), envs[s], Rec(slots, s), rec)
    ensures Progress(cfg, units, envs, before, slots[s := rec], out[s := rec], left - {s})
  {
    hide Turned, SightOf;
  }

  lemma ProgressEnds(cfg: Config, units: map<string, UnitState>, envs: map<string, EnvFile>,
                     before: map<string, SlotRec>, slots: map<string, SlotRec>, out: map<string, SlotRec>)
    requires envs.Keys == cfg.slots.Keys && Progress(cfg, units, envs, before, slots, out, {})
    ensures Swept(cfg, units, envs, before, slots, out)
  {
    assert forall s | s in cfg.slots :: Done(cfg, units, envs, before, slots, out, s);
  }

  class SlotTable {
    const cfg: Config
    var slots: map<string, SlotRec>

    /** NewManager gives every configured slot an empty record. */
    constructor (cfg: Config)
      ensures this.cfg == cfg && slots == EmptyRecs(cfg)
    {
      this.cfg := cfg;
      slots := EmptyRecs(cfg);
    }

    /** Reconciles every configured slot in any order, keeping transitions and other records. */
    method SlotStates(units: map<string, UnitState>, envs: map<string, EnvFile>) returns (out: map<string, SlotRec>)
      requires envs.Keys == cfg.slots.Keys
      modifies this
      ensures Swept(cfg, units, envs, old(slots), slots, out)
    {
      hide Progress;
      out := map[];
      var left := cfg.slots.Keys;
      ProgressStarts(cfg, units, envs, slots);
      while left != {}
        invariant left <= cfg.slots.Keys && Progress(cfg, units, envs, old(slots), slots, out, left)
        decreases |left|
      {
        ghost var some := Member(left);
        var s :| s in left;
        var mode := ReconcileMode(cfg, SightOf(units, cfg.slots[s]), envs[s], Rec(slots, s).mode);
        var rec := Rec(slots, s).(mode := mode);
        assert Turned(cfg, SightOf(units, cfg.slots[s]), envs[s], Rec(slots, s), rec) by {
          TurnedBy(cfg, SightOf(units, cfg.slots[s]), envs[s], Rec(slots, s), mode);
        }
        ProgressStep(cfg, units, envs, old(slots), slots, out, left, s, rec);
        slots := slots[s := rec];
        out := out[s := rec];
        left := left - {s};
      }
      ProgressEnds(cfg, units, envs, old(slots), slots, out);
    }

    method SetTransition(s: string, loading: Option<Transition>, unloading: Option<Transition>)
      modifies this
      ensures slots == if s in old(slots) then old(slots)[s := SlotRec(old(slots)[s].mode, loading, unloading)]
                       else old(slots)
    {
      if s in slots {
        slots := slots[s := slots[s].(loading := loading, unloading := unloading)];
      }
    }

    method SetSlotMode(s: string, mode: string)
      modifies this
      ensures slots == if s in old(slots) then old(slots)[s := old(slots)[s].(mode := mode)] else old(slots)
    {
      if s in slots {
        slots := slots[s := slots[s].(mode := mode)];
      }
    }

    method ClearAllSlots()
      modifies this
      ensures slots == map s | s in old(slots) :: EMPTY_REC
    {
      var left := slots.Keys;
      while left != {}
        invariant left <= slots.Keys == old(slots.Keys)
        invariant forall s | s in slots && s !in left :: slots[s] == EMPTY_REC
        decreases |left|
      {
        ghost var some := Member(left);
        var s :| s in left;
        slots := slots[s := EMPTY_REC];
        left := left - {s};
      }
    }
  }

  /** How systemd reports a unit. */
  function StateOf(u: Unit): UnitState
  {
    match u
    case Gone => UnitState("inactive", "dead")
    case Activating => UnitState("activating", "start")
    case Active => UnitState("active", "running")
    case Deactivating(_) => UnitState("deactivating", "stop-sigterm")
  }

  /** The report shows the units as they are, but for those of the missing slots; at start-up none is missing. */
  ghost predicate Reports(cfg: Config, w: World, units: map<string, UnitState>, missing: set<string>)
    requires Shaped(cfg, w)
  {
    forall s | s in cfg.slots ::
      if s in missing then cfg.slots[s] !in units && w.op != Booting
      else cfg.slots[s] in units && SightOf(units, cfg.slots[s]) == Look(w.units[s])
  }

  /** A report on every configured slot but the missing ones. */
  function ReportOf(cfg: Config, units: map<string, Unit>, missing: set<string>): map<string, UnitState>
    requires cfg.slots.Keys <= units.Keys
    requires forall s, t | s in cfg.slots && t in cfg.slots && cfg.slots[s] == cfg.slots[t] :: s == t
  {
    map s | s in cfg.slots && s !in missing :: cfg.slots[s] := StateOf(units[s])
  }

  lemma SightOfState(units: map<string, UnitState>, name: string, u: Unit)
    requires name in units && units[name] == StateOf(u)
    ensures SightOf(units, name) == Look(u)
  {
  }

  lemma ReportIsCurrent(cfg: Config, w: World, missing: set<string>)
    requires CatalogConfig(cfg) && Shaped(cfg, w) && (w.op == Booting ==> missing == {})
    ensures Reports(cfg, w, ReportOf(cfg, w.units, missing), missing)
  {
    hide AliasesUnique, StateOf, SightOf, Look;
    var report := ReportOf(cfg, w.units, missing);
    forall s | s in cfg.slots && s !in missing
      ensures cfg.slots[s] in report && SightOf(report, cfg.slots[s]) == Look(w.units[s])
    {
      SightOfState(report, cfg.slots[s], w.units[s]);
    }
  }

  /** A unit that could not be read keeps its slot's record. */
  lemma UnreadUnitKeepsMode(cfg: Config, units: map<string, UnitState>, unit: string, env: EnvFile,
                            rec: SlotRec, rec': SlotRec)
    requires unit !in units
    ensures Turned(cfg, SightOf(units, unit), env, rec, rec') <==> rec' == rec
  {
  }

  /** The records hold these modes. */
  ghost predicate Holds(slots: map<string, SlotRec>, modes: map<string, string>)
  {
    slots.Keys == modes.Keys && forall s | s in modes :: slots[s].mode == modes[s]
  }

  function ModesOf(slots: map<string, SlotRec>): map<string, string>
  {
    map s | s in slots :: slots[s].mode
  }

  lemma ModesAreHeld(slots: map<string, SlotRec>)
    ensures Holds(slots, ModesOf(slots))
  {
  }

  /** What a pass makes of each slot's mode. */
  ghost predicate AllReconciled(cfg: Config, w: World, w': World, missing: set<string>)
    requires Shaped(cfg, w) && Shaped(cfg, w')
  {
    forall s | s in cfg.slots ::
      if s in missing then w'.modes[s] == w.modes[s]
      else Reconciles(cfg, Look(w.units[s]), w.envs[s], w.modes[s], w'.modes[s])
  }

  /** One pass of SlotStates over such a report reconciles the slots that were read and is a reconciliation
      step of the machine on the modes that the table holds. */
  lemma TableStepIsMachineStep(cfg: Config, w: World, w': World, units: map<string, UnitState>, missing: set<string>,
                               before: map<string, SlotRec>, after: map<string, SlotRec>, out: map<string, SlotRec>)
    requires Shaped(cfg, w) && Reports(cfg, w, units, missing) && Holds(before, w.modes)
    requires Swept(cfg, units, w.envs, before, after, out)
    requires w' == w.(modes := ModesOf(after), op := if w.op == Booting then Idle else w.op)
    ensures Holds(after, w'.modes) && Shaped(cfg, w') && AllReconciled(cfg, w, w', missing) && ReconcileStep(cfg, w, w')
  {
    ModesAreHeld(after);
    hide SightOf, ModesOf, Reconciles;
    forall s | s in cfg.slots
      ensures SlotReconciles(cfg, w, w', s)
      ensures if s in missing then w'.modes[s] == w.modes[s]
              else Reconciles(cfg, Look(w.units[s]), w.envs[s], w.modes[s], w'.modes[s])
    {
      if s in missing {
        UnreadUnitKeepsMode(cfg, units, cfg.slots[s], w.envs[s], before[s], after[s]);
      }
    }
  }

  // ---- Polling, in virtual seconds ----

  /** What a poll at each elapsed second would read; None when the read fails. */
  type Readings = nat -> Option<UnitState>

  predicate ShowsGone(r: Option<UnitState>)
  {
    r.Some? && (r.value.subState in {"dead", "failed", "inactive"} || r.value.activeState in {"inactive", "failed"})
  }

  /** The last poll of a loop that looks, gives up once elapsed has reached the timeout, and waits 2 s. */
  function LastPoll(timeout: int): (k: nat)
    ensures 2 * k >= timeout && (k == 0 || 2 * (k - 1) < timeout)
  {
    if timeout <= 0 then 0 else (timeout + 1) / 2
  }

  /** True exactly when some poll up to the timeout shows the unit gone, the one at or just past the
      timeout included. */
  method WaitUnitGone(at: Readings, timeout: int) returns (gone: bool, polls: nat)
    ensures gone <==> exists k: nat :: k <= LastPoll(timeout) && ShowsGone(at(2 * k))
    ensures gone ==> ShowsGone(at(2 * polls)) && forall k: nat | k < polls :: !ShowsGone(at(2 * k))
    ensures !gone ==> polls == LastPoll(timeout)
  {
    polls := 0;
    while true
      invariant polls <= LastPoll(timeout)
      invariant forall k: nat | k < polls :: !ShowsGone(at(2 * k))
      decreases LastPoll(timeout) - polls
    {
      if ShowsGone(at(2 * polls)) {
        return true, polls;
      }
      if 2 * polls >= timeout {
        return false, polls;
      }
      polls := polls + 1;
    }
  }

  ghost predicate NoneGone(seen: seq<UnitState>)
  {
    forall i | 0 <= i < |seen| :: !ShowsGone(Some(seen[i]))
  }

  /** The readings of a wait: none before the last shows the unit gone, the last one does if the wait
      succeeds, and all polls were made if it does not. */
  ghost predicate PolledUntilGone(seen: seq<UnitState>, timeout: int, gone: bool)
  {
    0 < |seen| <= LastPoll(timeout) + 1 && NoneGone(seen[..|seen| - 1]) &&
    if gone then ShowsGone(Some(seen[|seen| - 1])) else NoneGone(seen) && |seen| == LastPoll(timeout) + 1
  }

  lemma NotPolled(timeout: int)
    ensures NoneGone([])
  {
  }

  lemma PollOnce(seen: seq<UnitState>, reading: UnitState, u: Unit, timeout: int)
    requires NoneGone(seen) && reading == StateOf(u) && |seen| <= LastPoll(timeout)
    ensures ShowsGone(Some(reading)) <==> u == Gone
    ensures ShowsGone(Some(reading)) ==> PolledUntilGone(seen + [reading], timeout, true)
    ensures !ShowsGone(Some(reading)) ==> NoneGone(seen + [reading])
    ensures !ShowsGone(Some(reading)) && 2 * |seen| >= timeout ==> PolledUntilGone(seen + [reading], timeout, false)
    ensures 2 * |seen| < timeout ==> |seen| < LastPoll(timeout)
  {
    assert (seen + [reading])[..|seen|] == seen;
  }

  predicate InSub(r: Option<UnitState>, subs: set<string>)
  {
    r.Some? && r.value.subState in subs
  }

  const RUNNING: set<string> := {"running"}
  const STOPPED: set<string> := {"failed", "inactive", "dead"}
  const CRASHED: set<string> := {"failed", "inactive", "dead", "auto-restart"}

  /** The process is first seen running at poll k, in time, and was not seen stopped before. */
  ghost predicate UpAt(at: Readings, timeout: int, k: nat)
  {
    && k <= LastPoll(timeout) && InSub(at(2 * k), RUNNING)
    && forall j: nat | j < k :: !InSub(at(2 * j), RUNNING) && !InSub(at(2 * j), STOPPED)
  }

  /** It then answers /health at the j-th look, in time, and was not seen crashed up to then. */
  ghost predicate HealthyAt(at: Readings, healthy: nat -> bool, timeout: int, up: nat, j: nat)
  {
    && 3 * j < timeout && healthy(2 * up + 3 * j)
    && forall i: nat | i <= j :: !InSub(at(2 * up + 3 * i), CRASHED)
  }

  function StartupTimeout(configured: int): int
  {
    if configured == 0 then 120 else configured
  }

  /** The process comes up in time and, if it has a port, then answers /health in time without having
      crashed. */
  ghost predicate ComesUp(at: Readings, healthy: nat -> bool, port: int, configured: int)
  {
    exists k :: UpAt(at, StartupTimeout(configured), k) &&
                (port == 0 || exists j :: HealthyAt(at, healthy, StartupTimeout(configured), k, j))
  }

  /** True exactly when the service comes up. */
  method WaitServiceRunning(at: Readings, healthy: nat -> bool, port: int, configured: int) returns (ok: bool)
    ensures ok <==> ComesUp(at, healthy, port, configured)
  {
    var timeout := StartupTimeout(configured);
    var k: nat := 0;
    while !InSub(at(2 * k), RUNNING)
      invariant k <= LastPoll(timeout)
      invariant forall j: nat | j < k :: !InSub(at(2 * j), RUNNING) && !InSub(at(2 * j), STOPPED)
      decreases LastPoll(timeout) - k
    {
      if InSub(at(2 * k), STOPPED) || 2 * k >= timeout {
        assert forall u: nat :: !UpAt(at, timeout, u) by {
          NeverUp(at, timeout, k);
        }
        return false;
      }
      k := k + 1;
    }
    assert UpAt(at, timeout, k);
    UpOnce(at, timeout, k);
    if port == 0 {
      return true;
    }
    ok := WaitHealthy(at, healthy, timeout, k);
  }

  lemma NeverUp(at: Readings, timeout: int, k: nat)
    requires k <= LastPoll(timeout) && !InSub(at(2 * k), RUNNING)
    requires forall j: nat | j < k :: !InSub(at(2 * j), RUNNING)
    requires InSub(at(2 * k), STOPPED) || 2 * k >= timeout
    ensures forall u: nat :: !UpAt(at, timeout, u)
  {
  }

  lemma UpOnce(at: Readings, timeout: int, k: nat)
    requires UpAt(at, timeout, k)
    ensures forall u: nat :: UpAt(at, timeout, u) <==> u == k
  {
  }

  /** The second loop: look for a crash, then at /health, every 3 s until the deadline. */
  method WaitHealthy(at: Readings, healthy: nat -> bool, timeout: int, up: nat) returns (ok: bool)
    ensures ok <==> exists j :: HealthyAt(at, healthy, timeout, up, j)
  {
    var j: nat := 0;
    while 3 * j < timeout
      invariant forall i: nat | i < j :: !InSub(at(2 * up + 3 * i), CRASHED) && !healthy(2 * up + 3 * i)
      decreases timeout - 3 * j
    {
      if InSub(at(2 * up + 3 * j), CRASHED) {
        return false;
      }
      if healthy(2 * up + 3 * j) {
        assert HealthyAt(at, healthy, timeout, up, j);
        return true;
      }
      j := j + 1;
    }
    return false;
  }
}
