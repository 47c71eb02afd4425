/** Detection of stalled inference from metric scrapes. Times are integers on one clock. */
module HangDetector {
  import opened Wrappers

  /** One /metrics scrape of a port; the decode counters are absent on older servers. */
  datatype Metrics = Metrics(processing: real, promptTPS: real, predictedTPS: real,
    nDecode: Option<real>, nTokensMax: Option<real>)

  datatype Limits = Limits(minTPS: real, sustain: int, cooldown: int)

  datatype Event =
    | Switch(now: int)
    | Forget(port: int)
    | Scrape(now: int, port: int, metrics: Option<Metrics>)

  datatype State = State(cooldownUntil: Option<int>, stalledSince: map<int, int>,
    lastDecode: map<int, real>, lastMax: map<int, real>)

  const INITIAL: State := State(None, map[], map[], map[])

  // ---- One step ----

  function Lookup<K, V>(m: map<K, V>, k: K): Option<V>
  {
    if k in m then Some(m[k]) else None
  }

  predicate Cooling(until: Option<int>, now: int)
  {
    until.Some? && now < until.value
  }

  predicate GaugesFlow(l: Limits, m: Metrics)
  {
    m.promptTPS >= l.minTPS || m.predictedTPS >= l.minTPS
  }

  /** A counter advanced when it is present now, was seen before, and is larger. */
  predicate Advanced(before: Option<real>, now: Option<real>)
  {
    before.Some? && now.Some? && now.value > before.value
  }

  function Record(m: map<int, real>, port: int, x: Option<real>): map<int, real>
  {
    if x.Some? then m[port := x.value] else m
  }

  function OnSwitch(l: Limits, st: State, now: int): State
  {
    State(Some(now + l.cooldown), map[], map[], map[])
  }

  function OnForget(st: State, port: int): State
  {
    st.(stalledSince := st.stalledSince - {port}, lastDecode := st.lastDecode - {port}, lastMax := st.lastMax - {port})
  }

  /** State after a scrape, and whether it raises the alert. */
  function OnScrape(l: Limits, st: State, now: int, port: int, metrics: Option<Metrics>): (State, bool)
  {
    if Cooling(st.cooldownUntil, now) then (st.(stalledSince := map[]), false)
    else if metrics.None? then (OnForget(st, port), false)
    else
      var m := metrics.value;
      var gauges := GaugesFlow(l, m);
      var flowing := gauges || Advanced(Lookup(st.lastDecode, port), m.nDecode) ||
                     Advanced(Lookup(st.lastMax, port), m.nTokensMax);
      var seen := if gauges then st
        else st.(lastDecode := Record(st.lastDecode, port, m.nDecode),
                 lastMax := Record(st.lastMax, port, m.nTokensMax));
      if !(m.processing > 0.0) || flowing then (seen.(stalledSince := st.stalledSince - {port}), false)
      else if port !in st.stalledSince then (seen.(stalledSince := st.stalledSince[port := now]), false)
      else (seen, now - st.stalledSince[port] >= l.sustain)
  }

  class Detector {
    const limits: Limits
    var cooldownUntil: Option<int>
    var stalledSince: map<int, int>
    var lastDecode: map<int, real>
    var lastMax: map<int, real>

    function Abstract(): State
      reads this
    {
      State(cooldownUntil, stalledSince, lastDecode, lastMax)
    }

    constructor (limits: Limits)
      ensures this.limits == limits && Abstract() == INITIAL
    {
      this.limits := limits;
      cooldownUntil, stalledSince, lastDecode, lastMax := None, map[], map[], map[];
    }

    method NotifySwitchComplete(now: int)
      modifies this
      ensures Abstract() == OnSwitch(limits, old(Abstract()), now)
    {
      cooldownUntil := Some(now + limits.cooldown);
      stalledSince := map[];
      lastDecode := map[];
      lastMax := map[];
    }

    method ForgetPort(port: int)
      modifies this
      ensures Abstract() == OnForget(old(Abstract()), port)
    {
      stalledSince := stalledSince - {port};
      lastDecode := lastDecode - {port};
      lastMax := lastMax - {port};
    }

    /** Whether the live counters advanced; remembers them for the next scrape. */
    method DecodeAdvanced(port: int, m: Metrics) returns (advanced: bool)
      modifies this
      ensures advanced <==>
        Advanced(Lookup(old(lastDecode), port), m.nDecode) || Advanced(Lookup(old(lastMax), port), m.nTokensMax)
      ensures lastDecode == Record(old(lastDecode), port, m.nDecode)
      ensures lastMax == Record(old(lastMax), port, m.nTokensMax)
      ensures cooldownUntil == old(cooldownUntil) && stalledSince == old(stalledSince)
    {
      advanced := false;
      if m.nDecode.Some? {
        var seen, prev := port in lastDecode, if port in lastDecode then lastDecode[port] else 0.0;
        lastDecode := lastDecode[port := m.nDecode.value];
        if seen && m.nDecode.value > prev {
          advanced := true;
        }
      }
      if m.nTokensMax.Some? {
        var seen, prev := port in lastMax, if port in lastMax then lastMax[port] else 0.0;
        lastMax := lastMax[port := m.nTokensMax.value];
        if seen && m.nTokensMax.value > prev {
          advanced := true;
        }
      }
    }

    method Observe(now: int, port: int, metrics: Option<Metrics>) returns (alert: bool)
      modifies this
      ensures (Abstract(), alert) == OnScrape(limits, old(Abstract()), now, port, metrics)
    {
      if Cooling(cooldownUntil, now) {
        stalledSince := map[];
        return false;
      }
      if metrics.None? {
        ForgetPort(port);
        return false;
      }
      var m := metrics.value;
      var active := m.processing > 0.0;
      var flowing := m.promptTPS >= limits.minTPS || m.predictedTPS >= limits.minTPS;
      if !flowing {
        flowing := DecodeAdvanced(port, m);
      }
      if !active || flowing {
        stalledSince := stalledSince - {port};
        return false;
      }
      if port !in stalledSince {
        stalledSince := stalledSince[port := now];
        return false;
      }
      var stalled := now - stalledSince[port];
      if stalled < limits.sustain {
        return false;
      }
      return true;
    }
  }

  // ---- Whole histories ----

  function Step(l: Limits, st: State, e: Event): State
  {
    match e
    case Switch(now) => OnSwitch(l, st, now)
    case Forget(port) => OnForget(st, port)
    case Scrape(now, port, m) => OnScrape(l, st, now, port, m).0
  }

  function Run(l: Limits, h: seq<Event>): State
  {
    if h == [] then INITIAL else Step(l, Run(l, h[..|h| - 1]), h[|h| - 1])
  }

  function TimeOf(e: Event): Option<int>
  {
    if e.Forget? then None else Some(e.now)
  }

  /** The clock never runs backward. */
  ghost predicate Ordered(h: seq<Event>)
  {
    forall i, j | 0 <= i < j < |h| && TimeOf(h[i]).Some? && TimeOf(h[j]).Some? ::
      TimeOf(h[i]).value <= TimeOf(h[j]).value
  }

  /** End of the cooldown opened by the latest switch of a history. */
  ghost function CooldownEnd(l: Limits, h: seq<Event>): Option<int>
  {
    if h == [] then None
    else if h[|h| - 1].Switch? then Some(h[|h| - 1].now + l.cooldown)
    else CooldownEnd(l, h[..|h| - 1])
  }

  /** A port's remembered counters: those of its latest live scrape whose gauges were low, unless a
      switch, a forget or an unreachable scrape came after it. */
  ghost function Remembered(l: Limits, h: seq<Event>, port: int): (Option<real>, Option<real>)
  {
    if h == [] then (None, None)
    else
      var before := Remembered(l, h[..|h| - 1], port);
      match h[|h| - 1]
      case Switch(_) => (None, None)
      case Forget(p) => if p == port then (None, None) else before
      case Scrape(now, p, m) =>
        if p != port || Cooling(CooldownEnd(l, h[..|h| - 1]), now) then before
        else if m.None? then (None, None)
        else if GaugesFlow(l, m.value) then before
        else (if m.value.nDecode.Some? then m.value.nDecode else before.0,
              if m.value.nTokensMax.Some? then m.value.nTokensMax else before.1)
  }

  /** Event i is an active, below-threshold, non-advancing scrape of the port outside any cooldown. */
  ghost predicate Stalls(l: Limits, h: seq<Event>, i: nat, port: int)
    requires i < |h|
  {
    && h[i].Scrape? && h[i].port == port && h[i].metrics.Some?
    && !Cooling(CooldownEnd(l, h[..i]), h[i].now)
    && var m := h[i].metrics.value;
      && m.processing > 0.0
      && !GaugesFlow(l, m)
      && !Advanced(Remembered(l, h[..i], port).0, m.nDecode)
      && !Advanced(Remembered(l, h[..i], port).1, m.nTokensMax)
  }

  /** Event i ends a streak of the port: a switch, a forget, or any other scrape of the port. */
  ghost predicate Breaks(l: Limits, h: seq<Event>, i: nat, port: int)
    requires i < |h|
  {
    match h[i]
    case Switch(_) => true
    case Forget(p) => p == port
    case Scrape(_, p, _) => p == port && !Stalls(l, h, i, port)
  }

  /** A stalled scrape at i whose streak is unbroken up to the end of the history. */
  ghost predicate OpenStall(l: Limits, h: seq<Event>, i: nat, port: int)
    requires i < |h|
  {
    Stalls(l, h, i, port) && forall j | i < j < |h| :: !Breaks(l, h, j, port)
  }

  lemma PrefixStall(l: Limits, h: seq<Event>, e: Event, i: nat, port: int)
    requires i < |h|
    ensures Stalls(l, h + [e], i, port) == Stalls(l, h, i, port)
    ensures Breaks(l, h + [e], i, port) == Breaks(l, h, i, port)
  {
    assert (h + [e])[..i] == h[..i];
  }

  /** An open stall stays open exactly when the next event does not break the streak. */
  lemma OpenStallExtends(l: Limits, h: seq<Event>, e: Event, i: nat, port: int)
    requires i < |h|
    ensures OpenStall(l, h + [e], i, port) <==>
      OpenStall(l, h, i, port) && !Breaks(l, h + [e], |h|, port)
  {
    hide Stalls, Breaks;
    PrefixStall(l, h, e, i, port);
    forall j: nat | j < |h|
      ensures Breaks(l, h + [e], j, port) == Breaks(l, h, j, port)
    {
      PrefixStall(l, h, e, j, port);
    }
  }

  /** What the detector's state says about one port. */
  ghost predicate Tracks(l: Limits, h: seq<Event>, port: int)
  {
    var st := Run(l, h);
    && st.cooldownUntil == CooldownEnd(l, h)
    && Lookup(st.lastDecode, port) == Remembered(l, h, port).0
    && Lookup(st.lastMax, port) == Remembered(l, h, port).1
  }

  /** The stall timer of a port is the time of its earliest open stall. */
  ghost predicate TimerRight(l: Limits, h: seq<Event>, port: int)
  {
    var st := Run(l, h);
    if port in st.stalledSince then
      && (exists i: nat :: i < |h| && OpenStall(l, h, i, port) && TimeOf(h[i]) == Some(st.stalledSince[port]))
      && (forall i: nat | i < |h| && OpenStall(l, h, i, port) :: TimeOf(h[i]).value >= st.stalledSince[port])
      && (st.cooldownUntil.Some? ==> st.stalledSince[port] >= st.cooldownUntil.value)
    else
      forall i: nat | i < |h| :: !OpenStall(l, h, i, port)
  }

  lemma {:induction false} TracksAlways(l: Limits, h: seq<Event>, port: int)
    ensures Tracks(l, h, port)
  {
    if h != [] {
      var g, e := h[..|h| - 1], h[|h| - 1];
      TracksAlways(l, g, port);
      CountersStep(l, Run(l, g), e, port);
      hide OnScrape, OnForget, GaugesFlow;
    }
  }

  /** What one event does to a port's counters. */
  lemma CountersStep(l: Limits, st: State, e: Event, port: int)
    ensures var after := Step(l, st, e);
      var decode, max := Lookup(st.lastDecode, port), Lookup(st.lastMax, port);
      && after.cooldownUntil == (if e.Switch? then Some(e.now + l.cooldown) else st.cooldownUntil)
      && var kept := !e.Switch? && (e.port != port ||
           (e.Scrape? && (Cooling(st.cooldownUntil, e.now) || (e.metrics.Some? && GaugesFlow(l, e.metrics.value)))));
      && (kept ==> Lookup(after.lastDecode, port) == decode && Lookup(after.lastMax, port) == max)
      && (!kept && !(e.Scrape? && e.metrics.Some?) ==>
            Lookup(after.lastDecode, port) == None && Lookup(after.lastMax, port) == None)
      && (!kept && e.Scrape? && e.metrics.Some? ==>
            && Lookup(after.lastDecode, port) ==
                 (if e.metrics.value.nDecode.Some? then e.metrics.value.nDecode else decode)
            && Lookup(after.lastMax, port) ==
                 (if e.metrics.value.nTokensMax.Some? then e.metrics.value.nTokensMax else max))
  {
    hide GaugesFlow, Advanced, Cooling;
  }

  lemma {:induction false} TimerAlways(l: Limits, h: seq<Event>, port: int)
    requires Ordered(h)
    ensures TimerRight(l, h, port)
  {
    hide Stalls, Breaks, Remembered, CooldownEnd;
    if h != [] {
      var n := |h| - 1;
      var g, e := h[..n], h[n];
      TimerAlways(l, g, port);
      assert h == g + [e];
      TimerStep(l, g, e, port);
    }
  }

  lemma TimerStep(l: Limits, g: seq<Event>, e: Event, port: int)
    requires TimerRight(l, g, port) && Ordered(g + [e])
    ensures TimerRight(l, g + [e], port)
  {
    hide Stalls, Breaks, Remembered, CooldownEnd, OnScrape, OnForget, Ordered;
    var h := g + [e];
    var before, after := Run(l, g), Run(l, h);
    assert h[..|g|] == g;
    forall i: nat | i < |g|
      ensures OpenStall(l, h, i, port) <==> OpenStall(l, g, i, port) && !Breaks(l, h, |g|, port)
    {
      OpenStallExtends(l, g, e, i, port);
    }
    StepEffect(l, g, e, port);
    LastOpen(l, h, port);
    assert |h| == |g| + 1;
    if Breaks(l, h, |g|, port) {
      assert forall i: nat | i < |h| :: !OpenStall(l, h, i, port);
    } else {
      if port in before.stalledSince {
        var i: nat :| i < |g| && OpenStall(l, g, i, port) && TimeOf(g[i]) == Some(before.stalledSince[port]);
        assert OpenStall(l, h, i, port) && h[i] == g[i];
      } else if Stalls(l, h, |g|, port) {
        assert OpenStall(l, h, |g|, port) && h[|g|] == e;
      }
      forall i: nat | i < |h| && OpenStall(l, h, i, port)
        ensures port in after.stalledSince && TimeOf(h[i]).Some? && TimeOf(h[i]).value >= after.stalledSince[port]
      {
        StallIsScrape(l, h, i, port);
        if i < |g| {
          assert h[i] == g[i] && OpenStall(l, g, i, port);
        } else {
          assert h[i] == e;
        }
      }
    }
  }

  lemma StallIsScrape(l: Limits, h: seq<Event>, i: nat, port: int)
    requires i < |h| && Stalls(l, h, i, port)
    ensures h[i].Scrape? && h[i].port == port
  {
  }

  /** The scrape counts as stalled in the given state. */
  predicate StalledScrape(l: Limits, st: State, e: Event, port: int)
  {
    && e.Scrape? && e.port == port && e.metrics.Some?
    && !Cooling(st.cooldownUntil, e.now)
    && e.metrics.value.processing > 0.0
    && !GaugesFlow(l, e.metrics.value)
    && !Advanced(Lookup(st.lastDecode, port), e.metrics.value.nDecode)
    && !Advanced(Lookup(st.lastMax, port), e.metrics.value.nTokensMax)
  }

  /** What one event does to a port's stall timer. */
  lemma StalledStep(l: Limits, st: State, e: Event, port: int)
    ensures var after := Step(l, st, e).stalledSince;
      && (StalledScrape(l, st, e, port) ==>
            Lookup(after, port) == Some(if port in st.stalledSince then st.stalledSince[port] else e.now))
      && (e.Switch? || (e.port == port && !StalledScrape(l, st, e, port)) ==> port !in after)
      && (!e.Switch? && e.port != port ==>
            Lookup(after, port) ==
              if e.Scrape? && Cooling(st.cooldownUntil, e.now) then None else Lookup(st.stalledSince, port))
  {
  }

  lemma LastOpen(l: Limits, h: seq<Event>, port: int)
    requires h != []
    ensures OpenStall(l, h, |h| - 1, port) <==> Stalls(l, h, |h| - 1, port)
    ensures Stalls(l, h, |h| - 1, port) ==> !Breaks(l, h, |h| - 1, port)
  {
  }

  /** How the last event moves a port's timer. */
  lemma StepEffect(l: Limits, g: seq<Event>, e: Event, port: int)
    requires TimerRight(l, g, port) && Ordered(g + [e])
    ensures var h := g + [e]; var n := |g|;
      var before, after := Run(l, g), Run(l, h);
      && (Breaks(l, h, n, port) ==> port !in after.stalledSince)
      && (Stalls(l, h, n, port) ==>
            && port in after.stalledSince
            && after.stalledSince[port] == (if port in before.stalledSince then before.stalledSince[port] else e.now)
            && (port in before.stalledSince ==> e.now >= before.stalledSince[port])
            && after.cooldownUntil == before.cooldownUntil
            && (after.cooldownUntil.Some? ==> e.now >= after.cooldownUntil.value))
      && (!Breaks(l, h, n, port) && !Stalls(l, h, n, port) ==>
            && Lookup(after.stalledSince, port) == Lookup(before.stalledSince, port)
            && after.cooldownUntil == before.cooldownUntil)
  {
    var h := g + [e];
    var before := Run(l, g);
    assert h[..|g|] == g && h[|g|] == e;
    assert Run(l, h) == Step(l, before, e);
    TracksAlways(l, g, port);
    StalledStep(l, before, e, port);
    CountersStep(l, before, e, port);
    hide Step, Run, GaugesFlow, Advanced, Remembered, CooldownEnd;
    assert Stalls(l, h, |g|, port) == StalledScrape(l, before, e, port);
    if e.Scrape? && port in before.stalledSince {
      TimerBefore(l, g, e, port);
    }
  }

  lemma TimerBefore(l: Limits, g: seq<Event>, e: Event, port: int)
    requires TimerRight(l, g, port) && Ordered(g + [e])
    requires e.Scrape? && port in Run(l, g).stalledSince
    ensures Run(l, g).stalledSince[port] <= e.now
  {
    hide Run, Stalls, Breaks;
    var h := g + [e];
    var i: nat :| i < |g| && OpenStall(l, g, i, port) && TimeOf(g[i]) == Some(Run(l, g).stalledSince[port]);
    assert h[i] == g[i] && h[|g|] == e;
  }

  /** The alert rule: a scrape raises the alert exactly when it is stalled and an earlier stalled scrape
      of the same port, at least `sustain` ago, has had no break since. Other ports do not occur in it. */
  lemma AlertMeansSustainedStall(l: Limits, h: seq<Event>, now: int, port: int, metrics: Option<Metrics>)
    requires Ordered(h + [Scrape(now, port, metrics)])
    ensures var h' := h + [Scrape(now, port, metrics)];
      OnScrape(l, Run(l, h), now, port, metrics).1 <==>
        && Stalls(l, h', |h|, port)
        && exists i: nat :: i < |h| && OpenStall(l, h, i, port) && now - TimeOf(h[i]).value >= l.sustain
  {
    var e := Scrape(now, port, metrics);
    var h' := h + [e];
    assert h'[..|h|] == h && h'[|h|] == e;
    OrderedPrefix(h, e);
    TimerAlways(l, h, port);
    TracksAlways(l, h, port);
    hide Run, Remembered, CooldownEnd, OpenStall, Ordered, Breaks;
    assert OnScrape(l, Run(l, h), now, port, metrics).1 <==>
      Stalls(l, h', |h|, port) && port in Run(l, h).stalledSince && now - Run(l, h).stalledSince[port] >= l.sustain;
  }

  lemma OrderedPrefix(h: seq<Event>, e: Event)
    requires Ordered(h + [e])
    ensures Ordered(h)
  {
    var h' := h + [e];
    forall i, j | 0 <= i < j < |h| && TimeOf(h[i]).Some? && TimeOf(h[j]).Some?
      ensures TimeOf(h[i]).value <= TimeOf(h[j]).value
    {
      assert h'[i] == h[i] && h'[j] == h[j];
    }
  }
}
