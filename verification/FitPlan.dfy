/** The eviction-aware fit check of the engine. All figures are bytes. */
module FitPlan {
  import opened Wrappers

  /** A slot as reconciled: its mode ("" when empty) and the transitions in flight. */
  datatype Assignment = Assignment(mode: string, loading: Option<string>, unloading: Option<string>)

  /** What a fit check reads: slots in display order, live footprints, need estimates and the budget. */
  datatype Machine = Machine(
    modes: set<string>,
    order: seq<string>,
    slots: map<string, Assignment>,
    footprint: string -> nat,
    estimate: string -> Option<nat>,
    freeBytes: nat,
    comfy: Option<int>)

  datatype Plan = Plan(
    fits: bool, needBytes: nat, freeBytes: int, slot: string,
    evict: seq<string>, evictComfyUI: bool, comfyUIBytes: nat)

  /** A loaded slot and the memory that evicting it frees. */
  datatype Candidate = Candidate(slot: string, footprint: nat)

  ghost predicate ValidMachine(m: Machine)
  {
    && (forall s | s in m.order :: s in m.slots)
    && (forall i, j | 0 <= i < j < |m.order| :: m.order[i] != m.order[j])
  }

  // ---- Order of eviction ----

  predicate NameBefore(a: string, b: string)
  {
    b != [] && (a == [] || a[0] < b[0] || (a[0] == b[0] && NameBefore(a[1..], b[1..])))
  }

  /** Smallest footprint first, names breaking ties. */
  predicate Before(a: Candidate, b: Candidate)
  {
    a.footprint < b.footprint || (a.footprint == b.footprint && NameBefore(a.slot, b.slot))
  }

  ghost predicate Ascending(cs: seq<Candidate>)
  {
    forall i, j | 0 <= i < j < |cs| :: cs[i].footprint <= cs[j].footprint
  }

  function Insert(c: Candidate, cs: seq<Candidate>): seq<Candidate>
  {
    if cs == [] || Before(c, cs[0]) then [c] + cs else [cs[0]] + Insert(c, cs[1..])
  }

  function Sort(cs: seq<Candidate>): seq<Candidate>
  {
    if cs == [] then [] else Insert(cs[0], Sort(cs[1..]))
  }

  /** Memory freed by evicting the candidates whose slots are in the given set. */
  ghost function FreedBy(cs: seq<Candidate>, slots: set<string>): nat
  {
    if cs == [] then 0
    else (if cs[0].slot in slots then cs[0].footprint else 0) + FreedBy(cs[1..], slots)
  }

  function Footprints(cs: seq<Candidate>): nat
  {
    if cs == [] then 0 else Footprints(cs[..|cs| - 1]) + cs[|cs| - 1].footprint
  }

  ghost function SlotsOf(cs: seq<Candidate>): set<string>
  {
    set c | c in cs :: c.slot
  }

  function Names(cs: seq<Candidate>): (names: seq<string>)
    ensures |names| == |cs| && forall i | 0 <= i < |cs| :: names[i] == cs[i].slot
  {
    seq(|cs|, i requires 0 <= i < |cs| => cs[i].slot)
  }

  ghost predicate DistinctSlots(cs: seq<Candidate>)
  {
    forall i, j | 0 <= i < j < |cs| :: cs[i].slot != cs[j].slot
  }

  lemma {:induction false} InsertMembers(c: Candidate, cs: seq<Candidate>)
    ensures |Insert(c, cs)| == |cs| + 1
    ensures forall x :: x in Insert(c, cs) <==> x == c || x in cs
  {
    if cs != [] && !Before(c, cs[0]) {
      InsertMembers(c, cs[1..]);
    }
  }

  lemma {:induction false} InsertAscending(c: Candidate, cs: seq<Candidate>)
    requires Ascending(cs)
    ensures Ascending(Insert(c, cs))
  {
    if cs == [] {
    } else if Before(c, cs[0]) {
      hide Before;
      AscendingCons(c, cs);
    } else {
      InsertAscending(c, cs[1..]);
      InsertMembers(c, cs[1..]);
      AscendingCons(cs[0], Insert(c, cs[1..]));
    }
  }

  lemma AscendingCons(c: Candidate, cs: seq<Candidate>)
    requires Ascending(cs) && forall x | x in cs :: c.footprint <= x.footprint
    ensures Ascending([c] + cs)
  {
  }

  lemma {:induction false} InsertFreed(c: Candidate, cs: seq<Candidate>, slots: set<string>)
    ensures FreedBy(Insert(c, cs), slots) == (if c.slot in slots then c.footprint else 0) + FreedBy(cs, slots)
  {
    if cs == [] || Before(c, cs[0]) {
      assert ([c] + cs)[1..] == cs;
    } else {
      InsertFreed(c, cs[1..], slots);
      assert ([cs[0]] + Insert(c, cs[1..]))[1..] == Insert(c, cs[1..]);
    }
  }

  lemma {:induction false} InsertDistinct(c: Candidate, cs: seq<Candidate>)
    requires DistinctSlots(cs) && forall x | x in cs :: x.slot != c.slot
    ensures DistinctSlots(Insert(c, cs))
  {
    if cs != [] && !Before(c, cs[0]) {
      InsertDistinct(c, cs[1..]);
      InsertMembers(c, cs[1..]);
      assert forall x | x in cs[1..] :: x.slot != cs[0].slot;
    }
  }

  /** Sorting reorders the candidates, ascending by footprint. */
  lemma {:induction false} SortKeeps(cs: seq<Candidate>, slots: set<string>)
    ensures Ascending(Sort(cs))
    ensures |Sort(cs)| == |cs|
    ensures forall x :: x in Sort(cs) <==> x in cs
    ensures FreedBy(Sort(cs), slots) == FreedBy(cs, slots)
    ensures DistinctSlots(cs) ==> DistinctSlots(Sort(cs))
  {
    hide Ascending, Insert, Before;
    if cs == [] {
      assert Ascending([]) by { NothingAscending(); }
    } else {
      SortKeeps(cs[1..], slots);
      var rest := Sort(cs[1..]);
      InsertMembers(cs[0], rest);
      InsertAscending(cs[0], rest);
      InsertFreed(cs[0], rest, slots);
      if DistinctSlots(cs) {
        assert forall x | x in cs[1..] :: x.slot != cs[0].slot;
        InsertDistinct(cs[0], rest);
      }
    }
  }

  lemma NothingAscending()
    ensures Ascending([])
  {
  }

  // ---- The quantities of the plan ----

  /** Need of every other mode whose load has started but is not finished. */
  function InFlight(m: Machine, mode: string, n: nat): nat
    requires n <= |m.order| && forall s | s in m.order :: s in m.slots
  {
    if n == 0 then 0
    else
      var loading := m.slots[m.order[n - 1]].loading;
      InFlight(m, mode, n - 1) +
      if loading.Some? && loading.value != "" && loading.value != mode && m.estimate(loading.value).Some?
      then m.estimate(loading.value).value else 0
  }

  function EffectiveFree(m: Machine, mode: string): int
    requires forall s | s in m.order :: s in m.slots
  {
    m.freeBytes - InFlight(m, mode, |m.order|)
  }

  /** The loaded slots among the first n, in display order. */
  function Loaded(m: Machine, n: nat): (cs: seq<Candidate>)
    requires n <= |m.order| && forall s | s in m.order :: s in m.slots
    ensures forall c | c in cs :: c.footprint == m.footprint(c.slot)
  {
    if n == 0 then []
    else
      var s := m.order[n - 1];
      Loaded(m, n - 1) + if m.slots[s].mode != "" then [Candidate(s, m.footprint(s))] else []
  }

  function Candidates(m: Machine): seq<Candidate>
    requires forall s | s in m.order :: s in m.slots
  {
    Loaded(m, |m.order|)
  }

  function FreeSlots(m: Machine, n: nat): seq<string>
    requires n <= |m.order| && forall s | s in m.order :: s in m.slots
  {
    if n == 0 then []
    else
      var s := m.order[n - 1];
      FreeSlots(m, n - 1) + if m.slots[s] == Assignment("", None, None) then [s] else []
  }

  function ComfyBytes(m: Machine): nat
  {
    if m.comfy.Some? && m.comfy.value > 0 then m.comfy.value else 0
  }

  /** The candidates' slots are the loaded ones. */
  lemma {:induction false} LoadedSlots(m: Machine, n: nat, s: string)
    requires ValidMachine(m) && n <= |m.order|
    ensures s in SlotsOf(Loaded(m, n)) <==> s in m.order[..n] && m.slots[s].mode != ""
  {
    if n > 0 {
      hide SlotsOf;
      LoadedSlots(m, n - 1, s);
      LoadedStep(m, n);
      hide Loaded;
      var last := m.order[n - 1];
      assert s in m.order[..n] <==> s in m.order[..n - 1] || s == last;
      SlotsOfAppend(Loaded(m, n - 1), Candidate(last, m.footprint(last)), s);
    }
  }

  lemma LoadedStep(m: Machine, n: nat)
    requires ValidMachine(m) && 0 < n <= |m.order|
    ensures var last := m.order[n - 1];
      Loaded(m, n) == Loaded(m, n - 1) + if m.slots[last].mode != "" then [Candidate(last, m.footprint(last))] else []
    ensures m.order[..n] == m.order[..n - 1] + [m.order[n - 1]]
  {
  }

  lemma SlotsOfAppend(cs: seq<Candidate>, c: Candidate, s: string)
    ensures s in SlotsOf(cs + [c]) <==> s in SlotsOf(cs) || s == c.slot
    ensures SlotsOf(cs + []) == SlotsOf(cs)
  {
    assert cs + [] == cs;
    assert c in cs + [c];
    if s in SlotsOf(cs) {
      var x :| x in cs && x.slot == s;
      assert x in cs + [c];
    }
  }

  lemma {:induction false} LoadedDistinct(m: Machine, n: nat)
    requires ValidMachine(m) && n <= |m.order|
    ensures DistinctSlots(Loaded(m, n))
    ensures forall s :: s in SlotsOf(Loaded(m, n)) <==> s in m.order[..n] && m.slots[s].mode != ""
  {
    forall s
      ensures s in SlotsOf(Loaded(m, n)) <==> s in m.order[..n] && m.slots[s].mode != ""
    {
      LoadedSlots(m, n, s);
    }
    if n > 0 {
      LoadedDistinct(m, n - 1);
      assert m.order[n - 1] !in m.order[..n - 1];
    }
  }

  lemma {:induction false} FootprintsFreed(cs: seq<Candidate>, slots: set<string>)
    ensures FreedBy(cs, slots) <= Footprints(cs)
    ensures SlotsOf(cs) <= slots ==> FreedBy(cs, slots) == Footprints(cs)
  {
    if cs != [] {
      var n := |cs| - 1;
      FootprintsFreed(cs[..n], slots);
      assert cs == cs[..n] + [cs[n]];
      FreedByAppend(cs[..n], [cs[n]], slots);
      assert SlotsOf(cs[..n]) <= SlotsOf(cs) by {
        assert forall c | c in cs[..n] :: c in cs;
      }
      assert cs[n].slot in SlotsOf(cs);
    }
  }

  lemma {:induction false} FreedByAppend(a: seq<Candidate>, b: seq<Candidate>, slots: set<string>)
    ensures FreedBy(a + b, slots) == FreedBy(a, slots) + FreedBy(b, slots)
  {
    if a == [] {
      assert a + b == b;
    } else {
      FreedByAppend(a[1..], b, slots);
      assert (a + b)[1..] == a[1..] + b;
    }
  }

  /** Sorting does not change the memory that all candidates hold. */
  lemma SortTotal(cs: seq<Candidate>)
    ensures Footprints(Sort(cs)) == Footprints(cs)
  {
    var all := SlotsOf(cs);
    SortKeeps(cs, all);
    assert SlotsOf(Sort(cs)) == all;
    FootprintsFreed(cs, all);
    FootprintsFreed(Sort(cs), all);
  }

  /** The shortest prefix of the eviction order that covers the shortfall, or all of it. */
  ghost predicate ShortestPrefix(cs: seq<Candidate>, shortfall: int, k: int)
  {
    && 0 <= k <= |cs|
    && (k < |cs| ==> Footprints(cs[..k]) >= shortfall)
    && (k > 0 ==> Footprints(cs[..k - 1]) < shortfall)
  }

  // ---- The plan ----

  ghost predicate Refused(p: Plan)
  {
    !p.fits && p.evict == [] && !p.evictComfyUI
  }

  /** The eviction loop: smallest footprints until the budget covers the need. */
  method EvictSmallest(sorted: seq<Candidate>, effective: int, need: nat)
      returns (evict: seq<string>, recovered: nat, ghost k: nat)
    ensures ShortestPrefix(sorted, need - effective, k)
    ensures evict == Names(sorted[..k]) && recovered == Footprints(sorted[..k])
    ensures recovered <= Footprints(sorted)
    ensures effective + recovered < need ==> k == |sorted| && recovered == Footprints(sorted)
    ensures |evict| == k && (k == 0 ==> recovered == 0)
  {
    var i := 0;
    evict, recovered := [], 0;
    while i < |sorted|
      invariant 0 <= i <= |sorted|
      invariant evict == Names(sorted[..i]) && recovered == Footprints(sorted[..i])
      invariant i > 0 ==> Footprints(sorted[..i - 1]) < need - effective
    {
      if effective + recovered >= need {
        break;
      }
      assert sorted[..i + 1][..i] == sorted[..i];
      evict := evict + [sorted[i].slot];
      recovered := recovered + sorted[i].footprint;
      i := i + 1;
    }
    k := i;
    assert i == |sorted| ==> sorted[..i] == sorted;
    PrefixTotal(sorted, i);
  }

  lemma NothingScanned(m: Machine, mode: string)
    requires ValidMachine(m)
    ensures FreeSlots(m, 0) == [] && InFlight(m, mode, 0) == 0 && Loaded(m, 0) == []
  {
  }

  /** One more slot in each of the three scans over the display order. */
  lemma ScanSlot(m: Machine, mode: string, i: nat)
    requires ValidMachine(m) && i < |m.order|
    ensures var s := m.order[i]; var a := m.slots[s];
      && FreeSlots(m, i + 1) == (if a.mode == "" && a.unloading.None? && a.loading.None?
                                 then FreeSlots(m, i) + [s] else FreeSlots(m, i))
      && InFlight(m, mode, i + 1) == InFlight(m, mode, i) +
           (if a.loading.Some? && a.loading.value != "" && a.loading.value != mode && m.estimate(a.loading.value).Some?
            then m.estimate(a.loading.value).value else 0)
      && Loaded(m, i + 1) == (if a.mode != "" then Loaded(m, i) + [Candidate(s, m.footprint(s))] else Loaded(m, i))
  {
  }

  /** FitPlan: need against effective free memory, then smallest-first eviction, then ComfyUI. */
  method FitPlan(m: Machine, mode: string) returns (p: Plan)
    requires ValidMachine(m)
    ensures mode !in m.modes || m.estimate(mode).None? ==> Refused(p) && p.slot == "" && p.needBytes == 0
    ensures mode in m.modes && m.estimate(mode).Some? ==> PlanFor(m, mode, m.estimate(mode).value, p)
  {
    hide Sort, Footprints, ShortestPrefix, Names, FreeSlots, InFlight, Loaded;
    NothingScanned(m, mode);
    if mode !in m.modes {
      return Plan(false, 0, 0, "", [], false, 0);
    }
    var weight := m.estimate(mode);
    if weight.None? {
      return Plan(false, 0, m.freeBytes, "", [], false, 0);
    }
    var need := weight.value;
    var freeSlots := [];
    for i := 0 to |m.order|
      invariant freeSlots == FreeSlots(m, i)
    {
      var a := m.slots[m.order[i]];
      ScanSlot(m, mode, i);
      if a.mode == "" && a.unloading.None? && a.loading.None? {
        freeSlots := freeSlots + [m.order[i]];
      }
    }
    var inFlight := 0;
    for i := 0 to |m.order|
      invariant inFlight == InFlight(m, mode, i)
    {
      var a := m.slots[m.order[i]];
      ScanSlot(m, mode, i);
      if a.loading.Some? && a.loading.value != "" && a.loading.value != mode {
        var est := m.estimate(a.loading.value);
        if est.Some? {
          inFlight := inFlight + est.value;
        }
      }
    }
    var effective := m.freeBytes - inFlight;
    if need <= effective {
      return Plan(true, need, effective, if |freeSlots| > 0 then freeSlots[0] else "", [], false, 0);
    }
    var candidates := [];
    for i := 0 to |m.order|
      invariant candidates == Loaded(m, i)
    {
      var name := m.order[i];
      ScanSlot(m, mode, i);
      if m.slots[name].mode != "" {
        candidates := candidates + [Candidate(name, m.footprint(name))];
      }
    }
    var sorted := Sort(candidates);
    var evict, recovered, k := EvictSmallest(sorted, effective, need);
    SortTotal(candidates);
    var comfyBytes := 0;
    if effective + recovered < need && m.comfy.Some? {
      if m.comfy.value > 0 {
        comfyBytes := m.comfy.value;
        recovered := recovered + comfyBytes;
      }
    }
    if effective + recovered >= need {
      if comfyBytes > 0 {
        p := Plan(false, need, effective, "", evict, true, comfyBytes);
        if |evict| > 0 {
          p := p.(slot := evict[0]);
        } else if |freeSlots| > 0 {
          p := p.(fits := true, slot := freeSlots[0]);
        }
        return p;
      }
      return Plan(false, need, effective, evict[0], evict, false, 0);
    }
    return Plan(false, need, effective, "", [], false, 0);
  }

  lemma {:induction false} PrefixTotal(cs: seq<Candidate>, k: nat)
    requires k <= |cs|
    ensures Footprints(cs[..k]) <= Footprints(cs)
    decreases |cs|
  {
    if k < |cs| {
      PrefixTotal(cs[..|cs| - 1], k);
      assert cs[..|cs| - 1][..k] == cs[..k];
    } else {
      assert cs[..k] == cs;
    }
  }

  /** The verdict on a mode that needs `need` bytes, field by field. */
  ghost predicate PlanFor(m: Machine, mode: string, need: nat, p: Plan)
    requires ValidMachine(m)
  {
    var effective := EffectiveFree(m, mode);
    var loaded := Footprints(Candidates(m));
    var sorted := Sort(Candidates(m));
    var free := FreeSlots(m, |m.order|);
    && p.needBytes == need && p.freeBytes == effective
    && (Refused(p) <==> need > effective + loaded + ComfyBytes(m))
    && (p.evictComfyUI <==> effective + loaded < need <= effective + loaded + ComfyBytes(m))
    && p.comfyUIBytes == (if p.evictComfyUI then ComfyBytes(m) else 0)
    && (p.fits <==> need <= effective || (p.evictComfyUI && sorted == [] && free != []))
    && (if Refused(p) || need <= effective then p.evict == []
        else exists k :: ShortestPrefix(sorted, need - effective, k) && p.evict == Names(sorted[..k]))
    && p.slot == (if Refused(p) then "" else if p.evict != [] then p.evict[0]
                  else if free != [] then free[0] else "")
  }

  // ---- What the eviction list is worth ----

  lemma {:induction false} SmallerAreInPrefix(cs: seq<Candidate>, slots: set<string>, k: nat)
    requires Ascending(cs) && k < |cs|
    requires forall c | c in cs && c.slot in slots :: c.footprint < cs[k].footprint
    ensures FreedBy(cs, slots) <= Footprints(cs[..k])
  {
    FootprintsFreed(cs[..k], slots);
    FreedByAppend(cs[..k], cs[k..], slots);
    assert cs == cs[..k] + cs[k..];
    assert forall c | c in cs[k..] :: c.slot !in slots;
    NoneFreed(cs[k..], slots);
  }

  lemma {:induction false} NoneFreed(cs: seq<Candidate>, slots: set<string>)
    requires forall c | c in cs :: c.slot !in slots
    ensures FreedBy(cs, slots) == 0
  {
    if cs != [] {
      NoneFreed(cs[1..], slots);
    }
  }

  /** The prefix of the eviction order that a plan lists. */
  lemma PlanPrefix(m: Machine, mode: string, need: nat, p: Plan) returns (k: nat)
    requires ValidMachine(m) && PlanFor(m, mode, need, p)
    requires !Refused(p) && need > EffectiveFree(m, mode)
    ensures k <= |Sort(Candidates(m))|
    ensures ShortestPrefix(Sort(Candidates(m)), need - EffectiveFree(m, mode), k)
    ensures p.evict == Names(Sort(Candidates(m))[..k])
    ensures p.evictComfyUI <==> Footprints(Candidates(m)) < need - EffectiveFree(m, mode)
    ensures need - EffectiveFree(m, mode) <= Footprints(Candidates(m)) + p.comfyUIBytes
    ensures p.comfyUIBytes == if p.evictComfyUI then ComfyBytes(m) else 0
  {
    hide Sort, Candidates, EffectiveFree, Names, Footprints, FreeSlots, ComfyBytes;
    var i :| ShortestPrefix(Sort(Candidates(m)), need - EffectiveFree(m, mode), i)
      && p.evict == Names(Sort(Candidates(m))[..i]);
    k := i;
  }

  /** A plan that evicts is neither a refusal nor an immediate fit. */
  lemma EvictingPlan(m: Machine, mode: string, need: nat, p: Plan)
    requires ValidMachine(m) && PlanFor(m, mode, need, p) && (p.evict != [] || p.evictComfyUI)
    ensures !Refused(p) && need > EffectiveFree(m, mode)
  {
  }

  lemma SortedCandidates(m: Machine, slots: set<string>)
    requires ValidMachine(m)
    ensures var cs, sorted := Candidates(m), Sort(Candidates(m));
      && Ascending(sorted) && DistinctSlots(sorted)
      && (forall x :: x in sorted <==> x in cs)
      && (forall x | x in sorted :: x.footprint == m.footprint(x.slot))
      && FreedBy(sorted, slots) == FreedBy(cs, slots)
      && Footprints(sorted) == Footprints(cs)
  {
    hide Sort, Ascending, FreedBy, Footprints;
    SortKeeps(Candidates(m), slots);
    SortTotal(Candidates(m));
    LoadedDistinct(m, |m.order|);
  }

  lemma Bottleneck(cs: seq<Candidate>, shortfall: int, k: nat, slots: set<string>) returns (c: Candidate)
    requires Ascending(cs) && 0 < k <= |cs| && ShortestPrefix(cs, shortfall, k)
    requires FreedBy(cs, slots) >= shortfall
    ensures c in cs && c.slot in slots && cs[k - 1].footprint <= c.footprint
  {
    if forall c | c in cs && c.slot in slots :: c.footprint < cs[k - 1].footprint {
      SmallerAreInPrefix(cs, slots, k - 1);
      assert false;
    }
    c :| c in cs && c.slot in slots && cs[k - 1].footprint <= c.footprint;
  }

  /** Bottleneck optimality: any set of loaded slots that frees enough holds one at least as large as
      every slot evicted. */
  lemma EvictionIsBottleneckOptimal(m: Machine, mode: string, need: nat, p: Plan, slots: set<string>)
      returns (c: Candidate)
    requires ValidMachine(m) && PlanFor(m, mode, need, p) && p.evict != []
    requires EffectiveFree(m, mode) + FreedBy(Candidates(m), slots) >= need
    ensures c in Candidates(m) && c.slot in slots
    ensures forall e | e in p.evict :: m.footprint(e) <= c.footprint
  {
    hide Sort, Candidates, EffectiveFree, ShortestPrefix, Footprints, FreedBy, PlanFor;
    var sorted := Sort(Candidates(m));
    EvictingPlan(m, mode, need, p);
    var k := PlanPrefix(m, mode, need, p);
    SortedCandidates(m, slots);
    c := Bottleneck(sorted, need - EffectiveFree(m, mode), k, slots);
    forall e | e in p.evict
      ensures m.footprint(e) <= c.footprint
    {
      var i :| 0 <= i < k && p.evict[i] == e;
      assert sorted[i] in sorted;
    }
  }

  /** Each loaded slot is listed at most once, smallest first, and nothing else is listed. */
  lemma EvictionListsLoadedSlotsOnce(m: Machine, mode: string, need: nat, p: Plan)
    requires ValidMachine(m) && PlanFor(m, mode, need, p)
    ensures forall i, j | 0 <= i < j < |p.evict| ::
      p.evict[i] != p.evict[j] && m.footprint(p.evict[i]) <= m.footprint(p.evict[j])
    ensures forall e | e in p.evict :: e in m.order && m.slots[e].mode != ""
    ensures p.evictComfyUI ==> forall s | s in m.order && m.slots[s].mode != "" :: s in p.evict
  {
    hide Sort, Candidates, EffectiveFree, Footprints, PlanFor, Refused;
    if p.evict != [] || p.evictComfyUI {
      var cs, sorted := Candidates(m), Sort(Candidates(m));
      EvictingPlan(m, mode, need, p);
      var k := PlanPrefix(m, mode, need, p);
      SortedCandidates(m, {});
      CandidateSlots(m);
      forall i | 0 <= i < |p.evict|
        ensures p.evict[i] in SlotsOf(cs) && sorted[i].footprint == m.footprint(p.evict[i])
      {
        assert sorted[i] in sorted;
      }
      if p.evictComfyUI {
        assert k == |sorted| by {
          assert sorted[..|sorted|] == sorted;
          PrefixTotal(sorted, k);
        }
        forall s | s in SlotsOf(cs)
          ensures s in p.evict
        {
          var c :| c in cs && c.slot == s;
          var i :| 0 <= i < |sorted| && sorted[i] == c;
          assert p.evict[i] == s;
        }
      }
    }
  }

  lemma CandidateSlots(m: Machine)
    requires ValidMachine(m)
    ensures forall s :: s in SlotsOf(Candidates(m)) <==> s in m.order && m.slots[s].mode != ""
  {
    LoadedDistinct(m, |m.order|);
    assert m.order[..|m.order|] == m.order;
  }

  function EvictedBytes(m: Machine, evict: seq<string>): nat
  {
    if evict == [] then 0 else EvictedBytes(m, evict[..|evict| - 1]) + m.footprint(evict[|evict| - 1])
  }

  lemma {:induction false} EvictedIsPrefix(m: Machine, cs: seq<Candidate>, k: nat)
    requires k <= |cs| && forall c | c in cs :: c.footprint == m.footprint(c.slot)
    ensures EvictedBytes(m, Names(cs[..k])) == Footprints(cs[..k])
  {
    if k > 0 {
      EvictedIsPrefix(m, cs, k - 1);
      assert cs[..k][..k - 1] == cs[..k - 1];
      assert Names(cs[..k])[..k - 1] == Names(cs[..k - 1]);
      assert cs[k - 1] in cs;
    }
  }

  /** What the evictions free: all of them, and all but the last. */
  lemma EvictedTotals(m: Machine, mode: string, need: nat, p: Plan) returns (k: nat)
    requires ValidMachine(m) && PlanFor(m, mode, need, p)
    requires !Refused(p) && need > EffectiveFree(m, mode)
    ensures k == |p.evict| <= |Sort(Candidates(m))|
    ensures ShortestPrefix(Sort(Candidates(m)), need - EffectiveFree(m, mode), k)
    ensures EvictedBytes(m, p.evict) == Footprints(Sort(Candidates(m))[..k])
    ensures k > 0 ==> EvictedBytes(m, p.evict[..k - 1]) == Footprints(Sort(Candidates(m))[..k - 1])
  {
    hide Sort, Candidates, EffectiveFree, Footprints, PlanFor, Refused, EvictedBytes;
    var sorted := Sort(Candidates(m));
    k := PlanPrefix(m, mode, need, p);
    SortedCandidates(m, {});
    EvictedIsPrefix(m, sorted, k);
    if k > 0 {
      EvictedIsPrefix(m, sorted, k - 1);
      assert p.evict[..k - 1] == Names(sorted[..k - 1]);
    }
  }

  /** The listed evictions, with ComfyUI when proposed, free enough, and the evictions without the last
      never do by themselves. */
  lemma EvictionSuffices(m: Machine, mode: string, need: nat, p: Plan)
    requires ValidMachine(m) && PlanFor(m, mode, need, p)
    requires !Refused(p) && need > EffectiveFree(m, mode)
    ensures EffectiveFree(m, mode) + EvictedBytes(m, p.evict) + p.comfyUIBytes >= need
    ensures p.evict != [] ==> EffectiveFree(m, mode) + EvictedBytes(m, p.evict[..|p.evict| - 1]) < need
  {
    hide Sort, Candidates, EffectiveFree, Footprints, PlanFor, Refused, EvictedBytes;
    var sorted := Sort(Candidates(m));
    var j := PlanPrefix(m, mode, need, p);
    var k := EvictedTotals(m, mode, need, p);
    SortedCandidates(m, {});
    assert sorted[..|sorted|] == sorted;
  }

  /** With ComfyUI stopped too, the last eviction is needed exactly when ComfyUI and all loaded slots but
      the largest leave the mode short. */
  lemma LastEvictionWithComfyUI(m: Machine, mode: string, need: nat, p: Plan, largest: Candidate)
    requires ValidMachine(m) && PlanFor(m, mode, need, p) && p.evictComfyUI && p.evict != []
    requires largest in Candidates(m) && forall c | c in Candidates(m) :: c.footprint <= largest.footprint
    ensures EffectiveFree(m, mode) + EvictedBytes(m, p.evict[..|p.evict| - 1]) + p.comfyUIBytes < need <==>
      EffectiveFree(m, mode) + Footprints(Candidates(m)) - largest.footprint + ComfyBytes(m) < need
  {
    hide Sort, Candidates, EffectiveFree, PlanFor, Refused, EvictedBytes, ComfyBytes, Footprints, Ascending;
    var sorted := Sort(Candidates(m));
    EvictingPlan(m, mode, need, p);
    var j := PlanPrefix(m, mode, need, p);
    var k := EvictedTotals(m, mode, need, p);
    SortedCandidates(m, {});
    assert k == |sorted| by {
      assert sorted[..|sorted|] == sorted;
      PrefixTotal(sorted, k);
    }
    LargestIsLast(sorted, largest);
  }

  lemma LargestIsLast(cs: seq<Candidate>, largest: Candidate)
    requires Ascending(cs) && largest in cs && forall c | c in cs :: c.footprint <= largest.footprint
    ensures cs[|cs| - 1].footprint == largest.footprint
    ensures Footprints(cs) == Footprints(cs[..|cs| - 1]) + largest.footprint
  {
  }

  /** A plan that leaves out one listed slot still makes room. */
  ghost predicate Spares(m: Machine, mode: string, need: nat, p: Plan, slot: string)
    requires ValidMachine(m)
  {
    EffectiveFree(m, mode) + EvictedBytes(m, p.evict) - m.footprint(slot) + p.comfyUIBytes >= need
  }

  /** Some listed slot could stay exactly when the first, smallest one could. */
  lemma NeedlessEviction(m: Machine, mode: string, need: nat, p: Plan)
    requires ValidMachine(m) && PlanFor(m, mode, need, p) && p.evict != []
    ensures (exists slot | slot in p.evict :: Spares(m, mode, need, p, slot)) <==> Spares(m, mode, need, p, p.evict[0])
  {
    hide PlanFor, EvictedBytes, EffectiveFree;
    EvictionListsLoadedSlotsOnce(m, mode, need, p);
    assert p.evict[0] in p.evict;
    forall slot | slot in p.evict
      ensures m.footprint(p.evict[0]) <= m.footprint(slot)
    {
      var i :| 0 <= i < |p.evict| && p.evict[i] == slot;
    }
  }

  /** With ComfyUI proposed, some listed slot could stay exactly when the free memory, ComfyUI and all
      loaded slots but the smallest cover the need. */
  lemma NeedlessWithComfyUI(m: Machine, mode: string, need: nat, p: Plan, smallest: Candidate)
    requires ValidMachine(m) && PlanFor(m, mode, need, p) && p.evictComfyUI && p.evict != []
    requires smallest in Candidates(m) && forall c | c in Candidates(m) :: smallest.footprint <= c.footprint
    ensures (exists slot | slot in p.evict :: Spares(m, mode, need, p, slot)) <==>
      EffectiveFree(m, mode) + Footprints(Candidates(m)) - smallest.footprint + ComfyBytes(m) >= need
  {
    NeedlessEviction(m, mode, need, p);
    AllEvicted(m, mode, need, p);
    hide Sort, Candidates, EffectiveFree, PlanFor, Refused, EvictedBytes, ComfyBytes, Footprints, Ascending;
    EvictingPlan(m, mode, need, p);
    var j := PlanPrefix(m, mode, need, p);
    SortedCandidates(m, {});
    SmallestIsFirst(Sort(Candidates(m)), smallest);
    assert p.evict[0] == Sort(Candidates(m))[0].slot;
  }

  /** When ComfyUI is proposed every loaded slot is listed. */
  lemma AllEvicted(m: Machine, mode: string, need: nat, p: Plan)
    requires ValidMachine(m) && PlanFor(m, mode, need, p) && p.evictComfyUI
    ensures EvictedBytes(m, p.evict) == Footprints(Candidates(m)) && p.comfyUIBytes == ComfyBytes(m)
  {
    hide Sort, Candidates, EffectiveFree, PlanFor, Refused, EvictedBytes, ComfyBytes, Footprints, Ascending;
    var sorted := Sort(Candidates(m));
    EvictingPlan(m, mode, need, p);
    var j := PlanPrefix(m, mode, need, p);
    var k := EvictedTotals(m, mode, need, p);
    SortedCandidates(m, {});
    assert sorted[..|sorted|] == sorted;
    PrefixTotal(sorted, k);
  }

  lemma SmallestIsFirst(cs: seq<Candidate>, smallest: Candidate)
    requires Ascending(cs) && smallest in cs && forall c | c in cs :: smallest.footprint <= c.footprint
    ensures cs[0].footprint == smallest.footprint
  {
    assert cs[0] in cs;
  }

  /** A machine with models of 1 and 4 bytes loaded, nothing free, and a ComfyUI of the given size. */
  function Example(need: nat, comfy: Option<int>): Machine
  {
    Machine({"new"}, ["a1", "a2"], map["a1" := Assignment("old", None, None), "a2" := Assignment("big", None, None)],
      s => if s == "a1" then 1 else 4, _ => Some(need), 0, comfy)
  }

  lemma ExampleCandidates(need: nat, comfy: Option<int>)
    ensures ValidMachine(Example(need, comfy)) && EffectiveFree(Example(need, comfy), "new") == 0
    ensures Candidates(Example(need, comfy)) == [Candidate("a1", 1), Candidate("a2", 4)]
    ensures Footprints(Candidates(Example(need, comfy))) == 5
  {
    var m := Example(need, comfy);
    hide Loaded, InFlight, Footprints;
    NothingScanned(m, "new");
    ScanSlot(m, "new", 0);
    ScanSlot(m, "new", 1);
    assert Candidates(m) == [Candidate("a1", 1)] + [Candidate("a2", 4)];
    TwoFootprints(Candidate("a1", 1), Candidate("a2", 4));
  }

  lemma TwoFootprints(a: Candidate, b: Candidate)
    ensures Footprints([a]) == a.footprint && Footprints([a, b]) == a.footprint + b.footprint
  {
    assert [a, b][..1] == [a];
    assert Footprints([a]) == Footprints([a][..0]) + a.footprint;
  }

  /** A machine with one 1-byte model loaded, nothing free, and a 5-byte ComfyUI. */
  function ComfyExample(): Machine
  {
    Machine({"new"}, ["a1"], map["a1" := Assignment("old", None, None)],
      _ => 1, _ => Some(5), 0, Some(5))
  }

  /** Stopping ComfyUI alone would make room here, yet the plan also evicts the loaded slot. */
  lemma ComfyUIEvictsNeedlessly(p: Plan)
    requires ValidMachine(ComfyExample()) && PlanFor(ComfyExample(), "new", 5, p)
    ensures p.evictComfyUI && "a1" in p.evict
    ensures EffectiveFree(ComfyExample(), "new") + EvictedBytes(ComfyExample(), []) + p.comfyUIBytes >= 5
  {
  }

  /** For 8 bytes with a ComfyUI of 5 the plan evicts both slots, although the 1-byte one could stay; the
      last eviction is needed. */
  lemma FirstNeedlessLastNeeded(p: Plan)
    requires ValidMachine(Example(8, Some(5))) && PlanFor(Example(8, Some(5)), "new", 8, p)
    ensures p.evictComfyUI && "a1" in p.evict && "a2" in p.evict
    ensures Spares(Example(8, Some(5)), "new", 8, p, "a1") && !Spares(Example(8, Some(5)), "new", 8, p, "a2")
  {
    var m := Example(8, Some(5));
    ExampleCandidates(8, Some(5));
    hide Candidates, EffectiveFree, Footprints, EvictedBytes, Sort, FreeSlots, Names;
    assert m.slots["a1"].mode != "" && m.slots["a2"].mode != "" && "a1" in m.order && "a2" in m.order;
    assert ComfyBytes(m) == 5;
    EvictionListsLoadedSlotsOnce(m, "new", 8, p);
    AllEvicted(m, "new", 8, p);
  }

  /** For 4 bytes without ComfyUI the plan evicts both slots too, although the 4-byte one alone would do. */
  lemma SmallestFirstEvictsNeedlessly(p: Plan)
    requires ValidMachine(Example(4, None)) && PlanFor(Example(4, None), "new", 4, p)
    ensures p.evict == ["a1", "a2"] && Spares(Example(4, None), "new", 4, p, "a1")
  {
    var m, cs := Example(4, None), [Candidate("a1", 1), Candidate("a2", 4)];
    ExampleCandidates(4, None);
    TwoSorted(cs);
    TwoShortest(cs);
    TwoNames(cs);
    assert m.footprint("a1") == 1;
    hide *;
    PlannedPrefix(m, "new", 4, p, cs, 2);
    PrefixBytes(m, cs, 2);
    SparesByBytes(m, "new", 4, p, "a1");
  }

  lemma SparesByBytes(m: Machine, mode: string, need: nat, p: Plan, slot: string)
    requires ValidMachine(m) && EffectiveFree(m, mode) == 0 && p.comfyUIBytes == 0
    ensures Spares(m, mode, need, p, slot) <==> EvictedBytes(m, p.evict) - m.footprint(slot) >= need
  {
    hide EffectiveFree, EvictedBytes;
  }

  lemma TwoNames(cs: seq<Candidate>)
    requires |cs| >= 2
    ensures Names(cs[..2]) == [cs[0].slot, cs[1].slot]
  {
  }

  lemma TwoShortest(cs: seq<Candidate>)
    requires |cs| == 2 && cs[0].footprint == 1 && cs[1].footprint == 4
    ensures Footprints(cs) == 5 == Footprints(cs[..2])
    ensures forall j | ShortestPrefix(cs, 4, j) :: j == 2
  {
    assert cs[..0] == [] && cs[..1] == [cs[0]] && cs[..2] == cs == [cs[0], cs[1]] && Footprints(cs[..0]) == 0;
    TwoFootprints(cs[0], cs[1]);
    forall j | ShortestPrefix(cs, 4, j)
      ensures j == 2
    {
      TwoPrefix(cs, j);
    }
  }

  lemma TwoSorted(cs: seq<Candidate>)
    requires |cs| == 2 && cs[0].footprint < cs[1].footprint
    ensures Sort(cs) == cs
  {
    assert cs[1..] == [cs[1]] && Sort([cs[1]]) == [cs[1]];
    assert cs == [cs[0]] + [cs[1]];
  }

  /** The plan over sorted candidates when nothing is free and one prefix is the shortest. */
  lemma PlannedPrefix(m: Machine, mode: string, need: nat, p: Plan, cs: seq<Candidate>, k: nat)
    requires ValidMachine(m) && PlanFor(m, mode, need, p) && EffectiveFree(m, mode) == 0
    requires Candidates(m) == cs && Sort(cs) == cs && 0 < need <= Footprints(cs) && k <= |cs|
    requires forall j | ShortestPrefix(cs, need, j) :: j == k
    ensures p.evict == Names(cs[..k]) && p.comfyUIBytes == 0
  {
    hide *;
    CoveredIsPlanned(m, mode, need, p);
    var j := PlanPrefix(m, mode, need, p);
  }

  lemma PrefixBytes(m: Machine, cs: seq<Candidate>, k: nat)
    requires ValidMachine(m) && Candidates(m) == cs && k <= |cs|
    ensures EvictedBytes(m, Names(cs[..k])) == Footprints(cs[..k])
  {
    hide EvictedBytes, Footprints, Names;
    EvictedIsPrefix(m, cs, k);
  }

  lemma CoveredIsPlanned(m: Machine, mode: string, need: nat, p: Plan)
    requires ValidMachine(m) && PlanFor(m, mode, need, p)
    requires EffectiveFree(m, mode) < need <= EffectiveFree(m, mode) + Footprints(Candidates(m))
    ensures !Refused(p)
  {
    hide EffectiveFree, Candidates, Footprints, Sort, ShortestPrefix, FreeSlots;
  }

  lemma TwoPrefix(cs: seq<Candidate>, k: int)
    requires |cs| == 2 && Footprints(cs[..0]) == 0 && Footprints(cs[..1]) == 1
    requires ShortestPrefix(cs, 4, k)
    ensures k == 2
  {
    hide Footprints;
  }
}
