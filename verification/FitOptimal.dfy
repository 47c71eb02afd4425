/** When the eviction list frees the least memory that makes room. */
module FitOptimal {
  import opened Wrappers
  import opened FitPlan

  /** The loaded slots that hold any memory all hold the same. */
  predicate Alike(cs: seq<Candidate>)
  {
    forall c, d | c in cs && d in cs && c.footprint > 0 && d.footprint > 0 :: c.footprint == d.footprint
  }

  /** No set of slots that covers the shortfall frees less than the listed prefix. */
  ghost predicate LeastFor(cs: seq<Candidate>, shortfall: int)
  {
    forall k, slots | ShortestPrefix(cs, shortfall, k) && FreedBy(cs, slots) >= shortfall ::
      Footprints(cs[..k]) <= FreedBy(cs, slots)
  }

  // ---- Slots that are alike ----

  lemma {:induction false} FreedIsMultiple(cs: seq<Candidate>, size: nat, slots: set<string>) returns (n: nat)
    requires forall c | c in cs :: c.footprint == 0 || c.footprint == size
    ensures FreedBy(cs, slots) == n * size
  {
    if cs == [] {
      n := 0;
    } else {
      var rest := FreedIsMultiple(cs[1..], size, slots);
      n := if cs[0].slot in slots && cs[0].footprint == size then rest + 1 else rest;
      assert cs[0] in cs;
    }
  }

  lemma PrefixIsMultiple(cs: seq<Candidate>, size: nat, k: nat) returns (n: nat)
    requires k <= |cs| && forall c | c in cs :: c.footprint == 0 || c.footprint == size
    ensures Footprints(cs[..k]) == n * size
  {
    FootprintsFreed(cs[..k], SlotsOf(cs[..k]));
    n := FreedIsMultiple(cs[..k], size, SlotsOf(cs[..k]));
  }

  /** Between multiples of one size the next one is the least. */
  lemma NextMultiple(a: nat, b: nat, size: nat, shortfall: int)
    requires a * size < shortfall <= b * size
    ensures (a + 1) * size <= b * size
  {
    if b <= a {
      MultipleOrder(b, a, size);
    } else {
      MultipleOrder(a + 1, b, size);
    }
  }

  lemma MultipleOrder(a: nat, b: nat, size: nat)
    requires a <= b
    ensures a * size <= b * size
  {
  }

  lemma AlikeIsLeast(cs: seq<Candidate>, shortfall: int)
    requires Alike(cs) && shortfall > 0
    ensures LeastFor(cs, shortfall)
  {
    hide FreedBy, Footprints;
    forall k, slots | ShortestPrefix(cs, shortfall, k) && FreedBy(cs, slots) >= shortfall
      ensures Footprints(cs[..k]) <= FreedBy(cs, slots)
    {
      var size := CommonSize(cs);
      var n := FreedIsMultiple(cs, size, slots);
      if k == 0 {
        NothingHeld(cs);
      } else {
        var before := PrefixIsMultiple(cs, size, k - 1);
        LastFootprint(cs, k);
        assert cs[k - 1] in cs;
        NextMultiple(before, n, size, shortfall);
      }
    }
  }

  /** The common size of slots that are alike. */
  lemma CommonSize(cs: seq<Candidate>) returns (size: nat)
    requires Alike(cs)
    ensures forall c | c in cs :: c.footprint == 0 || c.footprint == size
  {
    if c :| c in cs && c.footprint > 0 {
      size := c.footprint;
    } else {
      size := 0;
    }
  }

  lemma NothingHeld(cs: seq<Candidate>)
    ensures Footprints(cs[..0]) == 0
  {
  }

  lemma LastFootprint(cs: seq<Candidate>, k: nat)
    requires 0 < k <= |cs|
    ensures Footprints(cs[..k]) == Footprints(cs[..k - 1]) + cs[k - 1].footprint
  {
    assert cs[..k][..k - 1] == cs[..k - 1];
  }

  // ---- Slots that are not ----

  lemma {:induction false} FreedWithout(cs: seq<Candidate>, i: nat, slots: set<string>)
    requires DistinctSlots(cs) && i < |cs| && cs[i].slot in slots
    ensures FreedBy(cs, slots - {cs[i].slot}) == FreedBy(cs, slots) - cs[i].footprint
  {
    if i == 0 {
      assert forall c | c in cs[1..] :: c.slot != cs[0].slot;
      SameFreed(cs[1..], slots, slots - {cs[0].slot});
    } else {
      FreedWithout(cs[1..], i - 1, slots);
      assert cs[i].slot != cs[0].slot;
    }
  }

  lemma {:induction false} SameFreed(cs: seq<Candidate>, a: set<string>, b: set<string>)
    requires forall c | c in cs :: c.slot in a <==> c.slot in b
    ensures FreedBy(cs, a) == FreedBy(cs, b)
  {
    if cs != [] {
      assert cs[0] in cs;
      SameFreed(cs[1..], a, b);
    }
  }

  /** The slots of a prefix but for one free what the prefix holds but for that one. */
  lemma PrefixWithout(cs: seq<Candidate>, k: nat, i: nat) returns (slots: set<string>)
    requires DistinctSlots(cs) && i < k <= |cs|
    ensures FreedBy(cs, slots) == Footprints(cs[..k]) - cs[i].footprint
  {
    var head, tail := cs[..k], cs[k..];
    slots := SlotsOf(head) - {cs[i].slot};
    assert head[i] in head;
    FootprintsFreed(head, SlotsOf(head));
    FreedWithout(head, i, SlotsOf(head));
    NoneFreed(tail, slots);
    FreedByAppend(head, tail, slots);
    assert cs == head + tail;
  }

  /** Up to the larger of two slots that hold memory the prefix could do without the smaller one. */
  lemma UnlikeIsNotLeast(cs: seq<Candidate>, i: nat, j: nat) returns (shortfall: int, slots: set<string>)
    requires Ascending(cs) && DistinctSlots(cs)
    requires i < j < |cs| && 0 < cs[i].footprint < cs[j].footprint
    ensures 0 < shortfall <= FreedBy(cs, slots) < Footprints(cs[..j + 1])
    ensures ShortestPrefix(cs, shortfall, j + 1)
  {
    hide FreedBy, Footprints;
    LastFootprint(cs, j + 1);
    slots := PrefixWithout(cs, j + 1, i);
    shortfall := FreedBy(cs, slots);
  }

  lemma TwoSizes(cs: seq<Candidate>) returns (i: nat, j: nat)
    requires Ascending(cs) && !Alike(cs)
    ensures i < j < |cs| && 0 < cs[i].footprint < cs[j].footprint
  {
    var c, d :| c in cs && d in cs && 0 < c.footprint && 0 < d.footprint && c.footprint != d.footprint;
    var x :| 0 <= x < |cs| && cs[x] == c;
    var y :| 0 <= y < |cs| && cs[y] == d;
    i, j := if x < y then x else y, if x < y then y else x;
  }

  /** Smallest first frees the least memory that covers a shortfall, whatever the shortfall, exactly when
      the slots that hold memory all hold the same. */
  lemma SmallestFirstIsLeastExactly(cs: seq<Candidate>)
    requires Ascending(cs) && DistinctSlots(cs)
    ensures (forall shortfall: int | shortfall > 0 :: LeastFor(cs, shortfall)) <==> Alike(cs)
  {
    if Alike(cs) {
      forall shortfall: int | shortfall > 0
        ensures LeastFor(cs, shortfall)
      {
        AlikeIsLeast(cs, shortfall);
      }
    } else {
      var i, j := TwoSizes(cs);
      var shortfall, slots := UnlikeIsNotLeast(cs, i, j);
      assert !LeastFor(cs, shortfall);
    }
  }

  // ---- The plan ----

  /** The listed slots free at most what the given ones free. */
  ghost predicate FreesLeast(m: Machine, p: Plan, slots: set<string>)
    requires ValidMachine(m)
  {
    EvictedBytes(m, p.evict) <= FreedBy(Candidates(m), slots)
  }

  /** The plan makes room by evictions alone, and so do the given slots. */
  ghost predicate Choice(m: Machine, mode: string, need: nat, p: Plan, slots: set<string>)
    requires ValidMachine(m)
  {
    PlanFor(m, mode, need, p) && p.evict != [] && !p.evictComfyUI &&
    EffectiveFree(m, mode) + FreedBy(Candidates(m), slots) >= need
  }

  function WithFree(m: Machine, free: nat): Machine
  {
    m.(freeBytes := free)
  }

  lemma StillValid(m: Machine, free: nat)
    requires ValidMachine(m)
    ensures ValidMachine(WithFree(m, free)) && WithFree(m, free).order == m.order
  {
  }

  lemma {:induction false} SameLoaded(m: Machine, free: nat, n: nat)
    requires ValidMachine(m) && ValidMachine(WithFree(m, free)) && n <= |m.order|
    ensures Loaded(WithFree(m, free), n) == Loaded(m, n)
  {
    if n > 0 {
      SameLoaded(m, free, n - 1);
      LoadedStep(m, n);
      LoadedStep(WithFree(m, free), n);
      hide Loaded;
    }
  }

  lemma {:induction false} SameInFlight(m: Machine, free: nat, mode: string, n: nat)
    requires ValidMachine(m) && ValidMachine(WithFree(m, free)) && n <= |m.order|
    ensures InFlight(WithFree(m, free), mode, n) == InFlight(m, mode, n)
  {
    if n > 0 {
      SameInFlight(m, free, mode, n - 1);
    }
  }

  lemma {:induction false} SameEvicted(m: Machine, free: nat, evict: seq<string>)
    ensures EvictedBytes(WithFree(m, free), evict) == EvictedBytes(m, evict)
  {
    if evict != [] {
      SameEvicted(m, free, evict[..|evict| - 1]);
    }
  }

  lemma ListedIsLeast(m: Machine, mode: string, need: nat, p: Plan, slots: set<string>)
    requires ValidMachine(m) && Choice(m, mode, need, p, slots) && Alike(Candidates(m))
    ensures FreesLeast(m, p, slots)
  {
    hide Sort, Candidates, EffectiveFree, Footprints, PlanFor, Refused, EvictedBytes, FreedBy, ShortestPrefix,
         Ascending;
    EvictingPlan(m, mode, need, p);
    var k := EvictedTotals(m, mode, need, p);
    SortedCandidates(m, slots);
    AlikeIsLeast(Sort(Candidates(m)), need - EffectiveFree(m, mode));
  }

  /** The plan for a shortfall that a prefix of the eviction order covers. */
  lemma PlanOfPrefix(m: Machine, mode: string, need: nat, k: nat) returns (p: Plan)
    requires ValidMachine(m) && 0 < k <= |Sort(Candidates(m))|
    requires EffectiveFree(m, mode) < need <= EffectiveFree(m, mode) + Footprints(Candidates(m))
    requires ShortestPrefix(Sort(Candidates(m)), need - EffectiveFree(m, mode), k)
    ensures PlanFor(m, mode, need, p) && p.evict == Names(Sort(Candidates(m))[..k]) && !p.evictComfyUI
  {
    hide Sort, Candidates, EffectiveFree, Footprints, FreeSlots, ShortestPrefix, ComfyBytes;
    var evict := Names(Sort(Candidates(m))[..k]);
    p := Plan(false, need, EffectiveFree(m, mode), evict[0], evict, false, 0);
  }

  lemma UnlikeHasChoice(m: Machine, mode: string) returns (free: nat, need: nat, p: Plan, slots: set<string>)
    requires ValidMachine(m) && !Alike(Candidates(m))
    ensures ValidMachine(WithFree(m, free)) && Choice(WithFree(m, free), mode, need, p, slots)
    ensures !FreesLeast(WithFree(m, free), p, slots)
  {
    hide Sort, Footprints, EvictedBytes, FreedBy, ShortestPrefix, Ascending, Loaded, InFlight, PlanFor;
    var n := |m.order|;
    free := InFlight(m, mode, n);
    var m' := WithFree(m, free);
    StillValid(m, free);
    SameLoaded(m, free, n);
    SameInFlight(m, free, mode, n);
    assert EffectiveFree(m', mode) == 0 && Candidates(m') == Candidates(m);
    SortedCandidates(m', {});
    var sorted := Sort(Candidates(m'));
    var i, j := TwoSizes(sorted);
    var shortfall;
    shortfall, slots := UnlikeIsNotLeast(sorted, i, j);
    need := shortfall;
    SortedCandidates(m', slots);
    FootprintsFreed(sorted, slots);
    p := PlanOfPrefix(m', mode, need, j + 1);
    EvictedIsPrefix(m', sorted, j + 1);
  }

  /** The plan frees the least memory that makes room, whatever is free and whatever is needed, exactly
      when the loaded slots that hold memory all hold the same. */
  lemma PlanFreesLeastExactly(m: Machine, mode: string)
    requires ValidMachine(m)
    ensures (forall free: nat, need, p, slots | ValidMachine(WithFree(m, free)) &&
                                                Choice(WithFree(m, free), mode, need, p, slots) ::
               FreesLeast(WithFree(m, free), p, slots)) <==> Alike(Candidates(m))
  {
    hide Choice, FreesLeast, Alike, Loaded, WithFree;
    if Alike(Candidates(m)) {
      forall free: nat, need, p, slots | ValidMachine(WithFree(m, free)) &&
                                         Choice(WithFree(m, free), mode, need, p, slots)
        ensures FreesLeast(WithFree(m, free), p, slots)
      {
        StillValid(m, free);
        SameLoaded(m, free, |m.order|);
        ListedIsLeast(WithFree(m, free), mode, need, p, slots);
      }
    } else {
      var free, need, p, slots := UnlikeHasChoice(m, mode);
    }
  }

  /** Nothing free and models of 3, 4 and 6 bytes loaded in three slots. */
  function ThreeSlots(a: string, b: string, c: string): Machine
  {
    Machine({"new"}, [a, b, c],
      map[a := Assignment("x", None, None), b := Assignment("y", None, None), c := Assignment("z", None, None)],
      s => if s == a then 3 else if s == b then 4 else 6, _ => Some(6), 0, None)
  }

  ghost predicate ThreeNames(a: string, b: string, c: string)
  {
    a != b && b != c && a != c
  }

  function ThreeOf(a: string, b: string, c: string): seq<Candidate>
  {
    [Candidate(a, 3), Candidate(b, 4), Candidate(c, 6)]
  }

  /** For 6 bytes the plan evicts the two smaller slots, neither of which could stay, and frees 7 bytes;
      the third alone would free 6. */
  lemma LeastMemoryMissed(a: string, b: string, c: string, p: Plan)
    requires ThreeNames(a, b, c)
    requires ValidMachine(ThreeSlots(a, b, c)) && PlanFor(ThreeSlots(a, b, c), "new", 6, p)
    ensures p.evict == [a, b] && EvictedBytes(ThreeSlots(a, b, c), p.evict) == 7
    ensures forall slot | slot in p.evict :: !Spares(ThreeSlots(a, b, c), "new", 6, p, slot)
    ensures EffectiveFree(ThreeSlots(a, b, c), "new") == 0 && FreedBy(Candidates(ThreeSlots(a, b, c)), {c}) == 6
  {
    var m, cs := ThreeSlots(a, b, c), ThreeOf(a, b, c);
    ThreeCandidates(a, b, c);
    ThreeSorted(cs);
    ThreeTotals(cs);
    ThreeShortest(cs);
    TwoNames(cs);
    assert m.footprint(a) == 3 && m.footprint(b) == 4;
    assert FreedBy(cs, {c}) == 6;
    hide *;
    PlannedPrefix(m, "new", 6, p, cs, 2);
    PrefixBytes(m, cs, 2);
    SparesByBytes(m, "new", 6, p, a);
    SparesByBytes(m, "new", 6, p, b);
  }

  lemma ThreeShortest(cs: seq<Candidate>)
    requires |cs| == 3 && Footprints(cs[..0]) == 0 && Footprints(cs[..1]) == 3 && Footprints(cs[..2]) == 7
    ensures forall j | ShortestPrefix(cs, 6, j) :: j == 2
  {
    forall j | ShortestPrefix(cs, 6, j)
      ensures j == 2
    {
      ThreePrefix(cs, j);
    }
  }

  lemma ThreePrefix(cs: seq<Candidate>, k: int)
    requires |cs| == 3 && Footprints(cs[..0]) == 0 && Footprints(cs[..1]) == 3 && Footprints(cs[..2]) == 7
    requires ShortestPrefix(cs, 6, k)
    ensures k == 2
  {
    hide Footprints;
  }

  /** A loaded slot with no transition in the scans over the display order. */
  lemma ScanLoaded(m: Machine, mode: string, i: nat)
    requires ValidMachine(m) && i < |m.order|
    requires m.slots[m.order[i]].mode != "" && m.slots[m.order[i]].loading.None?
    ensures Loaded(m, i + 1) == Loaded(m, i) + [Candidate(m.order[i], m.footprint(m.order[i]))]
    ensures InFlight(m, mode, i + 1) == InFlight(m, mode, i)
  {
    ScanSlot(m, mode, i);
  }

  lemma ThreeCandidates(a: string, b: string, c: string)
    requires ThreeNames(a, b, c)
    ensures ValidMachine(ThreeSlots(a, b, c)) && EffectiveFree(ThreeSlots(a, b, c), "new") == 0
    ensures Candidates(ThreeSlots(a, b, c)) == ThreeOf(a, b, c)
  {
    var m := ThreeSlots(a, b, c);
    hide Loaded, InFlight, FreeSlots;
    assert ValidMachine(m) && m.order == [a, b, c] && m.freeBytes == 0;
    assert m.footprint(a) == 3 && m.footprint(b) == 4 && m.footprint(c) == 6;
    hide ThreeSlots;
    NothingScanned(m, "new");
    ScanLoaded(m, "new", 0);
    ScanLoaded(m, "new", 1);
    ScanLoaded(m, "new", 2);
  }

  lemma ThreeSorted(cs: seq<Candidate>)
    requires |cs| == 3 && cs[0].footprint < cs[1].footprint < cs[2].footprint
    ensures Sort(cs) == cs
  {
    assert cs[1..][1..] == [cs[2]] && Sort([cs[2]]) == [cs[2]];
    assert Sort(cs[1..]) == [cs[1]] + [cs[2]];
    assert cs == [cs[0]] + ([cs[1]] + [cs[2]]);
  }

  lemma ThreeTotals(cs: seq<Candidate>)
    requires |cs| == 3 && DistinctSlots(cs)
    ensures Footprints(cs[..0]) == 0 && Footprints(cs[..1]) == cs[0].footprint
    ensures Footprints(cs[..2]) == cs[0].footprint + cs[1].footprint
    ensures Footprints(cs) == cs[0].footprint + cs[1].footprint + cs[2].footprint
    ensures FreedBy(cs, {cs[2].slot}) == cs[2].footprint
  {
    NothingHeld(cs);
    LastFootprint(cs, 1);
    LastFootprint(cs, 2);
    LastFootprint(cs, 3);
    assert cs[..3] == cs;
    hide Footprints;
    var last := cs[2..];
    assert FreedBy(last, {cs[2].slot}) == cs[2].footprint + FreedBy(last[1..], {cs[2].slot});
    assert last[1..] == [];
    NoneFreed(cs[..2], {cs[2].slot});
    FreedByAppend(cs[..2], last, {cs[2].slot});
    assert cs == cs[..2] + last;
  }
}
