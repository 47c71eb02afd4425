/** The conversation cache: a bounded map with a recency list and a time to live. */
module ConvLru {
  import opened Wrappers

  datatype Entry<+V> = Entry(value: V, seen: int)

  /** The map and the list of its keys, most recently put first. */
  datatype Cache<!K, +V> = Cache(entries: map<K, Entry<V>>, order: seq<K>)

  /** One call on the cache, with the clock it reads. */
  datatype Op<+K, +V> = Get(key: K, now: int) | Put(key: K, value: V, now: int) | Del(key: K)

  ghost predicate NoDuplicates<K(!new)>(s: seq<K>)
  {
    forall i, j | 0 <= i < j < |s| :: s[i] != s[j]
  }

  /** Map and list hold the same keys, each once, and at most max of them. */
  ghost predicate Consistent<K(!new), V>(c: Cache<K, V>, max: nat)
  {
    NoDuplicates(c.order) && (forall k :: k in c.order <==> k in c.entries) && |c.order| <= max
  }

  // ---- One call ----

  /** The list without k. */
  function Without<K(==,!new)>(s: seq<K>, k: K): (r: seq<K>)
    ensures forall x :: x in r <==> x in s && x != k
    ensures |r| <= |s|
  {
    if s == [] then []
    else if s[0] == k then Without(s[1..], k)
    else [s[0]] + Without(s[1..], k)
  }

  function Drop<K(==,!new), V>(c: Cache<K, V>, k: K): Cache<K, V>
  {
    Cache(c.entries - {k}, Without(c.order, k))
  }

  /** Removes from the back until at most max keys are left. */
  function EvictTo<K(==,!new), V>(c: Cache<K, V>, max: nat): Cache<K, V>
    decreases |c.order|
  {
    if |c.order| <= max then c
    else EvictTo(Cache(c.entries - {c.order[|c.order| - 1]}, c.order[..|c.order| - 1]), max)
  }

  function OnGet<K(==,!new), V>(c: Cache<K, V>, ttl: int, k: K, now: int): (Cache<K, V>, Option<V>)
  {
    if k !in c.entries then (c, None)
    else if now - c.entries[k].seen > ttl then (Drop(c, k), None)
    else (c, Some(c.entries[k].value))
  }

  function OnPut<K(==,!new), V>(c: Cache<K, V>, max: nat, k: K, v: V, now: int): Cache<K, V>
  {
    var c' := Prepended(c, k, v, now);
    if k in c.entries then c' else EvictTo(c', max)
  }

  /** The cache with k's entry written and k moved to the front. */
  function Prepended<K(==,!new), V>(c: Cache<K, V>, k: K, v: V, now: int): Cache<K, V>
  {
    Cache(c.entries[k := Entry(v, now)], [k] + Without(c.order, k))
  }

  function OnDel<K(==,!new), V>(c: Cache<K, V>, k: K): Cache<K, V>
  {
    if k in c.entries then Drop(c, k) else c
  }

  lemma {:induction false} WithoutKeepsOrder<K(!new)>(s: seq<K>, k: K)
    requires NoDuplicates(s)
    ensures NoDuplicates(Without(s, k))
    ensures k in s ==> |Without(s, k)| == |s| - 1
    ensures k !in s ==> Without(s, k) == s
  {
    if s != [] {
      WithoutKeepsOrder(s[1..], k);
      assert s == [s[0]] + s[1..];
      assert forall x | x in Without(s[1..], k) :: x in s[1..];
      if s[0] == k {
        assert k !in s[1..];
      } else {
        Cons(s[0], Without(s[1..], k));
      }
    }
  }

  lemma Cons<K(!new)>(x: K, s: seq<K>)
    requires NoDuplicates(s) && x !in s
    ensures NoDuplicates([x] + s)
  {
  }

  lemma DropConsistent<K(!new), V>(c: Cache<K, V>, max: nat, k: K)
    requires Consistent(c, max)
    ensures Consistent(Drop(c, k), max)
  {
    WithoutKeepsOrder(c.order, k);
  }

  lemma EvictOneConsistent<K(!new), V>(c: Cache<K, V>, n: nat)
    requires Consistent(c, n + 1) && |c.order| == n + 1
    ensures Consistent(Cache(c.entries - {c.order[n]}, c.order[..n]), n)
  {
  }

  lemma PrependedConsistent<K(!new), V>(c: Cache<K, V>, max: nat, k: K, v: V, now: int)
    requires Consistent(c, max)
    ensures Consistent(Prepended(c, k, v, now), max + 1)
    ensures k in c.entries ==> Consistent(Prepended(c, k, v, now), max)
  {
    WithoutKeepsOrder(c.order, k);
    Cons(k, Without(c.order, k));
  }

  lemma NotListed<K(!new), V>(c: Cache<K, V>, max: nat, k: K)
    requires Consistent(c, max)
    ensures k !in c.entries ==> Without(c.order, k) == c.order
  {
    WithoutKeepsOrder(c.order, k);
  }

  /** A put evicts at most one key, the one at the back. */
  lemma PutIs<K(!new), V>(c: Cache<K, V>, max: nat, k: K, v: V, now: int)
    requires Consistent(c, max)
    ensures var c' := Prepended(c, k, v, now);
      OnPut(c, max, k, v, now) ==
        if |c'.order| <= max then c' else Cache(c'.entries - {c'.order[max]}, c'.order[..max])
  {
    PrependedConsistent(c, max, k, v, now);
    EvictOne(Prepended(c, k, v, now), max);
  }

  lemma EvictOne<K(!new), V>(c: Cache<K, V>, max: nat)
    requires |c.order| <= max + 1
    ensures EvictTo(c, max) ==
      if |c.order| <= max then c else Cache(c.entries - {c.order[max]}, c.order[..max])
  {
  }

  lemma PutConsistent<K(!new), V>(c: Cache<K, V>, max: nat, k: K, v: V, now: int)
    requires Consistent(c, max)
    ensures Consistent(OnPut(c, max, k, v, now), max)
  {
    hide OnPut;
    PutIs(c, max, k, v, now);
    PrependedConsistent(c, max, k, v, now);
    var c' := Prepended(c, k, v, now);
    if |c'.order| > max {
      EvictOneConsistent(c', max);
    }
  }

  // ---- The class ----

  class LRU<K(==,!new), V> {
    const max: nat
    const ttl: int
    var m: map<K, Entry<V>>
    var l: seq<K>

    function Abstract(): Cache<K, V>
      reads this
    {
      Cache(m, l)
    }

    ghost predicate Valid()
      reads this
    {
      Consistent(Abstract(), max)
    }

    constructor (max: nat, ttl: int)
      ensures this.max == max && this.ttl == ttl && Valid() && Abstract() == Cache(map[], [])
    {
      this.max, this.ttl, m, l := max, ttl, map[], [];
    }

    method Lookup(k: K, now: int) returns (r: Option<V>)
      requires Valid()
      modifies this
      ensures Valid() && (Abstract(), r) == OnGet(old(Abstract()), ttl, k, now)
    {
      if k !in m {
        return None;
      }
      var e := m[k];
      if now - e.seen > ttl {
        DropConsistent(Abstract(), max, k);
        l := Without(l, k);
        m := m - {k};
        return None;
      }
      return Some(e.value);
    }

    method Store(k: K, v: V, now: int)
      requires Valid()
      modifies this
      ensures Valid() && Abstract() == OnPut(old(Abstract()), max, k, v, now)
    {
      hide Consistent, Without;
      PutConsistent(Abstract(), max, k, v, now);
      NotListed(Abstract(), max, k);
      if k in m {
        m := m[k := Entry(v, now)];
        l := [k] + Without(l, k);
        return;
      }
      l := [k] + l;
      m := m[k := Entry(v, now)];
      while |l| > max
        invariant EvictTo(Abstract(), max) == OnPut(old(Abstract()), max, k, v, now)
        decreases |l|
      {
        var back := l[|l| - 1];
        l := l[..|l| - 1];
        m := m - {back};
      }
    }

    method Remove(k: K)
      requires Valid()
      modifies this
      ensures Valid() && Abstract() == OnDel(old(Abstract()), k)
    {
      if k in m {
        DropConsistent(Abstract(), max, k);
        l := Without(l, k);
        m := m - {k};
      }
    }

    method Size() returns (n: nat)
      requires Valid()
      ensures n == |m| <= max
    {
      OrderSize(m, l);
      n := |l|;
    }
  }

  lemma {:induction false} OrderSize<K(!new), V>(m: map<K, V>, l: seq<K>)
    requires NoDuplicates(l) && forall k :: k in l <==> k in m
    ensures |m| == |l|
  {
    SetSize(l, m.Keys);
  }

  lemma {:induction false} SetSize<K(!new)>(s: seq<K>, keys: set<K>)
    requires NoDuplicates(s) && forall k :: k in s <==> k in keys
    ensures |keys| == |s|
  {
    if s == [] {
      assert keys == {};
    } else {
      var n := |s| - 1;
      forall k
        ensures k in s[..n] <==> k in keys - {s[n]}
      {
        if k in keys && k != s[n] {
          var i :| 0 <= i < |s| && s[i] == k;
          assert s[..n][i] == k;
        }
      }
      SetSize(s[..n], keys - {s[n]});
      assert s[n] in keys;
    }
  }

  // ---- Histories ----

  function Step<K(==,!new), V>(c: Cache<K, V>, max: nat, ttl: int, op: Op<K, V>): Cache<K, V>
  {
    match op
    case Get(k, now) => OnGet(c, ttl, k, now).0
    case Put(k, v, now) => OnPut(c, max, k, v, now)
    case Del(k) => OnDel(c, k)
  }

  function Run<K(==,!new), V>(max: nat, ttl: int, h: seq<Op<K, V>>): Cache<K, V>
  {
    if h == [] then Cache(map[], []) else Step(Run(max, ttl, h[..|h| - 1]), max, ttl, h[|h| - 1])
  }

  lemma {:induction false} RunConsistent<K(!new), V>(max: nat, ttl: int, h: seq<Op<K, V>>)
    ensures Consistent(Run(max, ttl, h), max)
  {
    if h != [] {
      var c := Run(max, ttl, h[..|h| - 1]);
      RunConsistent(max, ttl, h[..|h| - 1]);
      match h[|h| - 1] {
        case Get(k, _) => DropConsistent(c, max, k);
        case Put(k, v, now) => PutConsistent(c, max, k, v, now);
        case Del(k) => DropConsistent(c, max, k);
      }
    }
  }

  /** Call i is the latest put of k and k was not deleted after it. */
  ghost predicate LatestPut<K(!new), V>(h: seq<Op<K, V>>, i: int, k: K)
  {
    && 0 <= i < |h| && h[i].Put? && h[i].key == k
    && forall j | i < j < |h| && h[j].key == k :: h[j].Get?
  }

  /** The keys put in a history, other than k. */
  ghost function OthersPut<K(!new), V>(h: seq<Op<K, V>>, k: K): set<K>
  {
    set op | op in h && op.Put? && op.key != k :: op.key
  }

  lemma {:induction false} EntriesAreLatest<K(!new), V>(max: nat, ttl: int, h: seq<Op<K, V>>, k: K) returns (i: int)
    requires k in Run(max, ttl, h).entries
    ensures LatestPut(h, i, k) && Run(max, ttl, h).entries[k] == Entry(h[i].value, h[i].now)
  {
    var n := |h| - 1;
    var g, op := h[..n], h[n];
    var before := Run(max, ttl, g);
    RunConsistent(max, ttl, g);
    RunStep(max, ttl, h);
    hide OnPut, Consistent, Run, OnDel, OnGet;
    if op.Put? && op.key == k {
      PutsEntry(before, max, op.value, op.now, k);
      i := n;
    } else {
      hide LatestPut;
      StepKeepsEntry(before, max, ttl, op, k);
      i := EntriesAreLatest(max, ttl, g, k);
      LatestStays(h, i, k);
    }
  }

  lemma PutsEntry<K(!new), V>(c: Cache<K, V>, max: nat, v: V, now: int, k: K)
    requires Consistent(c, max) && k in OnPut(c, max, k, v, now).entries
    ensures OnPut(c, max, k, v, now).entries[k] == Entry(v, now)
  {
    PutIs(c, max, k, v, now);
  }

  lemma LatestStays<K(!new), V>(h: seq<Op<K, V>>, i: int, k: K)
    requires h != [] && LatestPut(h[..|h| - 1], i, k) && (h[|h| - 1].key == k ==> h[|h| - 1].Get?)
    ensures LatestPut(h, i, k) && h[..|h| - 1][i] == h[i]
  {
  }

  /** A call that does not put k leaves k's entry as it was, if it leaves it at all. */
  lemma StepKeepsEntry<K(!new), V>(c: Cache<K, V>, max: nat, ttl: int, op: Op<K, V>, k: K)
    requires Consistent(c, max)
    requires !(op.Put? && op.key == k) && k in Step(c, max, ttl, op).entries
    ensures !(op.Del? && op.key == k)
    ensures k in c.entries && Step(c, max, ttl, op).entries[k] == c.entries[k]
  {
    if op.Put? {
      PutIs(c, max, op.key, op.value, op.now);
    }
  }

  /** get returns only the value of the latest put of its key, undeleted and unexpired. */
  lemma GetReturnsLatestPut<K(!new), V>(max: nat, ttl: int, h: seq<Op<K, V>>, k: K, now: int) returns (i: int)
    requires OnGet(Run(max, ttl, h), ttl, k, now).1.Some?
    ensures LatestPut(h, i, k) && now - h[i].now <= ttl
    ensures OnGet(Run(max, ttl, h), ttl, k, now).1 == Some(h[i].value)
  {
    hide Run;
    i := EntriesAreLatest(max, ttl, h, k);
  }

  /** k holds an entry, and only the given other keys stand before it in the list. */
  ghost predicate Holds<K(!new), V>(c: Cache<K, V>, k: K, e: Entry<V>, others: set<K>)
  {
    k in c.entries && c.entries[k] == e && exists p :: InFront(c.order, k, p, others)
  }

  ghost predicate InFront<K(!new)>(order: seq<K>, k: K, p: int, others: set<K>)
  {
    0 <= p < |order| && order[p] == k && forall q | 0 <= q < p :: order[q] in others
  }

  lemma {:induction false} WithoutInFront<K(!new)>(order: seq<K>, k: K, p: nat, others: set<K>, x: K) returns (p': nat)
    requires InFront(order, k, p, others) && x != k
    ensures p' <= p && InFront(Without(order, x), k, p', others)
    decreases |order|
  {
    if p == 0 {
      p' := 0;
    } else {
      assert order[0] in others;
      assert InFront(order[1..], k, p - 1, others) by {
        forall q | 0 <= q < p - 1
          ensures order[1..][q] in others
        {
          assert order[1..][q] == order[q + 1];
        }
      }
      var r := WithoutInFront(order[1..], k, p - 1, others, x);
      p' := if order[0] == x then r else r + 1;
    }
  }

  /** A key with fewer than max distinct keys before it is not at the back of an overfull list. */
  lemma FrontCount<K(!new)>(order: seq<K>, k: K, p: nat, others: set<K>)
    requires InFront(order, k, p, others) && NoDuplicates(order)
    ensures p <= |others|
  {
    var front := set x | x in order[..p];
    SetSize(order[..p], front);
    assert front <= others;
    SubsetSize(front, others);
  }

  lemma StepHolds<K(!new), V>(c: Cache<K, V>, max: nat, ttl: int, op: Op<K, V>, k: K, e: Entry<V>, others: set<K>)
    requires Consistent(c, max) && Holds(c, k, e, others)
    requires op.key == k ==> op.Get? && op.now - e.seen <= ttl
    requires op.Put? ==> op.key in others
    requires |others| < max
    ensures Holds(Step(c, max, ttl, op), k, e, others)
  {
    if op.key != k {
      var p: nat :| InFront(c.order, k, p, others);
      var p' := WithoutInFront(c.order, k, p, others, op.key);
      if op.Put? {
        PutIs(c, max, op.key, op.value, op.now);
        PrependedConsistent(c, max, op.key, op.value, op.now);
        var c' := Prepended(c, op.key, op.value, op.now);
        InFrontOf(Without(c.order, op.key), k, p', others, op.key);
        FrontCount(c'.order, k, p' + 1, others);
        StillInFront(c'.order, k, p' + 1, others, max);
      }
    }
  }

  lemma InFrontOf<K(!new)>(order: seq<K>, k: K, p: nat, others: set<K>, x: K)
    requires InFront(order, k, p, others) && x in others
    ensures InFront([x] + order, k, p + 1, others)
  {
  }

  /** Cutting the list behind position p keeps what stands at p. */
  lemma StillInFront<K(!new)>(order: seq<K>, k: K, p: nat, others: set<K>, max: nat)
    requires InFront(order, k, p, others) && p < max && NoDuplicates(order)
    ensures max < |order| ==> InFront(order[..max], k, p, others) && order[max] != k
  {
  }

  /** What stands after the put at i: k's entry, behind only keys put since. */
  lemma {:induction false} HoldsSince<K(!new), V>(max: nat, ttl: int, h: seq<Op<K, V>>, i: nat, k: K)
    requires LatestPut(h, i, k)
    requires |OthersPut(h[i + 1..], k)| < max
    requires forall j | i < j < |h| && h[j].key == k :: h[j].Get? && h[j].now - h[i].now <= ttl
    ensures Holds(Run(max, ttl, h), k, Entry(h[i].value, h[i].now), OthersPut(h[i + 1..], k))
    decreases |h|
  {
    var n := |h| - 1;
    var g, op := h[..n], h[n];
    RunConsistent(max, ttl, g);
    var others := OthersPut(h[i + 1..], k);
    if i == n {
      PutHolds(Run(max, ttl, g), max, k, op.value, op.now, others);
    } else {
      var before := OthersPut(g[i + 1..], k);
      assert h[i + 1..] == g[i + 1..] + [op];
      forall x | x in before
        ensures x in others
      {
        var put :| put in g[i + 1..] && put.Put? && put.key != k && put.key == x;
        assert put in h[i + 1..];
      }
      SubsetSize(before, others);
      assert LatestPut(g, i, k);
      HoldsSince(max, ttl, g, i, k);
      var e := Entry(h[i].value, h[i].now);
      assert Holds(Run(max, ttl, g), k, e, others) by {
        var p :| InFront(Run(max, ttl, g).order, k, p, before);
        assert InFront(Run(max, ttl, g).order, k, p, others);
      }
      assert op in h[i + 1..];
      assert op.Put? ==> op.key in others;
      hide Run, Holds, Consistent;
      StepHolds(Run(max, ttl, g), max, ttl, op, k, e, others);
      assert Run(max, ttl, h) == Step(Run(max, ttl, g), max, ttl, op) by { RunStep(max, ttl, h); }
    }
  }

  lemma RunStep<K(!new), V>(max: nat, ttl: int, h: seq<Op<K, V>>)
    requires h != []
    ensures Run(max, ttl, h) == Step(Run(max, ttl, h[..|h| - 1]), max, ttl, h[|h| - 1])
  {
  }

  lemma PutHolds<K(!new), V>(c: Cache<K, V>, max: nat, k: K, v: V, now: int, others: set<K>)
    requires Consistent(c, max) && max > 0
    ensures Holds(OnPut(c, max, k, v, now), k, Entry(v, now), others)
  {
    PutIs(c, max, k, v, now);
    PrependedConsistent(c, max, k, v, now);
    var c' := Prepended(c, k, v, now);
    assert InFront(c'.order, k, 0, others);
    StillInFront(c'.order, k, 0, others, max);
  }

  /** get does return the latest put of its key when it is undeleted, every lookup of the key since and
      now is within the time to live, and fewer than max other keys were put since. */
  lemma GetFindsLatestPut<K(!new), V>(max: nat, ttl: int, h: seq<Op<K, V>>, i: nat, k: K, now: int)
    requires LatestPut(h, i, k)
    requires |OthersPut(h[i + 1..], k)| < max
    requires forall j | i < j < |h| && h[j].key == k :: h[j].now - h[i].now <= ttl
    requires now - h[i].now <= ttl
    ensures OnGet(Run(max, ttl, h), ttl, k, now).1 == Some(h[i].value)
  {
    hide Run;
    HoldsSince(max, ttl, h, i, k);
  }
}
