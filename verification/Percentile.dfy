/** Quantiles of sparse histograms. Counts and quantiles are exact. */
module Percentile {
  import opened Wrappers

  // ---- Buckets of the reuse ratio ----

  /** Go's int(x): toward zero. */
  function Truncate(x: real): int
  {
    if x >= 0.0 then x.Floor else -((-x).Floor)
  }

  function ReuseBucket(r: real): (b: int)
    ensures 0 <= b <= 19
    ensures 0.0 <= r <= 1.0 ==> -0.025 <= ReuseBucketValue(b) - r <= 0.025
  {
    var b := Truncate(r * 20.0);
    if b < 0 then 0 else if b > 19 then 19 else b
  }

  /** The bucket midpoint. */
  function ReuseBucketValue(b: int): real
  {
    (b as real + 0.5) / 20.0
  }

  lemma ReuseBucketMonotone(r: real, s: real)
    requires r <= s
    ensures ReuseBucket(r) <= ReuseBucket(s)
  {
  }

  // ---- Sequences and counts ----

  ghost predicate Ascending(s: seq<int>)
  {
    forall i, j | 0 <= i < j < |s| :: s[i] <= s[j]
  }

  /** Occurrences of x. */
  function Count(s: seq<int>, x: int): nat
  {
    if s == [] then 0 else (if s[0] == x then 1 else 0) + Count(s[1..], x)
  }

  lemma {:induction false} CountAppend(a: seq<int>, b: seq<int>, x: int)
    ensures Count(a + b, x) == Count(a, x) + Count(b, x)
  {
    if a == [] {
      assert a + b == b;
    } else {
      CountAppend(a[1..], b, x);
      assert (a + b)[1..] == a[1..] + b;
    }
  }

  lemma {:induction false} CountIn(s: seq<int>, x: int)
    ensures Count(s, x) > 0 <==> x in s
  {
    if s != [] {
      CountIn(s[1..], x);
      assert x in s <==> x == s[0] || x in s[1..];
    }
  }

  ghost predicate SameCounts(a: seq<int>, b: seq<int>)
  {
    forall x :: Count(a, x) == Count(b, x)
  }

  /** Two ascending sequences with the same counts are equal. */
  lemma {:induction false} AscendingUnique(a: seq<int>, b: seq<int>)
    requires Ascending(a) && Ascending(b) && SameCounts(a, b)
    ensures a == b
  {
    if a == [] || b == [] {
      if a != [] {
        CountIn(b, a[0]);
        CountIn(a, a[0]);
      } else if b != [] {
        CountIn(a, b[0]);
        CountIn(b, b[0]);
      }
    } else {
      SmallestIn(a, b);
      SmallestIn(b, a);
      forall x
        ensures Count(a[1..], x) == Count(b[1..], x)
      {
        assert Count(a, x) == Count(b, x);
      }
      AscendingUnique(a[1..], b[1..]);
    }
  }

  lemma SmallestIn(a: seq<int>, b: seq<int>)
    requires Ascending(a) && SameCounts(a, b) && a != [] && b != []
    ensures a[0] <= b[0]
  {
    CountIn(b, b[0]);
    CountIn(a, b[0]);
    assert b[0] in a;
  }

  // ---- Sorting keys ----

  ghost predicate Distinct(keys: seq<int>)
  {
    forall i, j | 0 <= i < j < |keys| :: keys[i] != keys[j]
  }

  function Insert(x: int, s: seq<int>): seq<int>
  {
    if s == [] || x <= s[0] then [x] + s else [s[0]] + Insert(x, s[1..])
  }

  function Sort(s: seq<int>): seq<int>
  {
    if s == [] then [] else Insert(s[0], Sort(s[1..]))
  }

  lemma {:induction false} InsertMembers(x: int, s: seq<int>)
    ensures forall y :: y in Insert(x, s) <==> y == x || y in s
  {
    if s != [] && x > s[0] {
      InsertMembers(x, s[1..]);
      assert s == [s[0]] + s[1..];
    }
  }

  lemma ConsSorted(x: int, s: seq<int>)
    requires Ascending(s) && Distinct(s) && forall y | y in s :: x < y
    ensures Ascending([x] + s) && Distinct([x] + s)
  {
    var t := [x] + s;
    forall i, j | 0 <= i < j < |t|
      ensures t[i] <= t[j] && t[i] != t[j]
    {
      assert t[j] == s[j - 1] && s[j - 1] in s;
      assert i > 0 ==> t[i] == s[i - 1];
    }
  }

  lemma {:induction false} InsertSorts(x: int, s: seq<int>)
    requires Ascending(s) && Distinct(s) && x !in s
    ensures Ascending(Insert(x, s)) && Distinct(Insert(x, s))
  {
    if s == [] {
    } else if x <= s[0] {
      ConsSorted(x, s);
    } else {
      InsertSorts(x, s[1..]);
      InsertMembers(x, s[1..]);
      assert forall y | y in s[1..] :: s[0] < y;
      ConsSorted(s[0], Insert(x, s[1..]));
    }
  }

  /** Sorting distinct keys; the histogram's sample count does not depend on their order. */
  lemma {:induction false} SortSorts(h: map<int, int>, s: seq<int>)
    requires Distinct(s)
    ensures Ascending(Sort(s)) && Distinct(Sort(s))
    ensures forall y :: y in Sort(s) <==> y in s
    ensures |Expand(h, Sort(s))| == |Expand(h, s)|
  {
    hide Insert, Ascending;
    if s == [] {
      assert Ascending([]) by { NothingAscending(); }
    } else {
      assert s == [s[0]] + s[1..];
      SortSorts(h, s[1..]);
      assert s[0] !in s[1..];
      InsertSorts(s[0], Sort(s[1..]));
      InsertMembers(s[0], Sort(s[1..]));
      InsertExpands(h, s[0], Sort(s[1..]));
    }
  }

  lemma NothingAscending()
    ensures Ascending([])
  {
  }

  lemma {:induction false} InsertExpands(h: map<int, int>, x: int, s: seq<int>)
    ensures |Expand(h, Insert(x, s))| == CountOf(h, x) + |Expand(h, s)|
  {
    if s == [] || x <= s[0] {
      assert ([x] + s)[1..] == s;
    } else {
      InsertExpands(h, x, s[1..]);
      assert ([s[0]] + Insert(x, s[1..]))[1..] == Insert(x, s[1..]);
    }
  }

  // ---- Histograms ----

  /** The positive count of a bucket, 0 when absent. */
  function CountOf(h: map<int, int>, b: int): nat
  {
    if b in h && h[b] > 0 then h[b] else 0
  }

  /** The histogram counts exactly these bucket numbers. */
  ghost predicate Tallies(h: map<int, int>, bs: seq<int>)
  {
    forall b :: CountOf(h, b) == Count(bs, b)
  }

  /** Adding one sample to a histogram. */
  function Increment(h: map<int, int>, b: int): map<int, int>
  {
    h[b := (if b in h then h[b] else 0) + 1]
  }

  lemma IncrementTallies(h: map<int, int>, bs: seq<int>, b: int)
    requires Tallies(h, bs) && (b in h ==> h[b] >= 0)
    ensures Tallies(Increment(h, b), bs + [b])
  {
    forall x
      ensures CountOf(Increment(h, b), x) == Count(bs + [b], x)
    {
      CountAppend(bs, [b], x);
    }
  }

  function Repeat(x: int, n: nat): (s: seq<int>)
    ensures |s| == n && forall i | 0 <= i < n :: s[i] == x
  {
    seq(n, _ => x)
  }

  lemma {:induction false} RepeatCount(x: int, n: nat, b: int)
    ensures Count(Repeat(x, n), b) == if b == x then n else 0
  {
    if n > 0 {
      RepeatCount(x, n - 1, b);
      assert Repeat(x, n)[1..] == Repeat(x, n - 1);
    }
  }

  /** All samples of the given buckets, laid out bucket by bucket. */
  function Expand(h: map<int, int>, keys: seq<int>): seq<int>
  {
    if keys == [] then [] else Repeat(keys[0], CountOf(h, keys[0])) + Expand(h, keys[1..])
  }

  lemma {:induction false} ExpandCounts(h: map<int, int>, keys: seq<int>, b: int)
    requires Distinct(keys)
    ensures Count(Expand(h, keys), b) == if b in keys then CountOf(h, b) else 0
  {
    if keys != [] {
      ExpandCounts(h, keys[1..], b);
      CountAppend(Repeat(keys[0], CountOf(h, keys[0])), Expand(h, keys[1..]), b);
      RepeatCount(keys[0], CountOf(h, keys[0]), b);
      assert b in keys <==> b == keys[0] || b in keys[1..];
    }
  }

  lemma {:induction false} ExpandAscending(h: map<int, int>, keys: seq<int>)
    requires Ascending(keys)
    ensures Ascending(Expand(h, keys))
    ensures forall x | x in Expand(h, keys) :: x in keys
  {
    if keys != [] {
      ExpandAscending(h, keys[1..]);
      var first, rest := Repeat(keys[0], CountOf(h, keys[0])), Expand(h, keys[1..]);
      assert forall x | x in rest :: x in keys[1..] && keys[0] <= x;
      AscendingAppend(first, rest, keys[0]);
      forall x | x in first + rest
        ensures x in keys
      {
        if x in rest {
          assert x in keys[1..];
        }
      }
    }
  }

  lemma AscendingAppend(a: seq<int>, b: seq<int>, x: int)
    requires Ascending(b) && (forall y | y in a :: y == x) && (forall y | y in b :: x <= y)
    ensures Ascending(a + b)
  {
    var t := a + b;
    forall i, j | 0 <= i < j < |t|
      ensures t[i] <= t[j]
    {
      assert if i < |a| then t[i] == a[i] && a[i] in a else t[i] == b[i - |a|];
      assert if j < |a| then t[j] == a[j] && a[j] in a else t[j] == b[j - |a|] && b[j - |a|] in b;
    }
  }

  /** The samples in order are the expansion of the sorted keys with positive counts. */
  lemma ExpandIsSamples(h: map<int, int>, keys: seq<int>, bs: seq<int>)
    requires Ascending(keys) && Distinct(keys) && (forall k :: k in keys <==> CountOf(h, k) > 0)
    requires Tallies(h, bs) && Ascending(bs)
    ensures Expand(h, keys) == bs
  {
    hide Ascending, Expand;
    forall b
      ensures Count(Expand(h, keys), b) == Count(bs, b)
    {
      ExpandCounts(h, keys, b);
    }
    ExpandAscending(h, keys);
    AscendingUnique(Expand(h, keys), bs);
  }

  /** Smallest integer not below x. */
  function Ceil(x: real): (c: int)
    ensures (c - 1) as real < x <= c as real
  {
    -((-x).Floor)
  }

  /** max(1, ceil(p*n)). */
  function Target(p: real, n: nat): (k: nat)
    ensures k >= 1
  {
    var target := Ceil(p * n as real);
    if target < 1 then 1 else target
  }

  /** The 1-based rank of the p-quantile among n > 0 samples. */
  function Rank(p: real, n: nat): (k: nat)
    requires n > 0
    ensures 1 <= k <= n
  {
    if Target(p, n) > n then n else Target(p, n)
  }

  /** Collects the keys with a positive count, in any order, and the number of samples. */
  method Scan(h: map<int, int>) returns (total: nat, keys: seq<int>)
    ensures Distinct(keys) && (forall k :: k in keys <==> CountOf(h, k) > 0)
    ensures total == |Expand(h, keys)|
  {
    total, keys := 0, [];
    var todo := h.Keys;
    while todo != {}
      invariant todo <= h.Keys
      invariant Distinct(keys)
      invariant forall k :: k in keys <==> k !in todo && CountOf(h, k) > 0
      invariant total == |Expand(h, keys)|
      decreases todo
    {
      ghost var some := Member(todo);
      var k :| k in todo;
      todo := todo - {k};
      if h[k] > 0 {
        assert ([k] + keys)[1..] == keys;
        total := total + h[k];
        keys := [k] + keys;
      }
    }
  }

  /** The loop over the sorted keys. */
  method Select(h: map<int, int>, keys: seq<int>, total: nat, p: real) returns (k: int)
    requires forall k :: k in keys <==> CountOf(h, k) > 0
    requires total == |Expand(h, keys)| > 0
    ensures k == Expand(h, keys)[Rank(p, total) - 1]
  {
    hide Target, Expand;
    var target := Target(p, total);
    var acc := 0;
    assert keys[0..] == keys;
    for i := 0 to |keys|
      invariant 0 <= acc < target && acc <= total
      invariant Expand(h, keys)[acc..] == Expand(h, keys[i..])
      invariant acc == total ==> i > 0 && keys[i - 1] == Expand(h, keys)[total - 1]
    {
      ghost var count := CountOf(h, keys[i]);
      NextKey(h, keys, i, acc);
      assert keys[i] in keys;
      acc := acc + h[keys[i]];
      if acc >= target {
        return keys[i];
      }
    }
    NoKeys(h, keys);
    assert acc == total;
    return keys[|keys| - 1];
  }

  lemma NoKeys(h: map<int, int>, keys: seq<int>)
    ensures Expand(h, keys[|keys|..]) == []
  {
  }

  /** The samples of key i come right behind those of the keys before it. */
  lemma NextKey(h: map<int, int>, keys: seq<int>, i: nat, acc: nat)
    requires i < |keys| && acc <= |Expand(h, keys)|
    requires Expand(h, keys)[acc..] == Expand(h, keys[i..])
    ensures var all, count := Expand(h, keys), CountOf(h, keys[i]);
      && acc + count <= |all|
      && (forall j | acc <= j < acc + count :: all[j] == keys[i])
      && all[acc + count..] == Expand(h, keys[i + 1..])
  {
  }

  /** Percentile: the value of the bucket that holds the order statistic of rank Rank(p, n). */
  method Percentile(h: map<int, int>, p: real, val: int -> real) returns (r: Option<real>)
    ensures forall bs | Tallies(h, bs) && Ascending(bs) ::
      r == if bs == [] then None else Some(val(bs[Rank(p, |bs|) - 1]))
  {
    hide Sort, Tallies, Rank, Expand, Ascending, Distinct, CountOf;
    var total, unsorted := Scan(h);
    var keys := Sort(unsorted);
    SortSorts(h, unsorted);
    forall bs | Tallies(h, bs) && Ascending(bs)
      ensures Expand(h, keys) == bs
    {
      ExpandIsSamples(h, keys, bs);
    }
    if total == 0 {
      return None;
    }
    var k := Select(h, keys, total, p);
    return Some(val(k));
  }

  // ---- From samples to buckets ----

  function Map(f: int -> int, xs: seq<int>): (bs: seq<int>)
    ensures |bs| == |xs| && forall i | 0 <= i < |xs| :: bs[i] == f(xs[i])
  {
    seq(|xs|, i requires 0 <= i < |xs| => f(xs[i]))
  }

  ghost predicate Monotone(f: int -> int)
  {
    forall x, y | x <= y :: f(x) <= f(y)
  }

  /** Bucketing by a monotone function keeps order statistics: the bucket of rank k among the bucketed
      samples is the bucket of the sample of rank k, whatever order the samples arrived in. */
  lemma BucketOfOrderStatistic(h: map<int, int>, f: int -> int, arrived: seq<int>, xs: seq<int>)
    requires Monotone(f) && Ascending(xs) && SameCounts(arrived, xs)
    requires Tallies(h, Map(f, arrived))
    ensures Tallies(h, Map(f, xs)) && Ascending(Map(f, xs))
  {
    forall b
      ensures Count(Map(f, arrived), b) == Count(Map(f, xs), b)
    {
      MapPermutes(f, arrived, xs, b);
    }
  }

  lemma {:induction false} MapPermutes(f: int -> int, a: seq<int>, b: seq<int>, k: int)
    requires SameCounts(a, b)
    ensures Count(Map(f, a), k) == Count(Map(f, b), k)
    decreases |a|
  {
    if a == [] {
      if b != [] {
        CountIn(b, b[0]);
        CountIn(a, b[0]);
        assert false;
      }
    } else {
      assert Count(a, a[0]) == Count(b, a[0]);
      CountIn(a, a[0]);
      CountIn(b, a[0]);
      var i :| 0 <= i < |b| && b[i] == a[0];
      var rest := b[..i] + b[i + 1..];
      forall x
        ensures Count(a[1..], x) == Count(rest, x)
      {
        assert Count(a, x) == Count(b, x);
        CountMiddle(b, i, x);
      }
      MapPermutes(f, a[1..], rest, k);
      assert Map(f, a)[1..] == Map(f, a[1..]);
      assert Map(f, rest) == Map(f, b)[..i] + Map(f, b)[i + 1..];
      CountMiddle(Map(f, b), i, k);
    }
  }

  lemma CountMiddle(s: seq<int>, i: nat, x: int)
    requires i < |s|
    ensures Count(s, x) == Count(s[..i] + s[i + 1..], x) + (if s[i] == x then 1 else 0)
  {
    assert s == s[..i] + s[i..] && s[i..][1..] == s[i + 1..];
    CountAppend(s[..i], s[i..], x);
    CountAppend(s[..i], s[i + 1..], x);
  }
}
