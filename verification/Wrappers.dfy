/** Result types and fixed-width integer arithmetic shared by the models. */
module Wrappers {

  datatype Option<+T> = None | Some(value: T)

  /** Largest and smallest values of Go's int64 (and of int on the daemon's 64-bit hosts). */
  const MAX_INT64: int := 0x7FFF_FFFF_FFFF_FFFF
  const MIN_INT64: int := -0x8000_0000_0000_0000
  const TWO_64: int := 0x1_0000_0000_0000_0000

  /** The two's-complement value Go keeps of an integer result in 64 bits. */
  function WrapInt64(x: int): (r: int)
    ensures MIN_INT64 <= r <= MAX_INT64
    ensures (r - x) % TWO_64 == 0
    ensures MIN_INT64 <= x <= MAX_INT64 ==> r == x
  {
    var m := x % TWO_64;
    if m > MAX_INT64 then m - TWO_64 else m
  }

  /** A non-empty set has a member. */
  lemma Member<T>(s: set<T>) returns (x: T)
    requires s != {}
    ensures x in s
  {
    x :| x in s;
  }

  lemma {:induction false} SubsetSize<K>(a: set<K>, b: set<K>)
    requires a <= b
    ensures |a| <= |b|
  {
    if a != {} {
      var x := Member(a);
      SubsetSize(a - {x}, b - {x});
    }
  }
}

/** Integer division facts that the solver does not find for a variable divisor. */
module Arithmetic {

  lemma DivUnique(n: int, k: int, q: int, r: int)
    requires k > 0 && 0 <= r < k && n == q * k + r
    ensures n / k == q && n % k == r
  {
    var q', r' := n / k, n % k;
    assert n == q' * k + r' by { DivMod(n, k); }
    if q > q' {
      MulAtLeast(q - q', k);
    } else if q < q' {
      MulAtLeast(q' - q, k);
    }
  }

  lemma DivMod(n: int, k: int)
    requires k > 0
    ensures n == n / k * k + n % k && 0 <= n % k < k
  {
  }

  lemma MulAtLeast(a: int, k: int)
    requires a >= 1 && k >= 1
    ensures a * k >= k
  {
  }

  lemma OneMore(a: int, k: int)
    ensures (a + 1) * k == a * k + k
  {
  }

  /** Multiples of k are k apart. */
  lemma NextMultiple(x: int, k: int)
    requires k > 0 && x % k == 0
    ensures (x + k) % k == 0
    ensures forall y | x < y < x + k :: y % k != 0
  {
    DivMod(x, k);
    DivUnique(x + k, k, x / k + 1, 0);
    forall y | x < y < x + k
      ensures y % k != 0
    {
      DivUnique(y, k, x / k, y - x);
    }
  }
}
