/** The weights-plus-KV-cache memory floor. Bytes per element are exact rationals. */
module KvCache {
  import opened Wrappers
  import Arithmetic
  import opened GgufMetadata

  const PAD: int := 256

  function PadTo256(n: int): (r: int)
    requires n > 0
    ensures r % PAD == 0 && n <= r < n + PAD
  {
    (n + PAD - 1) / PAD * PAD
  }

  /** Head dimension: the declared length, else embedding_length / head_count, else unusable (0). */
  function HeadDim(meta: Metadata, declared: int): int
  {
    if declared > 0 then declared
    else if meta.headCount > 0 && meta.embeddingLength > 0 then meta.embeddingLength / meta.headCount
    else declared
  }

  /** The conditions under which the formula applies. */
  predicate Estimable(meta: Metadata, nCtx: int)
  {
    && !meta.hybrid && meta.blockCount > 0 && nCtx > 0
    && |meta.headCountKV| == meta.blockCount
    && HeadDim(meta, meta.keyLength) > 0 && HeadDim(meta, meta.valueLength) > 0
  }

  predicate IsSWA(meta: Metadata, il: nat)
  {
    |meta.swaPattern| == meta.blockCount && il < |meta.swaPattern| && meta.swaPattern[il]
  }

  /** Bytes of one KV head of a layer in one cell. */
  function HeadBytes(meta: Metadata, kBpe: real, vBpe: real, il: nat): real
  {
    var hdK := if IsSWA(meta, il) && meta.keyLengthSWA > 0 then meta.keyLengthSWA else HeadDim(meta, meta.keyLength);
    var hdV :=
      if IsSWA(meta, il) && meta.valueLengthSWA > 0 then meta.valueLengthSWA else HeadDim(meta, meta.valueLength);
    hdK as real * kBpe + hdV as real * vBpe
  }

  /** Bytes of one cell of a layer, over all its KV heads. */
  function CellBytes(meta: Metadata, kBpe: real, vBpe: real, il: nat): real
    requires il < |meta.headCountKV|
  {
    Scaled(meta.headCountKV[il], HeadBytes(meta, kBpe, vBpe, il))
  }

  /** Whether a layer keeps a window of cells instead of the whole context. */
  predicate Windowed(meta: Metadata, swaFull: bool, il: nat)
  {
    IsSWA(meta, il) && !swaFull && meta.slidingWindow > 0
  }

  function Min(a: int, b: int): int { if a <= b then a else b }

  /** Cells a layer materializes. */
  function Cells(meta: Metadata, nCtx: int, swaFull: bool, il: nat): int
  {
    if Windowed(meta, swaFull, il) then Min(PadTo256(meta.slidingWindow), nCtx) else nCtx
  }

  /** Bytes of some cells at a given rate per cell. */
  function Scaled(cells: int, rate: real): real
  {
    cells as real * rate
  }

  function TotalBytes(meta: Metadata, nCtx: int, kBpe: real, vBpe: real, swaFull: bool, n: nat): real
    requires n <= |meta.headCountKV|
  {
    if n == 0 then 0.0
    else
      TotalBytes(meta, nCtx, kBpe, vBpe, swaFull, n - 1) +
      Scaled(Cells(meta, nCtx, swaFull, n - 1), CellBytes(meta, kBpe, vBpe, n - 1))
  }

  /** Go's conversion of a float to int64: toward zero. */
  function Truncate(x: real): int
  {
    if x >= 0.0 then x.Floor else -((-x).Floor)
  }

  lemma ScaledTwice(cells: int, heads: int, rate: real)
    ensures cells as real * heads as real * rate == Scaled(cells, Scaled(heads, rate))
  {
  }

  /** The code's window arithmetic: clamped before and after padding, it is the smaller of the two. */
  lemma WindowedCells(meta: Metadata, nCtx: int, swaFull: bool, il: nat, cells: int)
    requires cells ==
      if !IsSWA(meta, il) || swaFull then nCtx
      else if meta.slidingWindow <= 0 || meta.slidingWindow > nCtx then nCtx
      else if PadTo256(meta.slidingWindow) > nCtx then nCtx
      else PadTo256(meta.slidingWindow)
    ensures cells == Cells(meta, nCtx, swaFull, il)
  {
  }

  // ---- The windowed cells as commented ----

  lemma PadOfMultiple(n: int)
    requires n > 0
    ensures n <= PadTo256(n) && (PadTo256(n) == n <==> n % 256 == 0)
  {
  }

  /** Padding is monotone, and the next multiple of 256 is shared by all numbers up to it. */
  lemma PadBetween(a: int, b: int)
    requires 0 < a <= b
    ensures PadTo256(a) <= PadTo256(b)
    ensures PadTo256(a) == PadTo256(b) <==> b <= PadTo256(a)
  {
  }

  /** The comment's cells, min(n_ctx, window + n_ubatch) padded, are never fewer than the code's. They are
      as many exactly when the context is a multiple of 256 within the padded window, or beyond it while
      window and batch together stay within. */
  lemma CellsAsCommented(window: int, ubatch: int, nCtx: int)
    requires ubatch >= 0 && window > 0 && nCtx > 0
    ensures Min(PadTo256(window), nCtx) <= PadTo256(Min(nCtx, window + ubatch))
    ensures Min(PadTo256(window), nCtx) == PadTo256(Min(nCtx, window + ubatch)) <==>
            if nCtx <= PadTo256(window) then nCtx % 256 == 0 else window + ubatch <= PadTo256(window)
  {
    PadOfMultiple(window);
    PadOfMultiple(nCtx);
    PadBetween(window, window + ubatch);
    if window <= nCtx {
      PadBetween(window, nCtx);
    } else {
      PadBetween(nCtx, window);
    }
    MultiplesApart(window, nCtx);
    hide PadTo256;
  }

  /** Beyond a number the first multiple of 256 is its padding. */
  lemma MultiplesApart(window: int, nCtx: int)
    requires window > 0
    ensures nCtx % 256 == 0 && window <= nCtx <= PadTo256(window) ==> nCtx == PadTo256(window)
  {
  }

  /** At the largest context a window of 1024 has 1024 cells by the code and 1536 by the comment. */
  lemma CellsCommentedExample()
    ensures Min(PadTo256(1024), 262144) == 1024 && PadTo256(Min(262144, 1024 + 512)) == 1536
  {
  }

  // ---- The estimate ----

  /** The loop body: bytes of layer il. */
  method LayerBytes(meta: Metadata, nCtx: int, kBpe: real, vBpe: real, swaFull: bool, il: nat, keyLen: int, valLen: int)
      returns (bytes: real)
    requires il < |meta.headCountKV| == meta.blockCount
    requires keyLen == HeadDim(meta, meta.keyLength) && valLen == HeadDim(meta, meta.valueLength)
    ensures bytes == Scaled(Cells(meta, nCtx, swaFull, il), CellBytes(meta, kBpe, vBpe, il))
  {
    hide HeadDim, PadTo256, Cells, Scaled;
    var isSWA := |meta.swaPattern| == meta.blockCount && meta.swaPattern[il];
    var hdK, hdV := keyLen, valLen;
    if isSWA && meta.keyLengthSWA > 0 {
      hdK := meta.keyLengthSWA;
    }
    if isSWA && meta.valueLengthSWA > 0 {
      hdV := meta.valueLengthSWA;
    }
    var cells := nCtx;
    if isSWA && !swaFull {
      var window := meta.slidingWindow;
      if window <= 0 || window > nCtx {
        window := nCtx;
      } else {
        window := PadTo256(window);
        if window > nCtx {
          window := nCtx;
        }
      }
      cells := window;
    }
    WindowedCells(meta, nCtx, swaFull, il, cells);
    var nHeadKV := meta.headCountKV[il];
    var perHead := hdK as real * kBpe + hdV as real * vBpe;
    assert perHead == HeadBytes(meta, kBpe, vBpe, il);
    ScaledTwice(cells, nHeadKV, perHead);
    return cells as real * nHeadKV as real * perHead;
  }

  method KvCacheBytes(meta: Metadata, nCtx: int, kBpe: real, vBpe: real, swaFull: bool) returns (r: Option<int>)
    ensures r.Some? <==> Estimable(meta, nCtx)
    ensures r.Some? ==> r.value == Truncate(TotalBytes(meta, nCtx, kBpe, vBpe, swaFull, |meta.headCountKV|))
  {
    hide Scaled, CellBytes, Cells, Truncate;
    if meta.hybrid || meta.blockCount <= 0 || nCtx <= 0 {
      return None;
    }
    if |meta.headCountKV| != meta.blockCount {
      return None;
    }
    var keyLen, valLen := meta.keyLength, meta.valueLength;
    if keyLen <= 0 && meta.headCount > 0 && meta.embeddingLength > 0 {
      keyLen := meta.embeddingLength / meta.headCount;
    }
    if valLen <= 0 && meta.headCount > 0 && meta.embeddingLength > 0 {
      valLen := meta.embeddingLength / meta.headCount;
    }
    if keyLen <= 0 || valLen <= 0 {
      return None;
    }
    var total := 0.0;
    for il := 0 to meta.blockCount
      invariant total == TotalBytes(meta, nCtx, kBpe, vBpe, swaFull, il)
    {
      var bytes := LayerBytes(meta, nCtx, kBpe, vBpe, swaFull, il, keyLen, valLen);
      total := total + bytes;
    }
    return Some(Truncate(total));
  }

  // ---- The figure as a function of the context ----

  /** Per-cell bytes of the first n layers that are, or are not, windowed. */
  function Rate(meta: Metadata, kBpe: real, vBpe: real, swaFull: bool, windowed: bool, n: nat): real
    requires n <= |meta.headCountKV|
  {
    if n == 0 then 0.0
    else
      Rate(meta, kBpe, vBpe, swaFull, windowed, n - 1) +
      if Windowed(meta, swaFull, n - 1) == windowed then CellBytes(meta, kBpe, vBpe, n - 1) else 0.0
  }

  /** Cells of every windowed layer; without a window the value does not matter. */
  function WindowCells(meta: Metadata, nCtx: int): int
  {
    if meta.slidingWindow > 0 then Min(PadTo256(meta.slidingWindow), nCtx) else nCtx
  }

  /** Full layers grow with the context; windowed layers stop at the padded window. */
  lemma {:induction false} TotalIsPiecewiseLinear(meta: Metadata, nCtx: int, kBpe: real, vBpe: real, swaFull: bool,
                                                  n: nat)
    requires n <= |meta.headCountKV|
    ensures TotalBytes(meta, nCtx, kBpe, vBpe, swaFull, n)
         == Scaled(nCtx, Rate(meta, kBpe, vBpe, swaFull, false, n))
          + Scaled(WindowCells(meta, nCtx), Rate(meta, kBpe, vBpe, swaFull, true, n))
  {
    hide CellBytes, PadTo256;
    if n > 0 {
      hide Scaled;
      TotalIsPiecewiseLinear(meta, nCtx, kBpe, vBpe, swaFull, n - 1);
      hide TotalBytes, Rate;
      var x := CellBytes(meta, kBpe, vBpe, n - 1);
      LastLayer(meta, nCtx, kBpe, vBpe, swaFull, n);
      ScaledSum(WindowCells(meta, nCtx), Rate(meta, kBpe, vBpe, swaFull, true, n - 1), x);
      ScaledSum(nCtx, Rate(meta, kBpe, vBpe, swaFull, false, n - 1), x);
    }
  }

  lemma ScaledSum(cells: int, a: real, b: real)
    ensures Scaled(cells, a + b) == Scaled(cells, a) + Scaled(cells, b)
  {
  }

  lemma LastLayer(meta: Metadata, nCtx: int, kBpe: real, vBpe: real, swaFull: bool, n: nat)
    requires 0 < n <= |meta.headCountKV|
    ensures var x := CellBytes(meta, kBpe, vBpe, n - 1); var windowed := Windowed(meta, swaFull, n - 1);
      && TotalBytes(meta, nCtx, kBpe, vBpe, swaFull, n) == TotalBytes(meta, nCtx, kBpe, vBpe, swaFull, n - 1)
           + Scaled(if windowed then WindowCells(meta, nCtx) else nCtx, x)
      && Rate(meta, kBpe, vBpe, swaFull, true, n)
           == Rate(meta, kBpe, vBpe, swaFull, true, n - 1) + (if windowed then x else 0.0)
      && Rate(meta, kBpe, vBpe, swaFull, false, n)
           == Rate(meta, kBpe, vBpe, swaFull, false, n - 1) + (if windowed then 0.0 else x)
  {
  }

  lemma Distribute(a: real, b: real, c: real)
    ensures a * (b + c) == a * b + a * c
  {
  }

  /** The two growth rates of a mode's whole cache. */
  function FullRate(meta: Metadata, kBpe: real, vBpe: real, swaFull: bool): real
  {
    Rate(meta, kBpe, vBpe, swaFull, false, |meta.headCountKV|)
  }

  function WindowRate(meta: Metadata, kBpe: real, vBpe: real, swaFull: bool): real
  {
    Rate(meta, kBpe, vBpe, swaFull, true, |meta.headCountKV|)
  }

  function CacheSize(meta: Metadata, nCtx: int, kBpe: real, vBpe: real, swaFull: bool): real
  {
    TotalBytes(meta, nCtx, kBpe, vBpe, swaFull, |meta.headCountKV|)
  }

  lemma CacheSizeIs(meta: Metadata, nCtx: int, kBpe: real, vBpe: real, swaFull: bool)
    ensures CacheSize(meta, nCtx, kBpe, vBpe, swaFull)
         == nCtx as real * FullRate(meta, kBpe, vBpe, swaFull)
          + WindowCells(meta, nCtx) as real * WindowRate(meta, kBpe, vBpe, swaFull)
  {
    hide TotalBytes, Rate, WindowCells, Scaled;
    TotalIsPiecewiseLinear(meta, nCtx, kBpe, vBpe, swaFull, |meta.headCountKV|);
    ScaledIs(nCtx, FullRate(meta, kBpe, vBpe, swaFull));
    ScaledIs(WindowCells(meta, nCtx), WindowRate(meta, kBpe, vBpe, swaFull));
  }

  lemma ScaledIs(cells: int, rate: real)
    ensures Scaled(cells, rate) == cells as real * rate
  {
  }

  /** The cache size never shrinks as the context grows exactly when the layers together, and the full
      layers by themselves, have a non-negative rate. */
  lemma GrowsWithContext(meta: Metadata, kBpe: real, vBpe: real, swaFull: bool)
    ensures (forall a, b | 0 < a <= b ::
               CacheSize(meta, a, kBpe, vBpe, swaFull) <= CacheSize(meta, b, kBpe, vBpe, swaFull))
       <==> FullRate(meta, kBpe, vBpe, swaFull) + WindowRate(meta, kBpe, vBpe, swaFull) >= 0.0
            && (meta.slidingWindow > 0 ==> FullRate(meta, kBpe, vBpe, swaFull) >= 0.0)
  {
    hide FullRate, WindowRate, CacheSize, PadTo256;
    var full, win := FullRate(meta, kBpe, vBpe, swaFull), WindowRate(meta, kBpe, vBpe, swaFull);
    forall n
      ensures CacheSize(meta, n, kBpe, vBpe, swaFull) == n as real * full + WindowCells(meta, n) as real * win
    {
      CacheSizeIs(meta, n, kBpe, vBpe, swaFull);
    }
    if full + win >= 0.0 && (meta.slidingWindow > 0 ==> full >= 0.0) {
      forall a, b | 0 < a <= b
        ensures CacheSize(meta, a, kBpe, vBpe, swaFull) <= CacheSize(meta, b, kBpe, vBpe, swaFull)
      {
        LinearGrows(a, b, WindowCells(meta, a), WindowCells(meta, b), full, win);
      }
    } else if full + win < 0.0 {
      assert CacheSize(meta, 2, kBpe, vBpe, swaFull) < CacheSize(meta, 1, kBpe, vBpe, swaFull);
    } else {
      var p := PadTo256(meta.slidingWindow);
      assert WindowCells(meta, p) == p && WindowCells(meta, p + 1) == p;
      assert (p + 1) as real * full == p as real * full + full;
      assert CacheSize(meta, p + 1, kBpe, vBpe, swaFull) < CacheSize(meta, p, kBpe, vBpe, swaFull);
    }
  }

  /** Two points of a piecewise linear function with cells a >= wa and b >= wb. */
  lemma LinearGrows(a: int, b: int, wa: int, wb: int, full: real, win: real)
    requires 0 < a <= b && wa <= wb && wb - wa <= b - a
    requires full + win >= 0.0 && (wb - wa < b - a ==> full >= 0.0)
    ensures a as real * full + wa as real * win <= b as real * full + wb as real * win
  {
  }

  lemma Product(a: real, b: real)
    requires a >= 0.0 && b >= 0.0
    ensures a * b >= 0.0
  {
  }

  /** With non-negative head counts every layer's rate is non-negative. */
  lemma {:induction false} RateNonNegative(meta: Metadata, kBpe: real, vBpe: real, swaFull: bool, windowed: bool,
                                           n: nat)
    requires n <= |meta.headCountKV| && kBpe >= 0.0 && vBpe >= 0.0
    requires HeadDim(meta, meta.keyLength) > 0 && HeadDim(meta, meta.valueLength) > 0
    requires forall h | h in meta.headCountKV :: h >= 0
    ensures Rate(meta, kBpe, vBpe, swaFull, windowed, n) >= 0.0
  {
    hide HeadDim;
    if n > 0 {
      RateNonNegative(meta, kBpe, vBpe, swaFull, windowed, n - 1);
      CellBytesNonNegative(meta, kBpe, vBpe, n - 1);
    }
  }

  lemma CellBytesNonNegative(meta: Metadata, kBpe: real, vBpe: real, il: nat)
    requires il < |meta.headCountKV| && kBpe >= 0.0 && vBpe >= 0.0
    requires HeadDim(meta, meta.keyLength) > 0 && HeadDim(meta, meta.valueLength) > 0
    requires forall h | h in meta.headCountKV :: h >= 0
    ensures CellBytes(meta, kBpe, vBpe, il) >= 0.0
  {
    hide HeadDim, IsSWA;
    var hdK := if IsSWA(meta, il) && meta.keyLengthSWA > 0 then meta.keyLengthSWA else HeadDim(meta, meta.keyLength);
    var hdV :=
      if IsSWA(meta, il) && meta.valueLengthSWA > 0 then meta.valueLengthSWA else HeadDim(meta, meta.valueLength);
    Product(hdK as real, kBpe);
    Product(hdV as real, vBpe);
    assert meta.headCountKV[il] in meta.headCountKV;
    Product(meta.headCountKV[il] as real, hdK as real * kBpe + hdV as real * vBpe);
  }

  /** The estimate in whole bytes, as KvCacheBytes reports it. */
  function Figure(meta: Metadata, nCtx: int, kBpe: real, vBpe: real, swaFull: bool): int
  {
    Truncate(CacheSize(meta, nCtx, kBpe, vBpe, swaFull))
  }

  /** Without --swa-full the windowed layers save what lies beyond their window. */
  lemma WindowSaves(meta: Metadata, nCtx: int, kBpe: real, vBpe: real, swaFull: bool)
    ensures CacheSize(meta, nCtx, kBpe, vBpe, true) - CacheSize(meta, nCtx, kBpe, vBpe, swaFull)
         == (nCtx - WindowCells(meta, nCtx)) as real * WindowRate(meta, kBpe, vBpe, swaFull)
  {
    hide Rate, CacheSize, WindowCells;
    var n := |meta.headCountKV|;
    CacheSizeIs(meta, nCtx, kBpe, vBpe, swaFull);
    CacheSizeIs(meta, nCtx, kBpe, vBpe, true);
    SameLayers(meta, kBpe, vBpe, swaFull, n);
    SameLayers(meta, kBpe, vBpe, true, n);
    NoWindows(meta, kBpe, vBpe, n);
    var full, win := FullRate(meta, kBpe, vBpe, swaFull), WindowRate(meta, kBpe, vBpe, swaFull);
    var cells := WindowCells(meta, nCtx);
    Distribute(nCtx as real, full, win);
    Difference(nCtx as real, cells as real, win);
  }

  /** At one context the windowed figure stays at or below the full-cache figure exactly when the context
      does not exceed the padded window or the windowed layers have a non-negative rate. */
  lemma BelowFullCacheAt(meta: Metadata, nCtx: int, kBpe: real, vBpe: real, swaFull: bool)
    requires nCtx > 0
    ensures CacheSize(meta, nCtx, kBpe, vBpe, swaFull) <= CacheSize(meta, nCtx, kBpe, vBpe, true) <==>
            nCtx == WindowCells(meta, nCtx) || WindowRate(meta, kBpe, vBpe, swaFull) >= 0.0
  {
    hide CacheSize, WindowRate, PadTo256;
    WindowSaves(meta, nCtx, kBpe, vBpe, swaFull);
    SignOfProduct((nCtx - WindowCells(meta, nCtx)) as real, WindowRate(meta, kBpe, vBpe, swaFull));
  }

  lemma SignOfProduct(a: real, b: real)
    requires a >= 0.0
    ensures a * b >= 0.0 <==> a == 0.0 || b >= 0.0
  {
  }

  /** The reported estimate never exceeds the full-cache estimate, at any context, exactly when a model
      with a window has a non-negative rate on its windowed layers. */
  lemma NeverAboveFullCache(meta: Metadata, kBpe: real, vBpe: real, swaFull: bool)
    ensures (forall n | n > 0 :: Figure(meta, n, kBpe, vBpe, swaFull) <= Figure(meta, n, kBpe, vBpe, true)) <==>
            (meta.slidingWindow > 0 ==> WindowRate(meta, kBpe, vBpe, swaFull) >= 0.0)
  {
    hide CacheSize, WindowRate, PadTo256;
    var win := WindowRate(meta, kBpe, vBpe, swaFull);
    if meta.slidingWindow > 0 ==> win >= 0.0 {
      forall n | n > 0
        ensures Figure(meta, n, kBpe, vBpe, swaFull) <= Figure(meta, n, kBpe, vBpe, true)
      {
        BelowFullCacheAt(meta, n, kBpe, vBpe, swaFull);
        TruncateOrder(CacheSize(meta, n, kBpe, vBpe, swaFull), CacheSize(meta, n, kBpe, vBpe, true));
      }
    } else {
      var k := Multiple(-win);
      var n := PadTo256(meta.slidingWindow) + k;
      WindowSaves(meta, n, kBpe, vBpe, swaFull);
      assert k as real * win == -(k as real * -win);
      TruncateOrder(CacheSize(meta, n, kBpe, vBpe, swaFull), CacheSize(meta, n, kBpe, vBpe, true));
      assert Figure(meta, n, kBpe, vBpe, swaFull) > Figure(meta, n, kBpe, vBpe, true);
    }
  }

  /** Some multiple of a positive rate reaches 2. */
  lemma Multiple(rate: real) returns (k: int)
    requires rate > 0.0
    ensures k > 0 && k as real * rate >= 2.0
  {
    var q := 2.0 / rate;
    assert q * rate == 2.0 && q > 0.0;
    k := q.Floor + 1;
    Product(k as real - q, rate);
    Difference(k as real, q, rate);
  }

  lemma TruncateOrder(x: real, y: real)
    ensures x <= y ==> Truncate(x) <= Truncate(y)
    ensures y + 2.0 <= x ==> Truncate(y) < Truncate(x)
  {
  }

  /** A head count of -1, which the metadata reader can return, lifts the windowed figure above the
      full-cache figure. */
  lemma NegativeHeadCount()
    ensures var meta := EMPTY.(blockCount := 1, headCountKV := [-1], keyLength := 1, valueLength := 1,
                               slidingWindow := 1, swaPattern := [true]);
            Estimable(meta, 258) && Figure(meta, 258, 1.0, 1.0, false) > Figure(meta, 258, 1.0, 1.0, true)
  {
    var meta := EMPTY.(blockCount := 1, headCountKV := [-1], keyLength := 1, valueLength := 1,
                       slidingWindow := 1, swaPattern := [true]);
    assert PadTo256(1) == 256;
    assert CellBytes(meta, 1.0, 1.0, 0) == -2.0;
    assert TotalBytes(meta, 258, 1.0, 1.0, false, 0) == TotalBytes(meta, 258, 1.0, 1.0, true, 0) == 0.0;
    assert CacheSize(meta, 258, 1.0, 1.0, false) == -512.0;
    assert CacheSize(meta, 258, 1.0, 1.0, true) == -516.0;
  }

  /** With non-negative rates the estimate is not negative, grows with the context and stays at or below
      the full-cache estimate. */
  lemma BytesMonotoneAndBounded(meta: Metadata, a: int, b: int, kBpe: real, vBpe: real, swaFull: bool)
    requires 0 < a <= b
    requires FullRate(meta, kBpe, vBpe, swaFull) >= 0.0 && WindowRate(meta, kBpe, vBpe, swaFull) >= 0.0
    ensures 0 <= Figure(meta, a, kBpe, vBpe, swaFull)
              <= Figure(meta, b, kBpe, vBpe, swaFull)
              <= Figure(meta, b, kBpe, vBpe, true)
  {
    hide CacheSize, FullRate, WindowRate, Truncate;
    var full, win := FullRate(meta, kBpe, vBpe, swaFull), WindowRate(meta, kBpe, vBpe, swaFull);
    GrowsWithContext(meta, kBpe, vBpe, swaFull);
    NeverAboveFullCache(meta, kBpe, vBpe, swaFull);
    CacheSizeIs(meta, a, kBpe, vBpe, swaFull);
    WindowCellsBound(meta, a);
    hide WindowCells;
    LinearBounds(a, WindowCells(meta, a), full, win);
    assert 0.0 <= CacheSize(meta, a, kBpe, vBpe, swaFull) <= CacheSize(meta, b, kBpe, vBpe, swaFull);
    assert 0 == Truncate(0.0) by {
      TruncateZero();
    }
    TruncateOrder(0.0, CacheSize(meta, a, kBpe, vBpe, swaFull));
    TruncateOrder(CacheSize(meta, a, kBpe, vBpe, swaFull), CacheSize(meta, b, kBpe, vBpe, swaFull));
  }

  /** The estimate in whole bytes never shrinks as the context grows exactly when the exact one does not,
      or it falls by less than a byte over the window and rises from there. */
  lemma FigureGrowsWithContext(meta: Metadata, kBpe: real, vBpe: real, swaFull: bool)
    ensures (forall a, b | 0 < a <= b :: Figure(meta, a, kBpe, vBpe, swaFull) <= Figure(meta, b, kBpe, vBpe, swaFull))
       <==> FigureGrows(meta.slidingWindow, FullRate(meta, kBpe, vBpe, swaFull), WindowRate(meta, kBpe, vBpe, swaFull))
  {
    hide CacheSize, FullRate, WindowRate, PadTo256, Truncate, Line, FigureGrows;
    var window := meta.slidingWindow;
    var full, win := FullRate(meta, kBpe, vBpe, swaFull), WindowRate(meta, kBpe, vBpe, swaFull);
    forall n | n > 0
      ensures CacheSize(meta, n, kBpe, vBpe, swaFull) == Line(window, full, win, n)
    {
      CacheSizeIsLine(meta, n, kBpe, vBpe, swaFull);
    }
    if FigureGrows(window, full, win) {
      forall a, b | 0 < a <= b
        ensures Figure(meta, a, kBpe, vBpe, swaFull) <= Figure(meta, b, kBpe, vBpe, swaFull)
      {
        LineGrows(window, full, win, a, b);
      }
    } else {
      var a, b := LineFalls(window, full, win);
      assert Figure(meta, b, kBpe, vBpe, swaFull) < Figure(meta, a, kBpe, vBpe, swaFull);
    }
  }

  predicate FigureGrows(window: int, full: real, win: real)
  {
    if window > 0 then full >= 0.0 && Scaled(PadTo256(window), full + win) > -1.0 else full + win >= 0.0
  }

  /** The exact estimate: one slope up to the padded window and another beyond. */
  function Line(window: int, full: real, win: real, n: int): real
  {
    if window > 0 && n > PadTo256(window)
    then Scaled(PadTo256(window), full + win) + Scaled(n - PadTo256(window), full)
    else Scaled(n, full + win)
  }

  lemma CacheSizeIsLine(meta: Metadata, n: int, kBpe: real, vBpe: real, swaFull: bool)
    requires n > 0
    ensures CacheSize(meta, n, kBpe, vBpe, swaFull) ==
            Line(meta.slidingWindow, FullRate(meta, kBpe, vBpe, swaFull), WindowRate(meta, kBpe, vBpe, swaFull), n)
  {
    hide CacheSize, FullRate, WindowRate, PadTo256, Scaled;
    var full, win := FullRate(meta, kBpe, vBpe, swaFull), WindowRate(meta, kBpe, vBpe, swaFull);
    var cells := WindowCells(meta, n);
    CacheSizeIs(meta, n, kBpe, vBpe, swaFull);
    ScaledIs(n, full);
    ScaledIs(cells, win);
    ScaledSum(cells, full, win);
    ScaledParts(cells, n - cells, full);
  }

  lemma ScaledParts(a: int, b: int, rate: real)
    ensures Scaled(a + b, rate) == Scaled(a, rate) + Scaled(b, rate)
  {
  }

  lemma ScaledOrder(a: int, b: int, rate: real)
    requires a <= b
    ensures rate >= 0.0 ==> Scaled(a, rate) <= Scaled(b, rate)
    ensures rate <= 0.0 ==> Scaled(b, rate) <= Scaled(a, rate)
    ensures Scaled(0, rate) == 0.0
  {
  }

  lemma LineGrows(window: int, full: real, win: real, a: int, b: int)
    requires FigureGrows(window, full, win) && 0 < a <= b
    ensures Truncate(Line(window, full, win, a)) <= Truncate(Line(window, full, win, b))
  {
    hide PadTo256, Scaled, Truncate;
    var r := full + win;
    ScaledOrder(a, b, r);
    ScaledOrder(0, a, r);
    if window > 0 {
      var p := PadTo256(window);
      ScaledOrder(if a <= p then a else p, if a <= p then p else a, r);
      ScaledOrder(if b <= p then b else p, if b <= p then p else b, r);
      ScaledOrder(if a <= p then 0 else a - p, if b <= p then b else b - p, full);
      if b > p {
        ScaledOrder(0, b - p, full);
      }
    }
    TruncateOrder(Line(window, full, win, a), Line(window, full, win, b));
    TruncateSmall(Line(window, full, win, a));
    TruncateSmall(Line(window, full, win, b));
  }

  /** Above -1 nothing is truncated below zero. */
  lemma TruncateSmall(x: real)
    ensures x > -1.0 ==> Truncate(x) >= 0
    ensures -1.0 < x <= 0.0 ==> Truncate(x) == 0
  {
  }

  lemma LineFalls(window: int, full: real, win: real) returns (a: int, b: int)
    requires !FigureGrows(window, full, win)
    ensures 0 < a <= b && Truncate(Line(window, full, win, b)) < Truncate(Line(window, full, win, a))
  {
    hide PadTo256, Scaled, Truncate;
    var r := full + win;
    if window <= 0 {
      var k := FallsByTwo(r);
      a, b := 1, 1 + k;
      ScaledParts(1, k, r);
    } else if full < 0.0 {
      var k := FallsByTwo(full);
      a := PadTo256(window);
      b := a + k;
    } else {
      PadAtLeast(window);
      a, b := 1, PadTo256(window);
      FallsByOne(b, r);
    }
    TruncateOrder(Line(window, full, win, a), Line(window, full, win, b));
  }

  lemma PadAtLeast(n: int)
    requires n > 0
    ensures PadTo256(n) >= 256
  {
  }

  lemma FallsByTwo(rate: real) returns (k: int)
    requires rate < 0.0
    ensures k > 0 && Scaled(k, rate) <= -2.0
  {
    k := Multiple(-rate);
    assert k as real * rate == -(k as real * -rate);
  }

  /** Falling by a byte over 256 cells or more shows after truncation. */
  lemma FallsByOne(p: int, r: real)
    requires p >= 256 && Scaled(p, r) <= -1.0
    ensures Truncate(Scaled(p, r)) < Truncate(Scaled(1, r))
  {
    ScaledIs(1, r);
    hide Scaled;
    ScaledOrder(0, p, r);
    if r > -1.0 {
      TruncateSmall(r);
      TruncateOrder(Scaled(p, r), -1.0);
      TruncateMinusOne();
    } else {
      hide Truncate;
      ScaledOrder(256, p, r);
      ScaledIs(256, r);
      TruncateByOne(Scaled(p, r), r);
    }
  }

  lemma TruncateMinusOne()
    ensures Truncate(-1.0) == -1
  {
  }

  lemma TruncateByOne(x: real, y: real)
    requires y <= -1.0 && x <= 256.0 * y
    ensures Truncate(x) < Truncate(y)
  {
  }

  lemma WindowCellsBound(meta: Metadata, nCtx: int)
    requires nCtx > 0
    ensures 0 < WindowCells(meta, nCtx) <= nCtx
  {
  }

  lemma TruncateZero()
    ensures Truncate(0.0) == 0
  {
  }

  /** Head counts that are not negative make both rates so. */
  lemma RatesOfHeadCounts(meta: Metadata, nCtx: int, kBpe: real, vBpe: real, swaFull: bool)
    requires Estimable(meta, nCtx) && kBpe >= 0.0 && vBpe >= 0.0
    requires forall h | h in meta.headCountKV :: h >= 0
    ensures FullRate(meta, kBpe, vBpe, swaFull) >= 0.0 && WindowRate(meta, kBpe, vBpe, swaFull) >= 0.0
  {
    RateNonNegative(meta, kBpe, vBpe, swaFull, false, |meta.headCountKV|);
    RateNonNegative(meta, kBpe, vBpe, swaFull, true, |meta.headCountKV|);
  }

  lemma Difference(a: real, b: real, c: real)
    ensures (a - b) * c == a * c - b * c
  {
  }

  lemma LinearBounds(a: int, wa: int, full: real, win: real)
    requires 0 <= wa <= a && full >= 0.0 && win >= 0.0
    ensures 0.0 <= a as real * full + wa as real * win <= a as real * (full + win)
  {
    Product(a as real, full);
    Product(wa as real, win);
    Product((a - wa) as real, win);
    Distribute(a as real, full, win);
    Difference(a as real, wa as real, win);
  }

  /** The rates of windowed and full layers add up to the rate of all layers. */
  lemma {:induction false} SameLayers(meta: Metadata, kBpe: real, vBpe: real, swaFull: bool, n: nat)
    requires n <= |meta.headCountKV|
    ensures Rate(meta, kBpe, vBpe, swaFull, false, n) + Rate(meta, kBpe, vBpe, swaFull, true, n)
         == Rate(meta, kBpe, vBpe, true, false, n)
  {
    hide CellBytes;
    if n > 0 {
      SameLayers(meta, kBpe, vBpe, swaFull, n - 1);
    }
  }

  lemma {:induction false} NoWindows(meta: Metadata, kBpe: real, vBpe: real, n: nat)
    requires n <= |meta.headCountKV|
    ensures Rate(meta, kBpe, vBpe, true, true, n) == 0.0
  {
    hide CellBytes;
    if n > 0 {
      NoWindows(meta, kBpe, vBpe, n - 1);
    }
  }

  // ---- The need of a mode ----

  /** The context whose figure is used: the configured one divided by --parallel, as Go divides, unless that
      leaves nothing. */
  function UsedContext(context: int, parallel: int): int
    requires parallel > 0
  {
    var n := if context >= 0 then context / parallel else -((-context) / parallel);
    if n <= 0 then context else n
  }

  /** Computed floor: on-disk weights plus KV cache; None when either is unavailable. */
  function KvAwareNeed(weightBytes: int, kvBytes: Option<int>): Option<int>
  {
    if kvBytes.None? || weightBytes <= 0 then None else Some(weightBytes + kvBytes.value)
  }

  /** kvAwareNeedBytes for readable metadata and known cache types: the floor is the weights plus the figure
      at the divided context. */
  method KvAwareNeedBytes(meta: Metadata, context: int, parallel: int, kBpe: real, vBpe: real, swaFull: bool,
                          weightBytes: int) returns (need: Option<int>)
    requires parallel > 0
    ensures need.Some? <==> Estimable(meta, UsedContext(context, parallel)) && weightBytes > 0
    ensures need.Some? ==> need.value == weightBytes + Figure(meta, UsedContext(context, parallel), kBpe, vBpe, swaFull)
  {
    hide TotalBytes, Truncate;
    var nCtx := if context >= 0 then context / parallel else -((-context) / parallel);
    if nCtx <= 0 {
      nCtx := context;
    }
    var kvBytes := KvCacheBytes(meta, nCtx, kBpe, vBpe, swaFull);
    need := KvAwareNeed(weightBytes, kvBytes);
  }

  lemma UsedWithin(context: int, parallel: int)
    requires parallel > 0 && context > 0
    ensures 0 < UsedContext(context, parallel) <= context
    ensures UsedContext(context, parallel) < context <==> 1 < parallel <= context
    ensures parallel > 1 && parallel <= context ==> 2 * UsedContext(context, parallel) <= context
  {
    if parallel > 1 {
      DivSmaller(context, parallel);
    }
  }

  lemma DivSmaller(n: int, p: int)
    requires n > 0 && p > 1
    ensures 2 * (n / p) <= n && (n / p > 0 <==> p <= n)
  {
    var q := n / p;
    assert q * p <= n < q * p + p;
    if q > 0 {
      assert q * 2 <= q * p;
    }
  }

  /** Between them, an amount reaches a whole number of bytes: from zero up, it comes to it; below zero, it
      rises above it. */
  ghost predicate Between(x: real, bytes: int, y: real)
  {
    if bytes > 0 then x < bytes as real <= y else bytes < 0 && x <= bytes as real < y
  }

  /** The figure at one context is below that at another exactly when a whole byte lies between the exact
      estimates. */
  lemma FigureBelowExactly(meta: Metadata, n: int, context: int, kBpe: real, vBpe: real, swaFull: bool)
    ensures Figure(meta, n, kBpe, vBpe, swaFull) < Figure(meta, context, kBpe, vBpe, swaFull) <==>
            exists bytes :: Between(CacheSize(meta, n, kBpe, vBpe, swaFull), bytes,
                                    CacheSize(meta, context, kBpe, vBpe, swaFull))
  {
    hide CacheSize, Truncate, Between;
    WholeByteBetween(CacheSize(meta, n, kBpe, vBpe, swaFull), CacheSize(meta, context, kBpe, vBpe, swaFull));
  }

  lemma WholeByteBetween(x: real, y: real)
    ensures Truncate(x) < Truncate(y) <==> exists bytes :: Between(x, bytes, y)
  {
    hide Between, Truncate;
    if Truncate(x) < Truncate(y) {
      TruncatedIsBetween(x, y);
    } else {
      forall bytes
        ensures !Between(x, bytes, y)
      {
        if Between(x, bytes, y) {
          BetweenIsTruncated(x, bytes, y);
        }
      }
    }
  }

  lemma TruncatedIsBetween(x: real, y: real)
    requires Truncate(x) < Truncate(y)
    ensures Between(x, if Truncate(y) > 0 then Truncate(y) else Truncate(x), y)
  {
    TruncateBounds(x);
    TruncateBounds(y);
    hide Truncate;
    WholeSteps(Truncate(x), Truncate(y));
  }

  lemma WholeSteps(a: int, b: int)
    requires a < b
    ensures (a + 1) as real <= b as real && a as real <= (b - 1) as real
  {
  }

  lemma BetweenIsTruncated(x: real, bytes: int, y: real)
    requires Between(x, bytes, y)
    ensures Truncate(x) < Truncate(y)
  {
    TruncateBounds(x);
    TruncateBounds(y);
    hide Truncate;
    WholeOrder(Truncate(x), bytes);
    WholeOrder(bytes, Truncate(y));
    WholeOrder(bytes, Truncate(y) + 1);
    WholeOrder(Truncate(x) - 1, bytes);
  }

  lemma TruncateBounds(x: real)
    ensures if x >= 0.0 then 0 <= Truncate(x) && Truncate(x) as real <= x < (Truncate(x) + 1) as real
            else Truncate(x) <= 0 && (Truncate(x) - 1) as real < x <= Truncate(x) as real
  {
    FloorBounds(x);
    FloorBounds(-x);
  }

  lemma FloorBounds(x: real)
    ensures x.Floor as real <= x < (x.Floor + 1) as real
  {
  }

  lemma WholeOrder(a: int, b: int)
    ensures a as real < b as real ==> a < b
  {
  }

  /** Dividing by --parallel undercuts the figure of the configured context at some context exactly when the
      cache comes to a byte there: with a window, when the full layers hold anything or the windowed ones a
      byte over the padded window. */
  lemma ParallelUndercutsExactly(meta: Metadata, kBpe: real, vBpe: real, swaFull: bool, parallel: int)
    requires parallel > 1
    requires FullRate(meta, kBpe, vBpe, swaFull) >= 0.0 && WindowRate(meta, kBpe, vBpe, swaFull) >= 0.0
    ensures (exists context | context > 0 :: Figure(meta, UsedContext(context, parallel), kBpe, vBpe, swaFull) <
                                             Figure(meta, context, kBpe, vBpe, swaFull)) <==>
            HoldsAByte(meta.slidingWindow, FullRate(meta, kBpe, vBpe, swaFull), WindowRate(meta, kBpe, vBpe, swaFull))
  {
    hide CacheSize, FullRate, WindowRate, Truncate, Line, HoldsAByte, UsedContext;
    var window := meta.slidingWindow;
    var full, win := FullRate(meta, kBpe, vBpe, swaFull), WindowRate(meta, kBpe, vBpe, swaFull);
    forall n | n > 0
      ensures CacheSize(meta, n, kBpe, vBpe, swaFull) == Line(window, full, win, n)
    {
      CacheSizeIsLine(meta, n, kBpe, vBpe, swaFull);
    }
    forall context | context > 0
      ensures 0 < UsedContext(context, parallel) <= context
    {
      UsedWithin(context, parallel);
    }
    if HoldsAByte(window, full, win) {
      var context := UndercutAt(window, full, win, parallel);
      assert Figure(meta, UsedContext(context, parallel), kBpe, vBpe, swaFull) <
             Figure(meta, context, kBpe, vBpe, swaFull);
    } else {
      forall n | n > 0
        ensures Figure(meta, n, kBpe, vBpe, swaFull) == 0
      {
        NothingToHold(window, full, win, n);
      }
    }
  }

  predicate HoldsAByte(window: int, full: real, win: real)
  {
    if window > 0 then full > 0.0 || Scaled(PadTo256(window), win) >= 1.0 else full + win > 0.0
  }

  lemma NothingToHold(window: int, full: real, win: real, n: int)
    requires full >= 0.0 && win >= 0.0 && !HoldsAByte(window, full, win) && n > 0
    ensures Truncate(Line(window, full, win, n)) == 0
  {
    hide PadTo256, Scaled, Truncate;
    ScaledIs(n, full + win);
    ScaledIs(n, 0.0);
    if window > 0 {
      var p := PadTo256(window);
      ScaledIs(n - p, full);
      ScaledOrder(0, n, win);
      ScaledOrder(0, p, win);
      if n <= p {
        ScaledOrder(n, p, win);
      }
    }
    TruncateBelowOne(Line(window, full, win, n));
  }

  lemma TruncateBelowOne(x: real)
    ensures 0.0 <= x < 1.0 ==> Truncate(x) == 0
    ensures x >= 1.0 ==> Truncate(x) >= 1
  {
  }

  lemma UsedOfMultiple(n: int, parallel: int)
    requires parallel > 0 && n > 0
    ensures parallel * n > 0 && UsedContext(parallel * n, parallel) == n
  {
    Arithmetic.DivUnique(parallel * n, parallel, n, 0);
  }

  /** A context at which the divided one has a smaller figure. */
  lemma UndercutAt(window: int, full: real, win: real, parallel: int) returns (context: int)
    requires full >= 0.0 && win >= 0.0 && HoldsAByte(window, full, win) && parallel > 1
    ensures context > 0
    ensures Truncate(Line(window, full, win, UsedContext(context, parallel))) <
            Truncate(Line(window, full, win, context))
  {
    hide PadTo256, Scaled, Truncate, UsedContext;
    if window <= 0 || full > 0.0 {
      context := UndercutBeyond(window, full, win, parallel);
    } else {
      context := UndercutWithin(window, win, parallel);
    }
  }

  /** Beyond the window the full layers grow without end. */
  lemma UndercutBeyond(window: int, full: real, win: real, parallel: int) returns (context: int)
    requires full >= 0.0 && win >= 0.0 && parallel > 1
    requires if window > 0 then full > 0.0 else full + win > 0.0
    ensures context > 0
    ensures Truncate(Line(window, full, win, UsedContext(context, parallel))) <
            Truncate(Line(window, full, win, context))
  {
    hide PadTo256, Scaled, Truncate, UsedContext;
    var rate := if window > 0 then full else full + win;
    var k := Multiple(rate);
    ScaledIs(k, rate);
    var start := if window > 0 then PadTo256(window) else 0;
    var used := start + k;
    context := parallel * used;
    UsedOfMultiple(used, parallel);
    AtLeastDouble(parallel, used);
    ScaledParts(k, context - used, rate);
    ScaledOrder(k, context - used, rate);
    TruncateOrder(Line(window, full, win, context), Line(window, full, win, used));
  }

  lemma AtLeastDouble(parallel: int, n: int)
    requires parallel > 1 && n > 0
    ensures parallel * n >= 2 * n
  {
  }

  /** Within the window the windowed layers grow to a byte or more. */
  lemma UndercutWithin(window: int, win: real, parallel: int) returns (context: int)
    requires window > 0 && win >= 0.0 && Scaled(PadTo256(window), win) >= 1.0 && parallel > 1
    ensures context > 0
    ensures Truncate(Line(window, 0.0, win, UsedContext(context, parallel))) < Truncate(Line(window, 0.0, win, context))
  {
    var p := PadTo256(window);
    PadAtLeast(window);
    hide PadTo256, Scaled, Truncate, UsedContext;
    context := if parallel <= p then p else parallel;
    var used := UsedContext(context, parallel);
    UsedWithin(context, parallel);
    if parallel > p {
      UsedOfMultiple(1, parallel);
    }
    ScaledOrder(0, used, win);
    ScaledOrder(2 * used, p, win);
    ScaledParts(used, used, win);
    ScaledOrder(0, context - p, 0.0);
    ScaledIs(context - p, 0.0);
    HalfIsBelow(Scaled(used, win), Scaled(p, win));
  }

  lemma HalfIsBelow(x: real, y: real)
    requires 0.0 <= x && 2.0 * x <= y && y >= 1.0
    ensures Truncate(x) < Truncate(y)
  {
  }

  /** modeNeedEstimate: profile, else curated figure, else weights, the latter two raised to the floor. */
  function ModeNeed(profile: Option<int>, curated: Option<int>, weightBytes: int, kvBytes: Option<int>)
      : (r: Option<int>)
    ensures profile.Some? && profile.value > 0 ==> r == profile
    ensures !(profile.Some? && profile.value > 0) && kvBytes.Some? && weightBytes > 0 ==>
      r.Some? && r.value >= weightBytes + kvBytes.value
    ensures !(profile.Some? && profile.value > 0) && curated.Some? && curated.value > 0 ==>
      r.Some? && r.value >= curated.value
    ensures r.None? <==> !(profile.Some? && profile.value > 0) && !(curated.Some? && curated.value > 0) &&
                         weightBytes <= 0
  {
    if profile.Some? && profile.value > 0 then profile
    else
      var floor := KvAwareNeed(weightBytes, kvBytes);
      if curated.Some? && curated.value > 0 then
        if floor.Some? && floor.value > curated.value then floor else curated
      else if weightBytes > 0 then
        if floor.Some? && floor.value > weightBytes then floor else Some(weightBytes)
      else floor
  }
}
