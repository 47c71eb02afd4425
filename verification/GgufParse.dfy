/** What the GGUF metadata reader computes, as functions of the bytes and a position
    (go/internal/gguf/gguf.go). `fs` is the file size the reader checks declared lengths against,
    and `conv` is Go's conversion of a raw float to uint64. */
module GgufParse {
  import Arithmetic
  import opened Wrappers
  import opened GgufFormat
  import opened GgufMetadata

  const MAX_KV_COUNT: nat := 0x10_0000
  const MAX_KEPT_STRING: nat := 0x1_0000
  const MAX_LAYER_ARRAY: nat := 8192

  /** The result of reading at a position: a value and the position after it. */
  datatype Parsed<+T> = Fail | Got(value: T, next: nat)

  // ---- Primitive reads ----

  function ReadUint(data: seq<byte>, pos: nat, k: nat): (r: Parsed<nat>)
    ensures r.Got? <==> pos + k <= |data|
    ensures r.Got? ==> r.next == pos + k && r.value < Power256(k)
  {
    if pos + k <= |data| then
      FromLEBound(data[pos..pos + k]);
      Got(FromLE(data[pos..pos + k]), pos + k)
    else
      Fail
  }

  /** The position after n discarded bytes. */
  function Discard(data: seq<byte>, pos: nat, n: nat): Option<nat>
  {
    if pos + n <= |data| then Some(pos + n) else None
  }

  function ReadString(data: seq<byte>, pos: nat, fs: nat): (r: Parsed<string>)
    ensures r.Got? ==> pos + 8 <= r.next <= |data|
  {
    match ReadUint(data, pos, 8)
    case Fail => Fail
    case Got(n, p) =>
      var len := WrapInt64(n);
      if len < 0 || len > fs || p + len > |data| then Fail
      else Got(if n > MAX_KEPT_STRING then "" else TextOf(data[p..p + len]), p + len)
  }

  function SkipString(data: seq<byte>, pos: nat, fs: nat): (r: Option<nat>)
    ensures r.Some? ==> pos + 8 <= r.value <= |data|
  {
    match ReadUint(data, pos, 8)
    case Fail => None
    case Got(n, p) =>
      var len := WrapInt64(n);
      if len < 0 || len > fs || p + len > |data| then None else Some(p + len)
  }

  // ---- Typed scalars and the two kept array shapes ----

  predicate IsNumeric(ty: nat)
  {
    ScalarSize(ty) > 0 && ty != BOOL
  }

  /** A raw integer or float payload widened to uint64; signed types keep their sign in two's complement. */
  function Widen(ty: nat, raw: nat, conv: (nat, nat) -> nat): (u: nat)
    requires raw < Power256(ScalarSize(ty))
  {
    if ty in {INT8, INT16, INT32} && 2 * raw >= Power256(ScalarSize(ty)) then
      Powers();
      raw + TWO_64 - Power256(ScalarSize(ty))
    else if ty in {FLOAT32, FLOAT64} then conv(ty, raw)
    else raw
  }

  function TypedUint(data: seq<byte>, pos: nat, ty: nat, conv: (nat, nat) -> nat): (r: Parsed<nat>)
    ensures r.Got? ==> pos < r.next <= |data|
  {
    if !IsNumeric(ty) then Fail
    else
      match ReadUint(data, pos, ScalarSize(ty))
      case Fail => Fail
      case Got(raw, p) => Got(Widen(ty, raw, conv), p)
  }

  function Prepend<T>(xs: seq<T>, r: Parsed<seq<T>>): Parsed<seq<T>>
  {
    match r
    case Fail => Fail
    case Got(ys, p) => Got(xs + ys, p)
  }

  function Ints(data: seq<byte>, pos: nat, ty: nat, count: nat, conv: (nat, nat) -> nat): Parsed<seq<int>>
    decreases count
  {
    if count == 0 then Got([], pos)
    else
      match TypedUint(data, pos, ty, conv)
      case Fail => Fail
      case Got(u, p) => Prepend([WrapInt64(u)], Ints(data, p, ty, count - 1, conv))
  }

  function UintOrArray(data: seq<byte>, pos: nat, ty: nat, fs: nat, conv: (nat, nat) -> nat): Parsed<seq<int>>
  {
    if ty != ARRAY then
      match TypedUint(data, pos, ty, conv)
      case Fail => Fail
      case Got(u, p) => Got([WrapInt64(u)], p)
    else
      match ReadUint(data, pos, 4)
      case Fail => Fail
      case Got(elemType, p) =>
        match ReadUint(data, p, 8)
        case Fail => Fail
        case Got(count, q) =>
          if count > MAX_LAYER_ARRAY || !IsNumeric(elemType) || count * ScalarSize(elemType) > fs then Fail
          else Ints(data, q, elemType, count, conv)
  }

  function Bools(data: seq<byte>, pos: nat, count: nat): Parsed<seq<bool>>
    decreases count
  {
    if count == 0 then Got([], pos)
    else
      match ReadUint(data, pos, 1)
      case Fail => Fail
      case Got(b, p) => Prepend([b != 0], Bools(data, p, count - 1))
  }

  function BoolArray(data: seq<byte>, pos: nat, ty: nat, fs: nat): Parsed<seq<bool>>
  {
    if ty != ARRAY then Fail
    else
      match ReadUint(data, pos, 4)
      case Fail => Fail
      case Got(elemType, p) =>
        if elemType != BOOL then Fail
        else
          match ReadUint(data, p, 8)
          case Fail => Fail
          case Got(count, q) =>
            if count > MAX_LAYER_ARRAY || count > fs then Fail else Bools(data, q, count)
  }

  // ---- Skipping ----

  /** The byte total of a scalar array as the int64 product the reader forms. */
  function ArrayBytes(count: nat, size: nat): int
  {
    WrapInt64(WrapInt64(count) * size)
  }

  /** The position after one value of type ty. */
  function SkipValue(data: seq<byte>, pos: nat, ty: nat, fs: nat): (r: Option<nat>)
    requires pos <= |data|
    ensures r.Some? ==> pos < r.value <= |data|
    decreases |data| - pos, 0, 0
  {
    if ScalarSize(ty) > 0 then Discard(data, pos, ScalarSize(ty))
    else if ty == STRING then SkipString(data, pos, fs)
    else if ty == ARRAY then
      match ReadUint(data, pos, 4)
      case Fail => None
      case Got(elemType, p) =>
        match ReadUint(data, p, 8)
        case Fail => None
        case Got(count, q) => SkipElements(data, q, elemType, count, fs)
    else None
  }

  function SkipElements(data: seq<byte>, pos: nat, ty: nat, count: nat, fs: nat): (r: Option<nat>)
    requires pos <= |data|
    ensures r.Some? ==> pos <= r.value <= |data|
    decreases |data| - pos, 2, 0
  {
    if ScalarSize(ty) > 0 then
      var total := ArrayBytes(count, ScalarSize(ty));
      if total < 0 || total > fs then None else Discard(data, pos, total)
    else if ty == STRING || ty == ARRAY then
      if WrapInt64(count) < 0 || WrapInt64(count) > fs then None
      else if ty == STRING then SkipStrings(data, pos, count, fs)
      else SkipArrays(data, pos, count, fs)
    else None
  }

  function SkipStrings(data: seq<byte>, pos: nat, count: nat, fs: nat): (r: Option<nat>)
    requires pos <= |data|
    ensures r.Some? ==> pos <= r.value <= |data|
    decreases count
  {
    if count == 0 then Some(pos)
    else
      match SkipString(data, pos, fs)
      case None => None
      case Some(p) => SkipStrings(data, p, count - 1, fs)
  }

  function SkipArrays(data: seq<byte>, pos: nat, count: nat, fs: nat): (r: Option<nat>)
    requires pos <= |data|
    ensures r.Some? ==> pos <= r.value <= |data|
    decreases |data| - pos, 1, count
  {
    if count == 0 then Some(pos)
    else
      match SkipValue(data, pos, ARRAY, fs)
      case None => None
      case Some(p) => SkipArrays(data, p, count - 1, fs)
  }

  /** The length check multiplies before it compares, so a count whose byte total is a multiple of
      2^64 passes as an empty array: here 2^61 eight-byte elements in a 12-byte value. */
  lemma HugeCountPasses(data: seq<byte>, fs: nat)
    requires At(data, 0, ToLE(UINT64, 4) + ToLE(0x2000_0000_0000_0000, 8))
    ensures SkipValue(data, 0, ARRAY, fs) == Some(12)
  {
    Powers();
    AtSplit(data, 0, ToLE(UINT64, 4), ToLE(0x2000_0000_0000_0000, 8));
    FromToLE(UINT64, 4);
    FromToLE(0x2000_0000_0000_0000, 8);
  }

  /** What the length check is for: step over the elements when the file has room for them. */
  function HonestSkip(data: seq<byte>, pos: nat, bytes: nat, fs: nat): Option<nat>
  {
    if bytes <= fs && pos + bytes <= |data| then Some(pos + bytes) else None
  }

  lemma WrapIgnoresMultiples(x: int, k: int)
    ensures WrapInt64(x + k * TWO_64) == WrapInt64(x)
  {
    Arithmetic.DivMod(x, TWO_64);
    Arithmetic.DivUnique(x + k * TWO_64, TWO_64, x / TWO_64 + k, x % TWO_64);
  }

  lemma WrappedProduct(count: nat, size: nat)
    requires count < TWO_64
    ensures ArrayBytes(count, size) == WrapInt64(count * size)
  {
    var w := WrapInt64(count);
    if w != count {
      assert w == count - TWO_64;
      assert w * size == count * size + (0 - size) * TWO_64;
      WrapIgnoresMultiples(count * size, 0 - size);
    }
  }

  /** The length check does its job exactly when the byte total fits int64 or its low 64 bits do not
      happen to name a length that the file has. */
  lemma LengthCheckExact(data: seq<byte>, pos: nat, ty: nat, count: nat, fs: nat)
    requires pos <= |data| && ScalarSize(ty) > 0 && count < TWO_64 && fs <= MAX_INT64
    ensures SkipElements(data, pos, ty, count, fs) == HonestSkip(data, pos, count * ScalarSize(ty), fs) <==>
              (count * ScalarSize(ty) <= MAX_INT64 ||
               WrapInt64(count * ScalarSize(ty)) < 0 ||
               WrapInt64(count * ScalarSize(ty)) > fs ||
               pos + WrapInt64(count * ScalarSize(ty)) > |data|)
  {
    hide ScalarSize, ArrayBytes, WrapInt64;
    WrappedProduct(count, ScalarSize(ty));
    assert count * ScalarSize(ty) >= 0;
  }
}
