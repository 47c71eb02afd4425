/** GGUF metadata values and their byte encoding, after the section "File Structure" of the GGUF
    specification (ggml docs/gguf.md). Go strings are modelled as strings of characters below 256. */
module GgufFormat {
  import Arithmetic

  type byte = x: int | 0 <= x < 256

  const UINT8: nat := 0
  const INT8: nat := 1
  const UINT16: nat := 2
  const INT16: nat := 3
  const UINT32: nat := 4
  const INT32: nat := 5
  const FLOAT32: nat := 6
  const BOOL: nat := 7
  const STRING: nat := 8
  const ARRAY: nat := 9
  const UINT64: nat := 10
  const INT64: nat := 11
  const FLOAT64: nat := 12

  /** Bytes of a scalar type; 0 for the types that are not scalars. */
  function ScalarSize(ty: nat): (n: nat)
    ensures n in {0, 1, 2, 4, 8}
  {
    if ty in {UINT8, INT8, BOOL} then 1
    else if ty in {UINT16, INT16} then 2
    else if ty in {UINT32, INT32, FLOAT32} then 4
    else if ty in {UINT64, INT64, FLOAT64} then 8
    else 0
  }

  // ---- Little-endian numbers ----

  function Power256(k: nat): (p: nat)
    ensures p >= 1
  {
    if k == 0 then 1 else 256 * Power256(k - 1)
  }

  function FromLE(bs: seq<byte>): nat
  {
    if bs == [] then 0 else bs[0] + 256 * FromLE(bs[1..])
  }

  function ToLE(v: nat, k: nat): (bs: seq<byte>)
    ensures |bs| == k
  {
    if k == 0 then [] else [v % 256] + ToLE(v / 256, k - 1)
  }

  lemma {:induction false} FromToLE(v: nat, k: nat)
    requires v < Power256(k)
    ensures FromLE(ToLE(v, k)) == v
  {
    if k > 0 {
      FromToLE(v / 256, k - 1);
      assert ToLE(v, k)[1..] == ToLE(v / 256, k - 1);
    }
  }

  lemma {:induction false} FromLEBound(bs: seq<byte>)
    ensures FromLE(bs) < Power256(|bs|)
  {
    if bs != [] {
      FromLEBound(bs[1..]);
    }
  }

  lemma Powers()
    ensures Power256(1) == 0x100 && Power256(2) == 0x1_0000
    ensures Power256(4) == 0x1_0000_0000 && Power256(8) == 0x1_0000_0000_0000_0000
  {
  }

  // ---- Strings ----

  predicate IsByteString(s: string)
  {
    forall c | c in s :: c as int < 256
  }

  function ByteOf(s: string, i: int): byte
    requires IsByteString(s) && 0 <= i < |s|
  {
    assert s[i] in s;
    s[i] as int
  }

  function BytesOf(s: string): (bs: seq<byte>)
    requires IsByteString(s)
    ensures |bs| == |s|
  {
    seq(|s|, i requires 0 <= i < |s| => ByteOf(s, i))
  }

  function TextOf(bs: seq<byte>): (s: string)
    ensures |s| == |bs| && IsByteString(s)
  {
    seq(|bs|, i requires 0 <= i < |bs| => bs[i] as char)
  }

  lemma TextOfBytes(s: string)
    requires IsByteString(s)
    ensures TextOf(BytesOf(s)) == s
  {
  }

  // ---- Values ----

  /** A scalar with its raw little-endian payload, a string, or an array of one element type. */
  datatype Value =
    | Scalar(ty: nat, raw: nat)
    | Text(text: string)
    | Array(elemType: nat, elems: seq<Value>)

  function TypeOf(v: Value): nat
  {
    match v
    case Scalar(ty, _) => ty
    case Text(_) => STRING
    case Array(_, _) => ARRAY
  }

  predicate WellFormed(v: Value)
  {
    match v
    case Scalar(ty, raw) => ScalarSize(ty) > 0 && raw < Power256(ScalarSize(ty))
    case Text(s) => IsByteString(s)
    case Array(ty, elems) => ty <= FLOAT64 && forall e | e in elems :: TypeOf(e) == ty && WellFormed(e)
  }

  function EncodeString(s: string): seq<byte>
    requires IsByteString(s)
  {
    ToLE(|s|, 8) + BytesOf(s)
  }

  function Encode(v: Value): (bs: seq<byte>)
    requires WellFormed(v)
    ensures |bs| >= 1
    decreases v, 0
  {
    match v
    case Scalar(ty, raw) => ToLE(raw, ScalarSize(ty))
    case Text(s) => EncodeString(s)
    case Array(ty, elems) => ToLE(ty, 4) + ToLE(|elems|, 8) + EncodeAll(elems)
  }

  function EncodeAll(vs: seq<Value>): (bs: seq<byte>)
    requires forall v | v in vs :: WellFormed(v)
    ensures |bs| >= |vs|
    decreases vs, 1
  {
    if vs == [] then [] else Encode(vs[0]) + EncodeAll(vs[1..])
  }

  lemma ScalarLength(v: Value, ty: nat)
    requires WellFormed(v) && TypeOf(v) == ty && ScalarSize(ty) > 0
    ensures |Encode(v)| == ScalarSize(ty)
  {
  }

  /** A scalar array takes its element size times its length. */
  lemma {:induction false} ScalarArrayLength(vs: seq<Value>, ty: nat)
    requires forall v | v in vs :: WellFormed(v) && TypeOf(v) == ty
    requires ScalarSize(ty) > 0
    ensures |EncodeAll(vs)| == |vs| * ScalarSize(ty)
  {
    if vs != [] {
      hide Encode, ScalarSize, WellFormed;
      ScalarLength(vs[0], ty);
      ScalarArrayLength(vs[1..], ty);
      Arithmetic.OneMore(|vs[1..]|, ScalarSize(ty));
    }
  }

  datatype Pair = Pair(key: string, value: Value)

  predicate WellFormedPair(kv: Pair)
  {
    IsByteString(kv.key) && WellFormed(kv.value)
  }

  function EncodePair(kv: Pair): seq<byte>
    requires WellFormedPair(kv)
  {
    EncodeString(kv.key) + ToLE(TypeOf(kv.value), 4) + Encode(kv.value)
  }

  function EncodePairs(kvs: seq<Pair>): seq<byte>
    requires forall kv | kv in kvs :: WellFormedPair(kv)
  {
    if kvs == [] then [] else EncodePair(kvs[0]) + EncodePairs(kvs[1..])
  }

  const MAGIC: nat := 0x4655_4747

  /** Magic, version, tensor count and pair count. */
  function EncodeHeader(version: nat, tensors: nat, pairs: nat): (bs: seq<byte>)
    ensures |bs| == 24
  {
    ToLE(MAGIC, 4) + ToLE(version, 4) + ToLE(tensors, 8) + ToLE(pairs, 8)
  }

  // ---- Bytes at a position ----

  ghost predicate At(data: seq<byte>, pos: nat, bs: seq<byte>)
  {
    pos + |bs| <= |data| && data[pos..pos + |bs|] == bs
  }

  lemma AtSplit(data: seq<byte>, pos: nat, a: seq<byte>, b: seq<byte>)
    requires At(data, pos, a + b)
    ensures At(data, pos, a) && At(data, pos + |a|, b)
  {
    var whole := data[pos..pos + |a + b|];
    assert whole[..|a|] == a && whole[|a|..] == b;
    assert data[pos..pos + |a|] == whole[..|a|];
    assert data[pos + |a|..pos + |a| + |b|] == whole[|a|..];
  }
}
