/** Reading back what the encoder wrote: values, pairs and whole files. */
module GgufRoundTrip {
  import opened Wrappers
  import opened GgufFormat
  import opened GgufMetadata
  import opened GgufParse
  import opened GgufScan

  // ---- Primitive reads ----

  lemma ReadsUint(data: seq<byte>, pos: nat, v: nat, k: nat)
    requires At(data, pos, ToLE(v, k)) && v < Power256(k)
    ensures ReadUint(data, pos, k) == Got(v, pos + k)
  {
    FromToLE(v, k);
  }

  /** A string longer than the limit is read as empty. */
  function KeptText(s: string): string
  {
    if |s| > MAX_KEPT_STRING then "" else s
  }

  lemma ReadsString(data: seq<byte>, pos: nat, s: string, fs: nat)
    requires IsByteString(s) && At(data, pos, EncodeString(s))
    requires |data| <= fs <= MAX_INT64
    ensures ReadString(data, pos, fs) == Got(KeptText(s), pos + |EncodeString(s)|)
    ensures SkipString(data, pos, fs) == Some(pos + |EncodeString(s)|)
  {
    hide BytesOf, TextOf, ToLE, FromLE, Power256, IsByteString;
    AtSplit(data, pos, ToLE(|s|, 8), BytesOf(s));
    Powers();
    ReadsUint(data, pos, |s|, 8);
    TextOfBytes(s);
  }

  // ---- Skipping ----

  lemma ArrayHeader(data: seq<byte>, pos: nat, ty: nat, elems: seq<Value>)
    requires WellFormed(Array(ty, elems)) && At(data, pos, Encode(Array(ty, elems)))
    requires |data| <= MAX_INT64
    ensures |Encode(Array(ty, elems))| == 12 + |EncodeAll(elems)|
    ensures ReadUint(data, pos, 4) == Got(ty, pos + 4)
    ensures ReadUint(data, pos + 4, 8) == Got(|elems|, pos + 12)
    ensures At(data, pos + 12, EncodeAll(elems)) && |elems| <= |EncodeAll(elems)|
  {
    hide ToLE, EncodeAll, FromLE;
    var rest := ToLE(|elems|, 8) + EncodeAll(elems);
    assert Encode(Array(ty, elems)) == ToLE(ty, 4) + rest;
    AtSplit(data, pos, ToLE(ty, 4), rest);
    AtSplit(data, pos + 4, ToLE(|elems|, 8), EncodeAll(elems));
    Powers();
    ReadsUint(data, pos, ty, 4);
    ReadsUint(data, pos + 4, |elems|, 8);
  }

  /** Skipping consumes exactly the encoding, for arrays nested to any depth. */
  lemma {:induction false} SkipsValue(data: seq<byte>, pos: nat, v: Value, fs: nat)
    requires WellFormed(v) && At(data, pos, Encode(v)) && |data| <= fs <= MAX_INT64
    ensures SkipValue(data, pos, TypeOf(v), fs) == Some(pos + |Encode(v)|)
    decreases v, 0
  {
    hide ToLE, EncodeAll, EncodeString, SkipString, SkipElements, ReadUint, Power256;
    match v
    case Scalar(ty, raw) =>
      assert |Encode(v)| == ScalarSize(ty);
    case Text(s) =>
      ReadsString(data, pos, s, fs);
    case Array(ty, elems) =>
      ArrayHeader(data, pos, ty, elems);
      SkipsElements(data, pos + 12, ty, elems, fs);
  }

  lemma {:induction false} SkipsElements(data: seq<byte>, pos: nat, ty: nat, elems: seq<Value>, fs: nat)
    requires WellFormed(Array(ty, elems)) && At(data, pos, EncodeAll(elems)) && |data| <= fs <= MAX_INT64
    ensures SkipElements(data, pos, ty, |elems|, fs) == Some(pos + |EncodeAll(elems)|)
    decreases elems, 2
  {
    hide Encode, EncodeAll, SkipStrings, SkipArrays;
    if ScalarSize(ty) > 0 {
      ScalarArrayLength(elems, ty);
      WrappedProduct(|elems|, ScalarSize(ty));
    } else if ty == STRING {
      SkipsStrings(data, pos, elems, fs);
    } else {
      SkipsArrays(data, pos, elems, fs);
    }
  }

  lemma StringsSplit(elems: seq<Value>)
    requires WellFormed(Array(STRING, elems)) && elems != []
    ensures elems[0].Text? && WellFormed(elems[0]) && IsByteString(elems[0].text)
    ensures WellFormed(Array(STRING, elems[1..]))
  {
    assert elems[0] in elems;
    assert WellFormed(elems[0]) && TypeOf(elems[0]) == STRING;
  }

  lemma {:induction false} SkipsStrings(data: seq<byte>, pos: nat, elems: seq<Value>, fs: nat)
    requires WellFormed(Array(STRING, elems)) && At(data, pos, EncodeAll(elems)) && |data| <= fs <= MAX_INT64
    ensures SkipStrings(data, pos, |elems|, fs) == Some(pos + |EncodeAll(elems)|)
    decreases elems, 1
  {
    hide SkipString, EncodeString, WellFormed;
    if elems != [] {
      var v := elems[0];
      StringsSplit(elems);
      AtSplit(data, pos, Encode(v), EncodeAll(elems[1..]));
      ReadsString(data, pos, v.text, fs);
      SkipsStrings(data, pos + |Encode(v)|, elems[1..], fs);
    }
  }

  lemma {:induction false} SkipsArrays(data: seq<byte>, pos: nat, elems: seq<Value>, fs: nat)
    requires WellFormed(Array(ARRAY, elems)) && At(data, pos, EncodeAll(elems)) && |data| <= fs <= MAX_INT64
    ensures SkipArrays(data, pos, |elems|, fs) == Some(pos + |EncodeAll(elems)|)
    decreases elems, 1
  {
    hide SkipValue, Encode;
    if elems != [] {
      var v := elems[0];
      AtSplit(data, pos, Encode(v), EncodeAll(elems[1..]));
      SkipsValue(data, pos, v, fs);
      assert WellFormed(Array(ARRAY, elems[1..]));
      SkipsArrays(data, pos + |Encode(v)|, elems[1..], fs);
    }
  }

  // ---- What a value means to the reader ----

  predicate IsNumber(v: Value)
  {
    v.Scalar? && v.ty != BOOL
  }

  function Number(v: Value, conv: (nat, nat) -> nat): nat
    requires WellFormed(v) && IsNumber(v)
  {
    Widen(v.ty, v.raw, conv)
  }

  function Numbers(vs: seq<Value>, conv: (nat, nat) -> nat): (r: seq<int>)
    requires forall v | v in vs :: WellFormed(v) && IsNumber(v)
    ensures |r| == |vs|
  {
    seq(|vs|, i requires 0 <= i < |vs| => NumberAt(vs, i, conv))
  }

  function NumberAt(vs: seq<Value>, i: nat, conv: (nat, nat) -> nat): int
    requires i < |vs| && forall v | v in vs :: WellFormed(v) && IsNumber(v)
  {
    assert vs[i] in vs;
    WrapInt64(Number(vs[i], conv))
  }

  function Flags(vs: seq<Value>): (r: seq<bool>)
    requires forall v | v in vs :: v.Scalar?
    ensures |r| == |vs|
  {
    seq(|vs|, i requires 0 <= i < |vs| => FlagAt(vs, i))
  }

  function FlagAt(vs: seq<Value>, i: nat): bool
    requires i < |vs| && forall v | v in vs :: v.Scalar?
  {
    assert vs[i] in vs;
    vs[i].raw != 0
  }

  /** The payload a well-formed value gives under a kind of key; None when the file is refused. */
  function Denote(kind: Kind, v: Value, conv: (nat, nat) -> nat): (r: Option<Payload>)
    requires WellFormed(v)
    ensures r.Some? ==> Fits(kind, r.value)
  {
    match kind
    case Architecture | Name => if v.Text? then Some(Str(KeptText(v.text))) else None
    case PerArch(HeadCountKV, _) =>
      if IsNumber(v) then Some(IntList([WrapInt64(Number(v, conv))]))
      else if v.Array? && IsNumeric(v.elemType) && |v.elems| <= MAX_LAYER_ARRAY then
        Some(IntList(Numbers(v.elems, conv)))
      else None
    case PerArch(SlidingWindowPattern, _) =>
      if v.Array? && v.elemType == BOOL && |v.elems| <= MAX_LAYER_ARRAY then Some(BoolList(Flags(v.elems)))
      else None
    case Other => Some(Skipped)
    case _ => if IsNumber(v) then Some(Uint(Number(v, conv))) else None
  }

  /** A signed integer written in k bytes is read back as itself. */
  lemma SignedNumber(ty: nat, x: int, conv: (nat, nat) -> nat)
    requires ty in {INT8, INT16, INT32, INT64}
    requires 0 - Power256(ScalarSize(ty)) <= 2 * x < Power256(ScalarSize(ty))
    ensures var raw := if x < 0 then x + Power256(ScalarSize(ty)) else x;
            WellFormed(Scalar(ty, raw)) && WrapInt64(Number(Scalar(ty, raw), conv)) == x
  {
    Powers();
  }

  // ---- Reading values back ----

  lemma ReadsNumber(data: seq<byte>, pos: nat, v: Value, conv: (nat, nat) -> nat)
    requires WellFormed(v) && IsNumber(v) && At(data, pos, Encode(v))
    ensures TypedUint(data, pos, v.ty, conv) == Got(Number(v, conv), pos + |Encode(v)|)
  {
    ReadsUint(data, pos, v.raw, ScalarSize(v.ty));
  }

  lemma NumbersSplit(vs: seq<Value>, conv: (nat, nat) -> nat)
    requires vs != [] && forall v | v in vs :: WellFormed(v) && IsNumber(v)
    ensures Numbers(vs, conv) == [WrapInt64(Number(vs[0], conv))] + Numbers(vs[1..], conv)
  {
  }

  lemma {:induction false} ReadsInts(data: seq<byte>, pos: nat, ty: nat, vs: seq<Value>, conv: (nat, nat) -> nat)
    requires WellFormed(Array(ty, vs)) && IsNumeric(ty)
    requires forall v | v in vs :: IsNumber(v)
    requires At(data, pos, EncodeAll(vs))
    ensures Ints(data, pos, ty, |vs|, conv) == Got(Numbers(vs, conv), pos + |EncodeAll(vs)|)
    decreases |vs|
  {
    hide TypedUint, Encode, Number, Numbers, WrapInt64, IsNumeric;
    if vs != [] {
      var v := vs[0];
      AtSplit(data, pos, Encode(v), EncodeAll(vs[1..]));
      ReadsNumber(data, pos, v, conv);
      assert WellFormed(Array(ty, vs[1..]));
      ReadsInts(data, pos + |Encode(v)|, ty, vs[1..], conv);
      NumbersSplit(vs, conv);
    }
  }

  lemma ReadsFlag(data: seq<byte>, pos: nat, v: Value)
    requires WellFormed(v) && v.Scalar? && v.ty == BOOL && At(data, pos, Encode(v))
    ensures ReadUint(data, pos, 1) == Got(v.raw, pos + |Encode(v)|)
  {
  }

  lemma FlagsSplit(vs: seq<Value>)
    requires vs != [] && forall v | v in vs :: v.Scalar?
    ensures Flags(vs) == [vs[0].raw != 0] + Flags(vs[1..])
  {
  }

  lemma {:induction false} ReadsBools(data: seq<byte>, pos: nat, vs: seq<Value>)
    requires WellFormed(Array(BOOL, vs)) && At(data, pos, EncodeAll(vs))
    requires forall v | v in vs :: v.Scalar?
    ensures Bools(data, pos, |vs|) == Got(Flags(vs), pos + |EncodeAll(vs)|)
    decreases |vs|
  {
    hide Encode, ReadUint, Flags;
    if vs != [] {
      var v := vs[0];
      AtSplit(data, pos, Encode(v), EncodeAll(vs[1..]));
      ReadsFlag(data, pos, v);
      assert WellFormed(Array(BOOL, vs[1..]));
      ReadsBools(data, pos + |Encode(v)|, vs[1..]);
      FlagsSplit(vs);
    }
  }

  lemma ScalarElements(ty: nat, vs: seq<Value>)
    requires WellFormed(Array(ty, vs)) && ScalarSize(ty) > 0
    ensures forall v | v in vs :: v.Scalar? && v.ty == ty
  {
  }

  ghost predicate ReadsAs(r: Parsed<Payload>, meaning: Option<Payload>, next: nat)
  {
    match meaning
    case None => r.Fail?
    case Some(p) => r == Got(p, next)
  }

  lemma ReadsIntList(data: seq<byte>, pos: nat, v: Value, arch: string, fs: nat, conv: (nat, nat) -> nat)
    requires WellFormed(v) && At(data, pos, Encode(v)) && |data| <= fs <= MAX_INT64
    ensures ReadsAs(ReadPayload(data, pos, PerArch(HeadCountKV, arch), TypeOf(v), fs, conv),
                    Denote(PerArch(HeadCountKV, arch), v, conv), pos + |Encode(v)|)
  {
    hide Ints, TypedUint, Encode, Numbers, Number, ReadUint, WrapInt64;
    if v.Array? {
      ArrayHeader(data, pos, v.elemType, v.elems);
      if IsNumeric(v.elemType) {
        ScalarElements(v.elemType, v.elems);
        ScalarArrayLength(v.elems, v.elemType);
        ReadsInts(data, pos + 12, v.elemType, v.elems, conv);
      }
    } else if IsNumber(v) {
      ReadsNumber(data, pos, v, conv);
    } else {
      NotNumeric(data, pos, v, conv);
    }
  }

  lemma NotNumeric(data: seq<byte>, pos: nat, v: Value, conv: (nat, nat) -> nat)
    requires WellFormed(v) && !IsNumber(v)
    ensures TypedUint(data, pos, TypeOf(v), conv).Fail?
  {
  }

  lemma ReadsBoolList(data: seq<byte>, pos: nat, v: Value, arch: string, fs: nat, conv: (nat, nat) -> nat)
    requires WellFormed(v) && At(data, pos, Encode(v)) && |data| <= fs <= MAX_INT64
    ensures ReadsAs(ReadPayload(data, pos, PerArch(SlidingWindowPattern, arch), TypeOf(v), fs, conv),
                    Denote(PerArch(SlidingWindowPattern, arch), v, conv), pos + |Encode(v)|)
  {
    hide Bools, Encode, Flags, ReadUint;
    if v.Array? {
      ArrayHeader(data, pos, v.elemType, v.elems);
      if v.elemType == BOOL {
        ScalarElements(BOOL, v.elems);
        ReadsBools(data, pos + 12, v.elems);
      }
    }
  }

  lemma ReadsText(data: seq<byte>, pos: nat, kind: Kind, v: Value, fs: nat, conv: (nat, nat) -> nat)
    requires kind.Architecture? || kind.Name?
    requires WellFormed(v) && At(data, pos, Encode(v)) && |data| <= fs <= MAX_INT64
    ensures ReadsAs(ReadPayload(data, pos, kind, TypeOf(v), fs, conv), Denote(kind, v, conv), pos + |Encode(v)|)
  {
    if v.Text? {
      hide ReadString, EncodeString, KeptText;
      ReadsString(data, pos, v.text, fs);
    } else {
      hide Encode, KeptText, ReadString;
      assert TypeOf(v) != STRING by {
        assert v.Scalar? ==> ScalarSize(v.ty) > 0;
      }
    }
  }

  predicate IsUintKind(kind: Kind)
  {
    match kind
    case FileType | ParameterCount => true
    case PerArch(f, _) => !f.HeadCountKV? && !f.SlidingWindowPattern?
    case _ => false
  }

  lemma ReadsUintKind(data: seq<byte>, pos: nat, kind: Kind, v: Value, fs: nat, conv: (nat, nat) -> nat)
    requires IsUintKind(kind)
    requires WellFormed(v) && At(data, pos, Encode(v))
    ensures ReadsAs(ReadPayload(data, pos, kind, TypeOf(v), fs, conv), Denote(kind, v, conv), pos + |Encode(v)|)
  {
    hide TypedUint, Number, Encode, WellFormed;
    if IsNumber(v) {
      ReadsNumber(data, pos, v, conv);
    } else {
      NotNumeric(data, pos, v, conv);
    }
  }

  lemma ReadsPayload(data: seq<byte>, pos: nat, kind: Kind, v: Value, fs: nat, conv: (nat, nat) -> nat)
    requires WellFormed(v) && At(data, pos, Encode(v)) && |data| <= fs <= MAX_INT64
    ensures ReadsAs(ReadPayload(data, pos, kind, TypeOf(v), fs, conv), Denote(kind, v, conv), pos + |Encode(v)|)
  {
    hide TypedUint, SkipValue, ReadString, Number, UintOrArray, BoolArray, Encode, WellFormed;
    match kind
    case Architecture | Name => ReadsText(data, pos, kind, v, fs, conv);
    case PerArch(HeadCountKV, arch) => ReadsIntList(data, pos, v, arch, fs, conv);
    case PerArch(SlidingWindowPattern, arch) => ReadsBoolList(data, pos, v, arch, fs, conv);
    case Other => SkipsValue(data, pos, v, fs);
    case _ => ReadsUintKind(data, pos, kind, v, fs, conv);
  }

  // ---- Pairs ----

  /** The key as the reader sees it, and what its value means. */
  function SeenKey(kv: Pair): string
  {
    KeptText(kv.key)
  }

  function Meaning(kv: Pair, conv: (nat, nat) -> nat): (r: Option<Payload>)
    requires WellFormedPair(kv)
    ensures r.Some? ==> Fits(KindOf(SeenKey(kv)), r.value)
  {
    Denote(KindOf(SeenKey(kv)), kv.value, conv)
  }

  ghost predicate PairReadsAs(r: Parsed<Kept>, kv: Pair, next: nat, conv: (nat, nat) -> nat)
    requires WellFormedPair(kv)
  {
    match Meaning(kv, conv)
    case None => r.Fail?
    case Some(p) => r == Got(Kept(SeenKey(kv), p), next)
  }

  lemma ReadsPair(data: seq<byte>, pos: nat, kv: Pair, fs: nat, conv: (nat, nat) -> nat)
    requires WellFormedPair(kv) && At(data, pos, EncodePair(kv)) && |data| <= fs <= MAX_INT64
    ensures PairReadsAs(PairAt(data, pos, fs, conv), kv, pos + |EncodePair(kv)|, conv)
  {
    hide ReadPayload, Denote, KindOf, EncodeString, Encode, ReadString, ToLE, ReadUint, Fits, Power256;
    var ty := ToLE(TypeOf(kv.value), 4);
    var name := EncodeString(kv.key);
    assert EncodePair(kv) == name + (ty + Encode(kv.value));
    AtSplit(data, pos, name, ty + Encode(kv.value));
    AtSplit(data, pos + |name|, ty, Encode(kv.value));
    ReadsString(data, pos, kv.key, fs);
    TypeIsSmall(kv.value);
    Powers();
    ReadsUint(data, pos + |name|, TypeOf(kv.value), 4);
    ReadsPayload(data, pos + |name| + 4, KindOf(SeenKey(kv)), kv.value, fs, conv);
  }

  lemma TypeIsSmall(v: Value)
    requires WellFormed(v)
    ensures TypeOf(v) <= FLOAT64
  {
  }

  ghost predicate Encodable(kvs: seq<Pair>)
  {
    forall kv | kv in kvs :: WellFormedPair(kv)
  }

  ghost predicate Accepted(kvs: seq<Pair>, conv: (nat, nat) -> nat)
    requires Encodable(kvs)
  {
    forall kv | kv in kvs :: Meaning(kv, conv).Some?
  }

  function Stage(st: Staging, kv: Pair, conv: (nat, nat) -> nat): Staging
    requires WellFormedPair(kv)
  {
    match Meaning(kv, conv)
    case None => st
    case Some(p) => Store(st, SeenKey(kv), p)
  }

  /** Staging every pair in file order. */
  ghost function StoreAll(st: Staging, kvs: seq<Pair>, conv: (nat, nat) -> nat): Staging
    requires Encodable(kvs)
    decreases |kvs|
  {
    if kvs == [] then st else StoreAll(Stage(st, kvs[0], conv), kvs[1..], conv)
  }

  ghost predicate ScanReadsAs(r: Parsed<Staging>, st: Staging, kvs: seq<Pair>, next: nat, conv: (nat, nat) -> nat)
    requires Encodable(kvs)
  {
    if Accepted(kvs, conv) then r == Got(StoreAll(st, kvs, conv), next) else r.Fail?
  }

  lemma {:induction false} ReadsPairs(data: seq<byte>, pos: nat, kvs: seq<Pair>, st: Staging, fs: nat,
                                      conv: (nat, nat) -> nat)
    requires Encodable(kvs) && At(data, pos, EncodePairs(kvs)) && |data| <= fs <= MAX_INT64
    ensures ScanReadsAs(Scan(data, pos, |kvs|, st, fs, conv), st, kvs, pos + |EncodePairs(kvs)|, conv)
    decreases |kvs|
  {
    hide PairAt, EncodePair, Meaning, Store, WellFormedPair, SeenKey;
    if kvs != [] {
      var kv := kvs[0];
      AtSplit(data, pos, EncodePair(kv), EncodePairs(kvs[1..]));
      ReadsPair(data, pos, kv, fs, conv);
      if Meaning(kv, conv).Some? {
        ReadsPairs(data, pos + |EncodePair(kv)|, kvs[1..], Stage(st, kv, conv), fs, conv);
        assert Accepted(kvs, conv) <==> Accepted(kvs[1..], conv) by {
          assert kvs == [kv] + kvs[1..];
        }
      }
    }
  }

  // ---- Whole files ----

  function EncodeFile(version: nat, tensors: nat, kvs: seq<Pair>, tail: seq<byte>): seq<byte>
    requires forall kv | kv in kvs :: WellFormedPair(kv)
  {
    EncodeHeader(version, tensors, |kvs|) + EncodePairs(kvs) + tail
  }

  lemma ReadsHeader(data: seq<byte>, version: nat, tensors: nat, count: nat)
    requires At(data, 0, EncodeHeader(version, tensors, count))
    requires version < 0x1_0000_0000 && tensors < TWO_64 && count < TWO_64
    ensures ReadUint(data, 0, 4) == Got(MAGIC, 4) && ReadUint(data, 4, 4) == Got(version, 8)
    ensures ReadUint(data, 8, 8) == Got(tensors, 16) && ReadUint(data, 16, 8) == Got(count, 24)
  {
    hide ToLE, FromLE, ReadUint, Power256;
    Powers();
    var m, v, t, c := ToLE(MAGIC, 4), ToLE(version, 4), ToLE(tensors, 8), ToLE(count, 8);
    AtSplit(data, 0, m + v + t, c);
    AtSplit(data, 0, m + v, t);
    AtSplit(data, 0, m, v);
    ReadsUint(data, 0, MAGIC, 4);
    ReadsUint(data, 4, version, 4);
    ReadsUint(data, 8, tensors, 8);
    ReadsUint(data, 16, count, 8);
  }

  /** The scan consumes exactly the header and the pairs, whatever follows them, and stages every pair;
      it refuses the file exactly when the version or pair count is out of range or a pair's value
      has the wrong shape for its key. */
  lemma ReadsFile(version: nat, tensors: nat, kvs: seq<Pair>, tail: seq<byte>, fs: nat, conv: (nat, nat) -> nat)
    requires Encodable(kvs) && version < 0x1_0000_0000 && tensors < TWO_64
    requires |EncodeFile(version, tensors, kvs, tail)| <= fs <= MAX_INT64
    ensures Staged(EncodeFile(version, tensors, kvs, tail), fs, conv) ==
            (if 2 <= version <= 3 && |kvs| <= MAX_KV_COUNT && Accepted(kvs, conv)
             then Got(StoreAll(NOTHING, kvs, conv), 24 + |EncodePairs(kvs)|)
             else Fail)
  {
    hide EncodeHeader, EncodePairs, Scan, StoreAll, Accepted, ReadUint, WellFormedPair;
    var data := EncodeFile(version, tensors, kvs, tail);
    var header, pairs := EncodeHeader(version, tensors, |kvs|), EncodePairs(kvs);
    assert data == header + (pairs + tail);
    assert At(data, 0, header + (pairs + tail));
    AtSplit(data, 0, header, pairs + tail);
    AtSplit(data, 24, pairs, tail);
    PairsAreLong(kvs);
    ReadsHeader(data, version, tensors, |kvs|);
    ReadsPairs(data, 24, kvs, NOTHING, fs, conv);
  }

  lemma {:induction false} PairsAreLong(kvs: seq<Pair>)
    requires forall kv | kv in kvs :: WellFormedPair(kv)
    ensures |EncodePairs(kvs)| >= |kvs|
  {
    if kvs != [] {
      PairsAreLong(kvs[1..]);
    }
  }
}
