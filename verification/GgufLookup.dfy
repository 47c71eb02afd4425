/** What the metadata of a GGUF file is, as a lookup by key in the table of its pairs: the staging by
    architecture prefix computes it wherever the pairs stand in the file. */
module GgufLookup {
  import opened Wrappers
  import opened GgufFormat
  import opened GgufMetadata
  import opened GgufParse
  import opened GgufScan
  import opened GgufRoundTrip

  type Table = map<string, Payload>

  // ---- Lookup by key ----

  function TextAt(m: Table, key: string): string
  {
    if key in m && m[key].Str? then m[key].s else ""
  }

  function IntAt(m: Table, key: string): int
  {
    if key in m && m[key].Uint? then WrapInt64(m[key].u) else 0
  }

  function IntsAt(m: Table, key: string): seq<int>
  {
    if key in m && m[key].IntList? then m[key].ints else []
  }

  function BoolsAt(m: Table, key: string): seq<bool>
  {
    if key in m && m[key].BoolList? then m[key].bools else []
  }

  /** The trained context is the declared architecture's, or llama's when it has none of its own. */
  function ContextAt(m: Table, arch: string): int
  {
    if arch + ".context_length" in m then IntAt(m, arch + ".context_length")
    else IntAt(m, "llama.context_length")
  }

  /** The metadata that a table of pairs stands for: every field read from the declared
      architecture's own key. */
  function Lookup(m: Table): Metadata
  {
    var arch := TextAt(m, "general.architecture");
    var layers := IntAt(m, arch + ".block_count");
    Metadata(
      arch,
      TextAt(m, "general.name"),
      ContextAt(m, arch),
      IntAt(m, "general.parameter_count"),
      if "general.file_type" in m && m["general.file_type"].Uint? then QuantName(m["general.file_type"].u) else "",
      layers,
      IntAt(m, arch + ".embedding_length"),
      IntAt(m, arch + ".attention.head_count"),
      PerLayer(IntsAt(m, arch + ".attention.head_count_kv"), layers),
      IntAt(m, arch + ".attention.key_length"),
      IntAt(m, arch + ".attention.value_length"),
      IntAt(m, arch + ".attention.key_length_swa"),
      IntAt(m, arch + ".attention.value_length_swa"),
      IntAt(m, arch + ".attention.sliding_window"),
      LayerPattern(BoolsAt(m, arch + ".attention.sliding_window_pattern"), layers),
      exists key | key in m :: SignalsHybrid(key))
  }

  /** The table has a single head count to copy to more layers than a slice can hold. */
  predicate TooManyLayers(m: Table)
  {
    var arch := TextAt(m, "general.architecture");
    CannotBroadcast(IntsAt(m, arch + ".attention.head_count_kv"), IntAt(m, arch + ".block_count"))
  }

  // ---- Keys are read unambiguously ----

  /** Two characters that tell the suffixes apart: the 8th and the 12th from the end. */
  function Signature(s: string): (char, char)
    requires |s| >= 12
  {
    (s[|s| - 8], s[|s| - 12])
  }

  lemma SuffixSignature(key: string, f: Field)
    requires HasSuffix(key, Suffix(f))
    ensures |key| >= 12 && Signature(key) == Signature(Suffix(f))
  {
  }

  lemma Signatures(f: Field)
    ensures Signature(Suffix(f)) ==
            match f {
              case ContextLength => ('t', 'n')
              case BlockCount => ('c', '.')
              case EmbeddingLength => ('g', 'd')
              case HeadCountKV => ('c', 'e')
              case HeadCount => ('a', 'n')
              case KeyLengthSWA => ('n', 'y')
              case ValueLengthSWA => ('n', 'e')
              case KeyLength => ('y', 'n')
              case ValueLength => ('e', 'v')
              case SlidingWindowPattern => ('_', 'n')
              case SlidingWindow => ('g', 'i')
            }
  {
  }

  /** No key ends with two of the suffixes, so the order in which they are tried does not matter. */
  lemma OneSuffix(key: string, f: Field, g: Field)
    requires HasSuffix(key, Suffix(f)) && HasSuffix(key, Suffix(g))
    ensures f == g
  {
    hide Suffix;
    SuffixSignature(key, f);
    SuffixSignature(key, g);
    Signatures(f);
    Signatures(g);
  }

  predicate IsExact(key: string)
  {
    key in {ARCHITECTURE, NAME, FILE_TYPE, PARAMETER_COUNT}
  }

  /** No exact key ends with a suffix. */
  lemma ExactHasNoSuffix(key: string, f: Field)
    requires IsExact(key)
    ensures !HasSuffix(key, Suffix(f))
  {
  }

  lemma {:induction false} FirstSuffixFinds(key: string, fields: seq<Field>, f: Field)
    requires f in fields && HasSuffix(key, Suffix(f))
    ensures FirstSuffix(key, fields) == PerArch(f, TrimSuffix(key, Suffix(f)))
  {
    hide Suffix;
    if HasSuffix(key, Suffix(fields[0])) {
      OneSuffix(key, f, fields[0]);
    } else {
      FirstSuffixFinds(key, fields[1..], f);
    }
  }

  lemma {:induction false} FirstSuffixIsOne(key: string, fields: seq<Field>)
    ensures match FirstSuffix(key, fields)
            case PerArch(f, arch) => key == arch + Suffix(f)
            case kind => kind == Other
  {
    hide Suffix;
    if fields != [] {
      if HasSuffix(key, Suffix(fields[0])) {
        assert key == TrimSuffix(key, Suffix(fields[0])) + Suffix(fields[0]);
      } else {
        FirstSuffixIsOne(key, fields[1..]);
      }
    }
  }

  /** Every architecture's key for a field is recognised as that, whatever the architecture is called. */
  lemma KindOfField(arch: string, f: Field)
    ensures KindOf(arch + Suffix(f)) == PerArch(f, arch)
  {
    hide Suffix, FirstSuffix;
    var key := arch + Suffix(f);
    assert key[|key| - |Suffix(f)|..] == Suffix(f);
    assert HasSuffix(key, Suffix(f)) && TrimSuffix(key, Suffix(f)) == arch;
    if IsExact(key) {
      ExactHasNoSuffix(key, f);
    }
    FirstSuffixFinds(key, FIELDS, f);
  }

  /** And only that key is. */
  lemma FieldOfKind(key: string)
    ensures KindOf(key).PerArch? ==> key == KindOf(key).arch + Suffix(KindOf(key).field)
  {
    hide Suffix, FirstSuffix;
    FirstSuffixIsOne(key, FIELDS);
  }

  // ---- The staging stands for the table read so far ----

  datatype Slot = Num(i: int) | Nums(ints: seq<int>) | Bits(bits: seq<bool>)

  function SlotOf(a: ArchAttn, f: Field): Slot
  {
    match f
    case ContextLength => Num(0)
    case BlockCount => Num(a.blockCount)
    case EmbeddingLength => Num(a.embeddingLength)
    case HeadCountKV => Nums(a.headCountKV)
    case HeadCount => Num(a.headCount)
    case KeyLengthSWA => Num(a.keyLengthSWA)
    case ValueLengthSWA => Num(a.valueLengthSWA)
    case KeyLength => Num(a.keyLength)
    case ValueLength => Num(a.valueLength)
    case SlidingWindowPattern => Bits(a.swaPattern)
    case SlidingWindow => Num(a.slidingWindow)
  }

  function SlotIn(m: Table, arch: string, f: Field): Slot
  {
    match f
    case ContextLength => Num(0)
    case HeadCountKV => Nums(IntsAt(m, arch + Suffix(f)))
    case SlidingWindowPattern => Bits(BoolsAt(m, arch + Suffix(f)))
    case _ => Num(IntAt(m, arch + Suffix(f)))
  }

  function UintAt(m: Table, key: string): Option<nat>
  {
    if key in m && m[key].Uint? then Some(m[key].u) else None
  }

  function ContextOf(st: Staging, arch: string): Option<nat>
  {
    if arch in st.ctxByArch then Some(st.ctxByArch[arch]) else None
  }

  ghost predicate SlotsAgree(st: Staging, m: Table)
  {
    forall arch: string, f: Field :: SlotOf(StageFor(st, arch), f) == SlotIn(m, arch, f)
  }

  ghost predicate ContextsAgree(st: Staging, m: Table)
  {
    forall arch: string :: ContextOf(st, arch) == UintAt(m, arch + Suffix(ContextLength))
  }

  ghost predicate Typed(m: Table)
  {
    forall key | key in m :: Fits(KindOf(key), m[key])
  }

  ghost predicate GeneralAgree(st: Staging, m: Table)
  {
    && st.architecture == TextAt(m, ARCHITECTURE)
    && st.name == TextAt(m, NAME)
    && st.fileType == UintAt(m, FILE_TYPE)
    && st.parameterCount == IntAt(m, PARAMETER_COUNT)
    && (st.hybrid <==> exists key | key in m :: SignalsHybrid(key))
  }

  ghost predicate StandsFor(st: Staging, m: Table)
  {
    Typed(m) && GeneralAgree(st, m) && ContextsAgree(st, m) && SlotsAgree(st, m)
  }

  lemma SetFieldSlots(a: ArchAttn, f: Field, p: Payload, g: Field)
    requires Fits(PerArch(f, ""), p)
    ensures g != f ==> SlotOf(SetField(a, f, p), g) == SlotOf(a, g)
    ensures SlotOf(SetField(a, f, p), f) ==
            match f {
              case ContextLength => Num(0)
              case HeadCountKV => Nums(p.ints)
              case SlidingWindowPattern => Bits(p.bools)
              case _ => Num(WrapInt64(p.u))
            }
  {
  }

  lemma SlotStep(st: Staging, m: Table, key: string, p: Payload, arch: string, f: Field)
    requires Fits(KindOf(key), p)
    requires SlotOf(StageFor(st, arch), f) == SlotIn(m, arch, f)
    ensures SlotOf(StageFor(Store(st, key, p), arch), f) == SlotIn(m[key := p], arch, f)
  {
    hide KindOf, Suffix, SignalsHybrid, SetField, WrapInt64;
    KindOfField(arch, f);
    FieldOfKind(key);
    if KindOf(key).PerArch? {
      var g := KindOf(key).field;
      SetFieldSlots(StageFor(st, KindOf(key).arch), g, p, f);
    }
  }

  lemma ContextStep(st: Staging, m: Table, key: string, p: Payload, arch: string)
    requires Fits(KindOf(key), p)
    requires ContextOf(st, arch) == UintAt(m, arch + Suffix(ContextLength))
    ensures ContextOf(Store(st, key, p), arch) == UintAt(m[key := p], arch + Suffix(ContextLength))
  {
    hide KindOf, Suffix, SignalsHybrid, SetField;
    KindOfField(arch, ContextLength);
    FieldOfKind(key);
  }

  lemma HybridStep(m: Table, key: string, p: Payload)
    ensures (exists k | k in m[key := p] :: SignalsHybrid(k)) <==>
              (SignalsHybrid(key) || exists k | k in m :: SignalsHybrid(k))
  {
  }

  lemma GeneralStep(st: Staging, m: Table, key: string, p: Payload)
    requires Fits(KindOf(key), p) && GeneralAgree(st, m)
    ensures GeneralAgree(Store(st, key, p), m[key := p])
  {
    hide SignalsHybrid, SetField, KindOf, StageFor, WrapInt64, ARCHITECTURE, NAME, FILE_TYPE, PARAMETER_COUNT;
    ExactKinds(key);
    HybridStep(m, key, p);
  }

  lemma ExactKinds(key: string)
    ensures KindOf(key).Architecture? <==> key == ARCHITECTURE
    ensures KindOf(key).Name? <==> key == NAME
    ensures KindOf(key).FileType? <==> key == FILE_TYPE
    ensures KindOf(key).ParameterCount? <==> key == PARAMETER_COUNT
  {
    hide FirstSuffix;
    FirstSuffixIsOne(key, FIELDS);
  }

  lemma StandsForStep(st: Staging, m: Table, key: string, p: Payload)
    requires Fits(KindOf(key), p) && StandsFor(st, m)
    ensures StandsFor(Store(st, key, p), m[key := p])
  {
    hide Store, KindOf, SlotIn, SlotOf, StageFor, ContextOf, UintAt, GeneralAgree, Suffix, Fits;
    GeneralStep(st, m, key, p);
    forall arch: string
      ensures ContextOf(Store(st, key, p), arch) == UintAt(m[key := p], arch + Suffix(ContextLength))
    {
      ContextStep(st, m, key, p, arch);
    }
    forall arch: string, f: Field
      ensures SlotOf(StageFor(Store(st, key, p), arch), f) == SlotIn(m[key := p], arch, f)
    {
      SlotStep(st, m, key, p, arch, f);
    }
  }

  lemma ContextFound(st: Staging, m: Table)
    requires StandsFor(st, m)
    ensures TrainedCtx(st) == ContextAt(m, st.architecture)
  {
    hide GeneralAgree, SlotsAgree, KindOf, WrapInt64;
    var arch := st.architecture;
    assert "llama" + Suffix(ContextLength) == "llama.context_length";
    assert ContextOf(st, arch) == UintAt(m, arch + Suffix(ContextLength));
    assert ContextOf(st, "llama") == UintAt(m, "llama" + Suffix(ContextLength));
    KindOfField(arch, ContextLength);
    KindOfField("llama", ContextLength);
  }

  lemma SlotsFound(st: Staging, m: Table, arch: string)
    requires SlotsAgree(st, m)
    ensures var a := StageFor(st, arch);
            && a.blockCount == IntAt(m, arch + ".block_count")
            && a.embeddingLength == IntAt(m, arch + ".embedding_length")
            && a.headCountKV == IntsAt(m, arch + ".attention.head_count_kv")
            && a.headCount == IntAt(m, arch + ".attention.head_count")
            && a.keyLengthSWA == IntAt(m, arch + ".attention.key_length_swa")
            && a.valueLengthSWA == IntAt(m, arch + ".attention.value_length_swa")
            && a.keyLength == IntAt(m, arch + ".attention.key_length")
            && a.valueLength == IntAt(m, arch + ".attention.value_length")
            && a.swaPattern == BoolsAt(m, arch + ".attention.sliding_window_pattern")
            && a.slidingWindow == IntAt(m, arch + ".attention.sliding_window")
  {
    hide IntAt, IntsAt, BoolsAt, StageFor;
    var a := StageFor(st, arch);
    assert SlotOf(a, BlockCount) == SlotIn(m, arch, BlockCount);
    assert SlotOf(a, EmbeddingLength) == SlotIn(m, arch, EmbeddingLength);
    assert SlotOf(a, HeadCountKV) == SlotIn(m, arch, HeadCountKV);
    assert SlotOf(a, HeadCount) == SlotIn(m, arch, HeadCount);
    assert SlotOf(a, KeyLengthSWA) == SlotIn(m, arch, KeyLengthSWA);
    assert SlotOf(a, ValueLengthSWA) == SlotIn(m, arch, ValueLengthSWA);
    assert SlotOf(a, KeyLength) == SlotIn(m, arch, KeyLength);
    assert SlotOf(a, ValueLength) == SlotIn(m, arch, ValueLength);
    assert SlotOf(a, SlidingWindowPattern) == SlotIn(m, arch, SlidingWindowPattern);
    assert SlotOf(a, SlidingWindow) == SlotIn(m, arch, SlidingWindow);
  }

  /** What is made of the staging is the lookup in the table it stands for. */
  lemma FinishIsLookup(st: Staging, m: Table)
    requires StandsFor(st, m)
    ensures Finish(st) == Lookup(m)
  {
    hide SignalsHybrid, PerLayer, LayerPattern, QuantName, WrapInt64, KindOf;
    var arch := st.architecture;
    var a := StageFor(st, arch);
    ContextFound(st, m);
    SlotsFound(st, m, arch);
    hide Typed, ContextsAgree, SlotsAgree, ContextAt, TrainedCtx, IntsAt, BoolsAt;
  }

  lemma PanicsAsLookup(st: Staging, m: Table)
    requires StandsFor(st, m)
    ensures FinishPanics(st) <==> TooManyLayers(m)
  {
    hide SignalsHybrid, WrapInt64, KindOf;
    SlotsFound(st, m, st.architecture);
  }

  // ---- Whole files ----

  /** The table of a list of pairs: the last pair of a key wins. */
  ghost function TableFrom(m: Table, kvs: seq<Pair>, conv: (nat, nat) -> nat): Table
    requires Encodable(kvs) && Accepted(kvs, conv)
    decreases |kvs|
  {
    if kvs == [] then m
    else TableFrom(m[SeenKey(kvs[0]) := Meaning(kvs[0], conv).value], kvs[1..], conv)
  }

  ghost function TableOf(kvs: seq<Pair>, conv: (nat, nat) -> nat): Table
    requires Encodable(kvs) && Accepted(kvs, conv)
  {
    TableFrom(map[], kvs, conv)
  }

  lemma {:induction false} StoreAllStandsFor(st: Staging, m: Table, kvs: seq<Pair>, conv: (nat, nat) -> nat)
    requires Encodable(kvs) && Accepted(kvs, conv) && StandsFor(st, m)
    ensures StandsFor(StoreAll(st, kvs, conv), TableFrom(m, kvs, conv))
    decreases |kvs|
  {
    hide StandsFor, Meaning, Store, KindOf, SeenKey, WellFormedPair, Fits;
    if kvs != [] {
      var kv := kvs[0];
      assert Meaning(kv, conv).Some?;
      StandsForStep(st, m, SeenKey(kv), Meaning(kv, conv).value);
      StoreAllStandsFor(Stage(st, kv, conv), m[SeenKey(kv) := Meaning(kv, conv).value], kvs[1..], conv);
    }
  }

  lemma NothingStandsForEmpty()
    ensures StandsFor(NOTHING, map[])
  {
  }

  /** The main result: reading an encoded file gives the lookup in the table of its pairs and stops
      at the end of the pairs, whatever bytes follow. The file is refused exactly when its version or
      pair count is out of range or some value has the wrong shape for its key; and the reader panics
      exactly when the declared architecture has one head count for more layers than a slice can hold. */
  lemma ReadAllIsLookup(version: nat, tensors: nat, kvs: seq<Pair>, tail: seq<byte>, fs: nat,
                        conv: (nat, nat) -> nat)
    requires Encodable(kvs) && version < 0x1_0000_0000 && tensors < TWO_64
    requires |EncodeFile(version, tensors, kvs, tail)| <= fs <= MAX_INT64
    ensures ReadAll(EncodeFile(version, tensors, kvs, tail), fs, conv) ==
            (if 2 <= version <= 3 && |kvs| <= MAX_KV_COUNT && Accepted(kvs, conv)
             then if TooManyLayers(TableOf(kvs, conv)) then Panicked
             else Read(Lookup(TableOf(kvs, conv)), 24 + |EncodePairs(kvs)|)
             else Refused)
  {
    hide EncodeFile, Staged, Finish, FinishPanics, TooManyLayers, Lookup, StoreAll, StandsFor, TableFrom, Accepted,
         EncodePairs, Encodable;
    ReadsFile(version, tensors, kvs, tail, fs, conv);
    if Accepted(kvs, conv) {
      NothingStandsForEmpty();
      StoreAllStandsFor(NOTHING, map[], kvs, conv);
      FinishIsLookup(StoreAll(NOTHING, kvs, conv), TableOf(kvs, conv));
      PanicsAsLookup(StoreAll(NOTHING, kvs, conv), TableOf(kvs, conv));
    }
  }

  /** A file that declares an architecture, one head count for it and a number of layers. */
  function ThreePairs(arch: string, heads: nat, layers: nat): seq<Pair>
  {
    [Pair(ARCHITECTURE, Text(arch)),
     Pair(arch + Suffix(HeadCountKV), Scalar(UINT32, heads)),
     Pair(arch + Suffix(BlockCount), Scalar(UINT64, layers))]
  }

  lemma KeptSuffix(arch: string, f: Field)
    requires f in {HeadCountKV, BlockCount} && IsByteString(arch) && |arch| + 64 <= MAX_KEPT_STRING
    ensures IsByteString(arch + Suffix(f)) && KeptText(arch + Suffix(f)) == arch + Suffix(f)
  {
    var key := arch + Suffix(f);
    SuffixIsPlain(f);
    JoinedIsPlain(arch, Suffix(f));
  }

  lemma JoinedIsPlain(a: string, b: string)
    requires IsByteString(a) && IsByteString(b)
    ensures IsByteString(a + b)
  {
    forall c | c in a + b
      ensures c as int < 256
    {
      assert c in a || c in b;
    }
  }

  lemma SuffixIsPlain(f: Field)
    requires f in {HeadCountKV, BlockCount}
    ensures IsByteString(Suffix(f)) && |Suffix(f)| <= 64
  {
    if f == HeadCountKV {
      JoinedIsPlain(".attention", ".head_count_kv");
      assert Suffix(f) == ".attention" + ".head_count_kv";
    }
  }

  lemma MeaningOfScalar(arch: string, f: Field, ty: nat, raw: nat, conv: (nat, nat) -> nat)
    requires IsByteString(arch) && |arch| + 64 <= MAX_KEPT_STRING && f in {HeadCountKV, BlockCount}
    requires (ty == UINT32 && raw < 0x1_0000_0000) || (ty == UINT64 && raw <= MAX_INT64)
    ensures var kv := Pair(arch + Suffix(f), Scalar(ty, raw));
            && WellFormedPair(kv) && SeenKey(kv) == kv.key
            && Meaning(kv, conv) == Some(if f == HeadCountKV then IntList([raw]) else Uint(raw))
  {
    hide KindOf, Suffix, KeptText, IsByteString;
    Powers();
    KeptSuffix(arch, f);
    KindOfField(arch, f);
  }

  lemma MeaningOfArchitecture(arch: string, conv: (nat, nat) -> nat)
    requires IsByteString(arch) && |arch| <= MAX_KEPT_STRING
    ensures var kv := Pair(ARCHITECTURE, Text(arch));
            && WellFormedPair(kv) && SeenKey(kv) == kv.key
            && KindOf(kv.key) == Architecture && Meaning(kv, conv) == Some(Str(arch))
  {
    hide FirstSuffix;
    PlainArchitecture();
  }

  lemma PlainArchitecture()
    ensures IsByteString(ARCHITECTURE)
  {
    JoinedIsPlain("general.", "architecture");
    assert ARCHITECTURE == "general." + "architecture";
  }

  lemma TableFromStep(m: Table, kv: Pair, rest: seq<Pair>, conv: (nat, nat) -> nat)
    requires Encodable([kv] + rest) && Accepted([kv] + rest, conv)
    ensures Meaning(kv, conv).Some?
    ensures TableFrom(m, [kv] + rest, conv) == TableFrom(m[SeenKey(kv) := Meaning(kv, conv).value], rest, conv)
    ensures rest == [] ==> TableFrom(m, [kv] + rest, conv) == m[SeenKey(kv) := Meaning(kv, conv).value]
  {
    hide Meaning, SeenKey, WellFormedPair;
    assert ([kv] + rest)[1..] == rest;
    assert Meaning(([kv] + rest)[0], conv).Some?;
  }

  lemma ThreePairsTable(arch: string, heads: nat, layers: nat, conv: (nat, nat) -> nat)
    requires IsByteString(arch) && |arch| + 64 <= MAX_KEPT_STRING
    requires heads < 0x1_0000_0000 && layers <= MAX_INT64
    ensures var kvs := ThreePairs(arch, heads, layers);
            && Encodable(kvs) && Accepted(kvs, conv)
            && TextAt(TableOf(kvs, conv), ARCHITECTURE) == arch
            && IntsAt(TableOf(kvs, conv), arch + Suffix(HeadCountKV)) == [heads]
            && IntAt(TableOf(kvs, conv), arch + Suffix(BlockCount)) == layers
  {
    hide KindOf, Meaning, SeenKey, WellFormedPair, Suffix, IsByteString;
    var kvs := ThreePairs(arch, heads, layers);
    MeaningOfArchitecture(arch, conv);
    MeaningOfScalar(arch, HeadCountKV, UINT32, heads, conv);
    MeaningOfScalar(arch, BlockCount, UINT64, layers, conv);
    KindOfField(arch, HeadCountKV);
    KindOfField(arch, BlockCount);
    var m1: Table := map[ARCHITECTURE := Str(arch)];
    var m2 := m1[arch + Suffix(HeadCountKV) := IntList([heads])];
    TableFromStep(map[], kvs[0], [kvs[1], kvs[2]], conv);
    TableFromStep(m1, kvs[1], [kvs[2]], conv);
    TableFromStep(m2, kvs[2], [], conv);
    hide TableFrom, TableOf;
    assert kvs == [kvs[0]] + [kvs[1], kvs[2]] && [kvs[1], kvs[2]] == [kvs[1]] + [kvs[2]] && [kvs[2]] == [kvs[2]] + [];
  }

  /** Such a file makes the reader panic exactly when the layers are more than a slice can hold, say 2^62. */
  lemma HugeLayerCountPanics(arch: string, heads: nat, layers: nat, tail: seq<byte>, fs: nat,
                             conv: (nat, nat) -> nat)
    requires IsByteString(arch) && |arch| + 64 <= MAX_KEPT_STRING
    requires heads < 0x1_0000_0000 && layers <= MAX_INT64
    requires Encodable(ThreePairs(arch, heads, layers))
    requires |EncodeFile(3, 0, ThreePairs(arch, heads, layers), tail)| <= fs <= MAX_INT64
    ensures ReadAll(EncodeFile(3, 0, ThreePairs(arch, heads, layers), tail), fs, conv) == Panicked <==>
              layers > MAX_INT_SLICE
  {
    hide Encodable, Accepted, ReadAll, TableOf, EncodePairs, EncodeFile, Lookup;
    ThreePairsTable(arch, heads, layers, conv);
    ReadAllIsLookup(3, 0, ThreePairs(arch, heads, layers), tail, fs, conv);
  }

  // ---- Order does not matter ----

  ghost predicate DistinctKeys(kvs: seq<Pair>)
  {
    forall i, j | 0 <= i < j < |kvs| :: kvs[i].key != kvs[j].key
  }

  /** Two distinct keys that are read alike are both too long to keep, so their values are skipped. */
  lemma SameSeenKey(a: Pair, b: Pair, conv: (nat, nat) -> nat)
    requires WellFormedPair(a) && WellFormedPair(b) && SeenKey(a) == SeenKey(b) && a.key != b.key
    ensures Meaning(a, conv) == Meaning(b, conv) == Some(Skipped)
  {
    hide FirstSuffix;
    ExactKinds("");
    FirstSuffixIsOne("", FIELDS);
  }

  /** With distinct keys a key holds the meaning of any pair that is read under it. */
  ghost predicate Holds(m: Table, kv: Pair, conv: (nat, nat) -> nat)
    requires WellFormedPair(kv)
  {
    SeenKey(kv) in m && Some(m[SeenKey(kv)]) == Meaning(kv, conv)
  }

  lemma {:induction false} TableFromHolds(m: Table, kvs: seq<Pair>, conv: (nat, nat) -> nat, kv: Pair)
    requires Encodable(kvs) && Accepted(kvs, conv) && DistinctKeys(kvs)
    requires WellFormedPair(kv)
    requires kv in kvs || (Holds(m, kv, conv) && forall other | other in kvs :: other.key != kv.key)
    ensures Holds(TableFrom(m, kvs, conv), kv, conv)
    decreases |kvs|
  {
    hide Meaning, SeenKey, WellFormedPair;
    if kvs != [] {
      var first := kvs[0];
      assert Meaning(first, conv).Some?;
      if first != kv && SeenKey(first) == SeenKey(kv) && kv !in kvs {
        SameSeenKey(first, kv, conv);
      }
      TableFromHolds(m[SeenKey(first) := Meaning(first, conv).value], kvs[1..], conv, kv);
    }
  }

  lemma {:induction false} TableFromKeys(m: Table, kvs: seq<Pair>, conv: (nat, nat) -> nat, key: string)
    requires Encodable(kvs) && Accepted(kvs, conv)
    ensures key in TableFrom(m, kvs, conv) <==> (key in m || exists kv | kv in kvs :: SeenKey(kv) == key)
    decreases |kvs|
  {
    hide Meaning, SeenKey, WellFormedPair;
    if kvs != [] {
      assert Meaning(kvs[0], conv).Some?;
      TableFromKeys(m[SeenKey(kvs[0]) := Meaning(kvs[0], conv).value], kvs[1..], conv, key);
      assert kvs == [kvs[0]] + kvs[1..];
    }
  }

  ghost predicate SamePairs(a: seq<Pair>, b: seq<Pair>)
  {
    forall kv :: kv in a <==> kv in b
  }

  lemma TableIgnoresOrder(a: seq<Pair>, b: seq<Pair>, conv: (nat, nat) -> nat)
    requires Encodable(a) && Encodable(b) && DistinctKeys(a) && DistinctKeys(b) && SamePairs(a, b)
    ensures Accepted(a, conv) <==> Accepted(b, conv)
    ensures Accepted(a, conv) ==> TableOf(a, conv) == TableOf(b, conv)
  {
    hide Meaning, SeenKey, WellFormedPair, TableFrom, DistinctKeys;
    if Accepted(a, conv) {
      var ma, mb := TableOf(a, conv), TableOf(b, conv);
      forall key: string
        ensures key in ma <==> key in mb
      {
        TableFromKeys(map[], a, conv, key);
        TableFromKeys(map[], b, conv, key);
      }
      forall key | key in ma
        ensures ma[key] == mb[key]
      {
        TableFromKeys(map[], a, conv, key);
        var kv :| kv in a && SeenKey(kv) == key;
        TableFromHolds(map[], a, conv, kv);
        TableFromHolds(map[], b, conv, kv);
      }
      assert ma == mb;
    }
  }

  lemma MatchFirst(a: seq<Pair>, b: seq<Pair>) returns (k: nat)
    requires a != [] && multiset(a) == multiset(b)
    ensures k < |b| && b[k] == a[0] && multiset(a[1..]) == multiset(b[..k] + b[k + 1..])
  {
    assert a[0] in multiset(b);
    k :| k < |b| && b[k] == a[0];
    assert a == [a[0]] + a[1..];
    assert b == b[..k] + ([b[k]] + b[k + 1..]);
    assert multiset(b[..k] + b[k + 1..]) == multiset(b[..k]) + multiset(b[k + 1..]);
    assert multiset(a[1..]) == multiset(a) - multiset{a[0]};
  }

  lemma {:induction false} EncodePairsAppend(a: seq<Pair>, b: seq<Pair>)
    requires Encodable(a) && Encodable(b)
    ensures Encodable(a + b) && |EncodePairs(a + b)| == |EncodePairs(a)| + |EncodePairs(b)|
  {
    hide WellFormedPair, EncodePair;
    if a == [] {
      assert a + b == b;
    } else {
      EncodePairsAppend(a[1..], b);
      assert (a + b)[1..] == a[1..] + b;
    }
  }

  lemma {:induction false} EncodePairsPermuted(a: seq<Pair>, b: seq<Pair>)
    requires Encodable(a) && multiset(a) == multiset(b)
    ensures Encodable(b) && |EncodePairs(a)| == |EncodePairs(b)|
    decreases |a|
  {
    hide WellFormedPair, EncodePair;
    assert Encodable(b) by {
      forall kv | kv in b ensures WellFormedPair(kv) {
        assert kv in multiset(b);
      }
    }
    if a == [] {
      assert b == [] by {
        assert |multiset(b)| == 0;
      }
    } else {
      var k := MatchFirst(a, b);
      var before, after := b[..k], b[k + 1..];
      EncodePairsPermuted(a[1..], before + after);
      EncodePairsAppend(before, after);
      assert b[k..] == [a[0]] + after;
      EncodePairsAppend(before, b[k..]);
      assert b == before + b[k..];
    }
  }

  lemma {:induction false} DistinctPermuted(a: seq<Pair>, b: seq<Pair>)
    requires DistinctKeys(a) && multiset(a) == multiset(b)
    ensures DistinctKeys(b)
    decreases |a|
  {
    if a == [] {
      assert |multiset(b)| == 0;
    } else {
      var k := MatchFirst(a, b);
      var rest := b[..k] + b[k + 1..];
      DistinctPermuted(a[1..], rest);
      forall kv | kv in rest ensures kv.key != b[k].key {
        assert kv in multiset(a[1..]);
      }
      forall i, j | 0 <= i < j < |b| ensures b[i].key != b[j].key {
        assert i < k ==> rest[i] == b[i];
        assert i > k ==> rest[i - 1] == b[i];
        assert j < k ==> rest[j] == b[j];
        assert j > k ==> rest[j - 1] == b[j];
      }
    }
  }

  /** Permuting the pairs of a file with distinct keys changes neither the metadata nor its acceptance,
      wherever the architecture and the block count stand. */
  lemma ReadAllIgnoresOrder(version: nat, tensors: nat, a: seq<Pair>, b: seq<Pair>, tail: seq<byte>, fs: nat,
                            conv: (nat, nat) -> nat)
    requires Encodable(a) && Encodable(b) && DistinctKeys(a) && multiset(a) == multiset(b)
    requires version < 0x1_0000_0000 && tensors < TWO_64
    requires |EncodeFile(version, tensors, a, tail)| <= fs <= MAX_INT64
    ensures ReadAll(EncodeFile(version, tensors, a, tail), fs, conv) ==
            ReadAll(EncodeFile(version, tensors, b, tail), fs, conv)
  {
    hide Encodable, DistinctKeys, Accepted, ReadAll, Lookup, TooManyLayers, TableOf, EncodePairs, EncodeHeader;
    EncodePairsPermuted(a, b);
    DistinctPermuted(a, b);
    forall kv
      ensures kv in a <==> kv in b
    {
      assert kv in multiset(a) <==> kv in multiset(b);
    }
    assert |a| == |multiset(a)| == |multiset(b)| == |b|;
    TableIgnoresOrder(a, b, conv);
    ReadAllIsLookup(version, tensors, a, tail, fs, conv);
    ReadAllIsLookup(version, tensors, b, tail, fs, conv);
  }
}
