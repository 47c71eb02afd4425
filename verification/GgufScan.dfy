/** The key/value scan of the GGUF metadata reader: which keys it keeps, how values are staged by
    architecture prefix, and what is made of the staging at the end (go/internal/gguf/gguf.go:147-351). */
module GgufScan {
  import opened Wrappers
  import opened GgufFormat
  import opened GgufMetadata
  import opened GgufParse

  // ---- Keys ----

  /** A kept per-architecture quantity; its key is the architecture name followed by Suffix. */
  datatype Field =
    | ContextLength | BlockCount | EmbeddingLength | HeadCountKV | HeadCount
    | KeyLengthSWA | ValueLengthSWA | KeyLength | ValueLength | SlidingWindowPattern | SlidingWindow

  function Suffix(f: Field): (s: string)
    ensures |s| >= 12
  {
    match f
    case ContextLength => ".context_length"
    case BlockCount => ".block_count"
    case EmbeddingLength => ".embedding_length"
    case HeadCountKV => ".attention.head_count_kv"
    case HeadCount => ".attention.head_count"
    case KeyLengthSWA => ".attention.key_length_swa"
    case ValueLengthSWA => ".attention.value_length_swa"
    case KeyLength => ".attention.key_length"
    case ValueLength => ".attention.value_length"
    case SlidingWindowPattern => ".attention.sliding_window_pattern"
    case SlidingWindow => ".attention.sliding_window"
  }

  const ARCHITECTURE: string := "general.architecture"
  const NAME: string := "general.name"
  const FILE_TYPE: string := "general.file_type"
  const PARAMETER_COUNT: string := "general.parameter_count"

  predicate HasSuffix(key: string, suffix: string)
  {
    |key| >= |suffix| && key[|key| - |suffix|..] == suffix
  }

  function TrimSuffix(key: string, suffix: string): string
    requires HasSuffix(key, suffix)
  {
    key[..|key| - |suffix|]
  }

  predicate OccursAt(key: string, i: nat, part: string)
  {
    i + |part| <= |key| && key[i..i + |part|] == part
  }

  predicate Contains(key: string, part: string)
  {
    exists i: nat | i <= |key| :: OccursAt(key, i, part)
  }

  predicate SignalsHybrid(key: string)
  {
    Contains(key, ".ssm.") || Contains(key, ".attention.indexer.")
  }

  datatype Kind = Architecture | Name | FileType | ParameterCount | PerArch(field: Field, arch: string) | Other

  /** The order in which the reader tries the keys. */
  function KindOf(key: string): Kind
  {
    if key == ARCHITECTURE then Architecture
    else if key == NAME then Name
    else if key == FILE_TYPE then FileType
    else if key == PARAMETER_COUNT then ParameterCount
    else FirstSuffix(key, FIELDS)
  }

  const FIELDS: seq<Field> :=
    [ContextLength, BlockCount, EmbeddingLength, HeadCountKV, HeadCount, KeyLengthSWA,
     ValueLengthSWA, KeyLength, ValueLength, SlidingWindowPattern, SlidingWindow]

  function FirstSuffix(key: string, fields: seq<Field>): Kind
  {
    if fields == [] then Other
    else if HasSuffix(key, Suffix(fields[0])) then PerArch(fields[0], TrimSuffix(key, Suffix(fields[0])))
    else FirstSuffix(key, fields[1..])
  }

  // ---- One pair ----

  datatype Payload = Str(s: string) | Uint(u: nat) | IntList(ints: seq<int>) | BoolList(bools: seq<bool>) | Skipped

  function ReadPayload(data: seq<byte>, pos: nat, kind: Kind, ty: nat, fs: nat, conv: (nat, nat) -> nat)
      : Parsed<Payload>
    requires pos <= |data|
  {
    match kind
    case Architecture | Name =>
      if ty != STRING then Fail
      else (match ReadString(data, pos, fs) case Fail => Fail case Got(s, p) => Got(Str(s), p))
    case PerArch(HeadCountKV, _) =>
      (match UintOrArray(data, pos, ty, fs, conv) case Fail => Fail case Got(xs, p) => Got(IntList(xs), p))
    case PerArch(SlidingWindowPattern, _) =>
      (match BoolArray(data, pos, ty, fs) case Fail => Fail case Got(bs, p) => Got(BoolList(bs), p))
    case Other =>
      (match SkipValue(data, pos, ty, fs) case None => Fail case Some(p) => Got(Skipped, p))
    case _ =>
      (match TypedUint(data, pos, ty, conv) case Fail => Fail case Got(u, p) => Got(Uint(u), p))
  }

  /** The payloads that the reader can get for a kind. */
  predicate Fits(kind: Kind, p: Payload)
  {
    match kind
    case Architecture | Name => p.Str?
    case PerArch(HeadCountKV, _) => p.IntList?
    case PerArch(SlidingWindowPattern, _) => p.BoolList?
    case Other => p.Skipped?
    case _ => p.Uint?
  }

  // ---- Staging ----

  datatype ArchAttn = ArchAttn(
    blockCount: int, embeddingLength: int, headCount: int, headCountKV: seq<int>,
    keyLength: int, valueLength: int, keyLengthSWA: int, valueLengthSWA: int,
    slidingWindow: int, swaPattern: seq<bool>)

  const NO_ATTN: ArchAttn := ArchAttn(0, 0, 0, [], 0, 0, 0, 0, 0, [])

  datatype Staging = Staging(
    architecture: string, name: string, parameterCount: int, hybrid: bool, fileType: Option<nat>,
    ctxByArch: map<string, nat>, attnByArch: map<string, ArchAttn>)

  const NOTHING: Staging := Staging("", "", 0, false, None, map[], map[])

  function StageFor(st: Staging, arch: string): ArchAttn
  {
    if arch in st.attnByArch then st.attnByArch[arch] else NO_ATTN
  }

  function SetField(a: ArchAttn, f: Field, p: Payload): ArchAttn
    requires Fits(PerArch(f, ""), p)
  {
    match f
    case ContextLength => a
    case BlockCount => a.(blockCount := WrapInt64(p.u))
    case EmbeddingLength => a.(embeddingLength := WrapInt64(p.u))
    case HeadCountKV => a.(headCountKV := p.ints)
    case HeadCount => a.(headCount := WrapInt64(p.u))
    case KeyLengthSWA => a.(keyLengthSWA := WrapInt64(p.u))
    case ValueLengthSWA => a.(valueLengthSWA := WrapInt64(p.u))
    case KeyLength => a.(keyLength := WrapInt64(p.u))
    case ValueLength => a.(valueLength := WrapInt64(p.u))
    case SlidingWindowPattern => a.(swaPattern := p.bools)
    case SlidingWindow => a.(slidingWindow := WrapInt64(p.u))
  }

  function Store(st: Staging, key: string, p: Payload): Staging
    requires Fits(KindOf(key), p)
  {
    var seen := st.(hybrid := st.hybrid || SignalsHybrid(key));
    match KindOf(key)
    case Architecture => seen.(architecture := p.s)
    case Name => seen.(name := p.s)
    case FileType => seen.(fileType := Some(p.u))
    case ParameterCount => seen.(parameterCount := WrapInt64(p.u))
    case PerArch(ContextLength, arch) => seen.(ctxByArch := st.ctxByArch[arch := p.u])
    case PerArch(f, arch) => seen.(attnByArch := st.attnByArch[arch := SetField(StageFor(st, arch), f, p)])
    case Other => seen
  }

  // ---- The scan ----

  datatype Kept = Kept(key: string, payload: Payload)

  function PairAt(data: seq<byte>, pos: nat, fs: nat, conv: (nat, nat) -> nat): (r: Parsed<Kept>)
    ensures r.Got? ==> Fits(KindOf(r.value.key), r.value.payload)
  {
    match ReadString(data, pos, fs)
    case Fail => Fail
    case Got(key, p) =>
      match ReadUint(data, p, 4)
      case Fail => Fail
      case Got(ty, q) =>
        match ReadPayload(data, q, KindOf(key), ty, fs, conv)
        case Fail => Fail
        case Got(payload, next) => Got(Kept(key, payload), next)
  }

  function Scan(data: seq<byte>, pos: nat, count: nat, st: Staging, fs: nat, conv: (nat, nat) -> nat): Parsed<Staging>
    decreases count
  {
    if count == 0 then Got(st, pos)
    else
      match PairAt(data, pos, fs, conv)
      case Fail => Fail
      case Got(kv, p) => Scan(data, p, count - 1, Store(st, kv.key, kv.payload), fs, conv)
  }

  // ---- The result ----

  const FILE_TYPE_NAMES: map<nat, string> := map[
    0 := "F32", 1 := "F16", 2 := "Q4_0", 3 := "Q4_1",
    7 := "Q8_0", 8 := "Q5_0", 9 := "Q5_1",
    10 := "Q2_K", 11 := "Q3_K_S", 12 := "Q3_K_M", 13 := "Q3_K_L",
    14 := "Q4_K_S", 15 := "Q4_K_M", 16 := "Q5_K_S", 17 := "Q5_K_M",
    18 := "Q6_K", 19 := "IQ2_XXS", 20 := "IQ2_XS", 21 := "Q2_K_S",
    22 := "IQ3_XS", 23 := "IQ3_XXS", 24 := "IQ1_S", 25 := "IQ4_NL",
    26 := "IQ3_S", 27 := "IQ3_M", 28 := "IQ2_S", 29 := "IQ2_M",
    30 := "IQ4_XS", 31 := "IQ1_M", 32 := "BF16"]

  function DecimalDigits(n: nat): string
  {
    if n < 10 then [('0' as int + n) as char] else DecimalDigits(n / 10) + [('0' as int + n % 10) as char]
  }

  function QuantName(fileType: nat): string
  {
    if fileType in FILE_TYPE_NAMES then FILE_TYPE_NAMES[fileType] else "unknown(" + DecimalDigits(fileType) + ")"
  }

  function PerLayer(vals: seq<int>, blockCount: int): (r: seq<int>)
    ensures r == [] || |r| == blockCount
  {
    if |vals| == 1 && blockCount > 0 then seq(blockCount, i => vals[0])
    else if |vals| == blockCount && blockCount > 0 then vals
    else []
  }

  function LayerPattern(pattern: seq<bool>, blockCount: int): (r: seq<bool>)
    ensures r == [] || |r| == blockCount
  {
    if |pattern| == blockCount && blockCount > 0 then pattern else []
  }

  function TrainedCtx(st: Staging): int
  {
    if st.architecture in st.ctxByArch then WrapInt64(st.ctxByArch[st.architecture])
    else if "llama" in st.ctxByArch then WrapInt64(st.ctxByArch["llama"])
    else 0
  }

  function Finish(st: Staging): Metadata
  {
    var md := EMPTY.(architecture := st.architecture, name := st.name, parameterCount := st.parameterCount,
                     hybrid := st.hybrid, trainedCtx := TrainedCtx(st),
                     quantType := if st.fileType.Some? then QuantName(st.fileType.value) else "");
    if st.architecture !in st.attnByArch then md
    else
      var a := st.attnByArch[st.architecture];
      md.(blockCount := a.blockCount, embeddingLength := a.embeddingLength, headCount := a.headCount,
          keyLength := a.keyLength, valueLength := a.valueLength, keyLengthSWA := a.keyLengthSWA,
          valueLengthSWA := a.valueLengthSWA, slidingWindow := a.slidingWindow,
          headCountKV := PerLayer(a.headCountKV, a.blockCount),
          swaPattern := LayerPattern(a.swaPattern, a.blockCount))
  }

  /** The most elements of 8 bytes that Go's make allocates on the daemon's hosts (64-bit Linux), where a
      slice may take 2^48 bytes; a longer one is a run-time panic. */
  const MAX_INT_SLICE: int := 0x2000_0000_0000

  /** A single head count is copied to every layer, into a slice as long as the file says. */
  predicate CannotBroadcast(vals: seq<int>, blockCount: int)
  {
    |vals| == 1 && blockCount > MAX_INT_SLICE
  }

  predicate FinishPanics(st: Staging)
  {
    && st.architecture in st.attnByArch
    && var a := st.attnByArch[st.architecture];
       CannotBroadcast(a.headCountKV, a.blockCount)
  }

  /** The header and the pairs. */
  function Staged(data: seq<byte>, fs: nat, conv: (nat, nat) -> nat): Parsed<Staging>
  {
    match ReadUint(data, 0, 4)
    case Fail => Fail
    case Got(magic, p) =>
      if magic != MAGIC then Fail else
      match ReadUint(data, p, 4)
      case Fail => Fail
      case Got(version, q) =>
        if version < 2 || version > 3 then Fail else
        match ReadUint(data, q, 8)
        case Fail => Fail
        case Got(tensors, r) =>
          match ReadUint(data, r, 8)
          case Fail => Fail
          case Got(count, s) =>
            if count > MAX_KV_COUNT then Fail else Scan(data, s, count, NOTHING, fs, conv)
  }

  /** readAll returns an error, panics, or returns the metadata with the reader at a position. */
  datatype Outcome = Refused | Panicked | Read(md: Metadata, next: nat)

  function Conclude(staged: Parsed<Staging>): Outcome
  {
    match staged
    case Fail => Refused
    case Got(st, next) => if FinishPanics(st) then Panicked else Read(Finish(st), next)
  }

  function ReadAll(data: seq<byte>, fs: nat, conv: (nat, nat) -> nat): Outcome
  {
    Conclude(Staged(data, fs, conv))
  }
}
