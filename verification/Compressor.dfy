/** The stateless compressor: measure, chunk, score, keep, account. */
module Compressor {
  import opened Wrappers
  import opened Text
  import opened Chunking
  import opened Scoring

  const MEASURE_WINDOW: nat := 32768

  /** Tokenizer, must-keep test and configuration; None is a failed call. */
  datatype Engine = Engine(
    encode: seq<string> -> Option<Encoding>,
    mustKeep: string -> Option<bool>,
    threshold: real, minWords: int, byteThreshold: int)

  datatype Result = Result(
    compressed: string, originalWords: nat, compressedWords: nat,
    originalTokens: nat, compressedTokens: nat, passthrough: bool)

  /** What the Tokenizer interface promises: aligned slices, and word indexes into its argument. */
  ghost predicate Aligned(words: seq<string>, e: Encoding)
  {
    |e.ids| == |e.mask| == |e.wordIndex| && forall w | w in e.wordIndex :: -1 <= w < |words|
  }

  ghost predicate TokenizerContract(encode: seq<string> -> Option<Encoding>)
  {
    forall words :: encode(words).Some? ==> Aligned(words, encode(words).value)
  }

  /** len(content): bytes of the UTF-8 encoding. */
  function Utf8Length(s: string): nat
  {
    if s == [] then 0
    else
      var c := s[|s| - 1] as int;
      Utf8Length(s[..|s| - 1]) + (if c < 0x80 then 1 else if c < 0x800 then 2 else if c < 0x1_0000 then 3 else 4)
  }

  /** strings.Join(words, " "). */
  function JoinWords(words: seq<string>): string
  {
    if words == [] then []
    else if |words| == 1 then words[0]
    else JoinWords(words[..|words| - 1]) + [' '] + words[|words| - 1]
  }

  function Passthrough(content: string, tokens: nat): Result
  {
    var n := |Fields(content)|;
    Result(content, n, n, tokens, tokens, true)
  }

  // ---- What is kept ----

  function Count(xs: seq<int>, v: int): nat
  {
    if xs == [] then 0 else Count(xs[..|xs| - 1], v) + (if xs[|xs| - 1] == v then 1 else 0)
  }

  function WindowStart(i: nat): nat
  {
    i / MEASURE_WINDOW * MEASURE_WINDOW
  }

  function WindowEnd(n: nat, start: nat): nat
  {
    if start + MEASURE_WINDOW > n then n else start + MEASURE_WINDOW
  }

  /** Sub-tokens the tokenizer gives word i within its measuring window. */
  function TokensOfWord(e: Engine, words: seq<string>, i: nat): nat
    requires i < |words|
  {
    var start := WindowStart(i);
    match e.encode(words[start..WindowEnd(|words|, start)])
    case None => 0
    case Some(enc) => Count(enc.wordIndex, i - start)
  }

  function TokensPerWord(e: Engine, words: seq<string>): (tokens: seq<nat>)
    ensures |tokens| == |words|
  {
    seq(|words|, i requires 0 <= i < |words| => TokensOfWord(e, words, i))
  }

  /** Some sub-token of word j of the chunk scores above the threshold. */
  ghost predicate ScoredAbove(e: Engine, enc: Encoding, scores: seq<real>, j: int)
  {
    exists t :: 0 <= t < |enc.wordIndex| && t < |scores| && enc.wordIndex[t] == j && scores[t] > e.threshold
  }

  /** Whether word j of a chunk survives, from the chunk's own encoding scored by itself. */
  ghost predicate Keeps(e: Engine, m: Model, chunk: seq<string>, j: nat)
    requires j < |chunk|
  {
    || e.mustKeep(chunk[j]) == Some(true)
    || (exists enc, scores ::
          && e.encode(chunk) == Some(enc)
          && |enc.ids| == |enc.mask|
          && ScoreAlone(m, InputOf(enc)) == Some(scores)
          && ScoredAbove(e, enc, scores, j))
  }

  ghost function ChunkFlags(e: Engine, m: Model, chunk: seq<string>): (flags: seq<bool>)
    ensures |flags| == |chunk|
  {
    seq(|chunk|, j requires 0 <= j < |chunk| => Keeps(e, m, chunk, j))
  }

  /** Keep flags of consecutive chunks, laid end to end. */
  ghost function Flags(e: Engine, m: Model, chunks: seq<seq<string>>): (flags: seq<bool>)
    ensures |flags| == |Flatten(chunks)|
  {
    if chunks == [] then []
    else Flags(e, m, chunks[..|chunks| - 1]) + ChunkFlags(e, m, chunks[|chunks| - 1])
  }

  /** The chunks that chunkWords cuts: those of the greedy split. */
  ghost function ChunksOf(words: seq<string>, tokens: seq<nat>): (chunks: seq<seq<string>>)
    requires |words| == |tokens|
    ensures CutAt(words, Greedy(tokens, 0), chunks)
    ensures Flatten(chunks) == words
  {
    var ends := Greedy(tokens, 0);
    forall k: nat | k < |ends|
      ensures StartOf(ends, k) < ends[k] <= |words|
    {
      SplitFits(tokens, 0, ends, k);
    }
    var chunks := seq(|ends|, k requires 0 <= k < |ends| => words[StartOf(ends, k)..ends[k]]);
    assert CutAt(words, ends, chunks) by {
      forall k: nat | k < |ends|
        ensures CutPiece(words, ends, chunks, k)
      {
      }
    }
    CutsFlatten(words, ends, chunks);
    SplitEnds(tokens, 0, ends);
    assert words[..|words|] == words;
    chunks
  }

  lemma CutsUnique(words: seq<string>, ends: seq<nat>, a: seq<seq<string>>, b: seq<seq<string>>)
    requires CutAt(words, ends, a) && CutAt(words, ends, b)
    ensures a == b
  {
    forall k: nat | k < |ends|
      ensures a[k] == b[k]
    {
      assert CutPiece(words, ends, a, k) && CutPiece(words, ends, b, k);
    }
  }

  function Selected<T>(xs: seq<T>, flags: seq<bool>): (r: seq<T>)
    requires |xs| == |flags|
  {
    if xs == [] then []
    else
      var n := |xs| - 1;
      Selected(xs[..n], flags[..n]) + if flags[n] then [xs[n]] else []
  }

  function Total(ns: seq<nat>): nat
  {
    if ns == [] then 0 else Total(ns[..|ns| - 1]) + ns[|ns| - 1]
  }

  /** The result of a compression in which every call succeeds. No batch size occurs in it. */
  ghost function Expected(e: Engine, m: Model, content: string): Result
  {
    var words := Fields(content);
    if Utf8Length(content) < e.byteThreshold || |words| < e.minWords then Passthrough(content, 0)
    else
      var tokens := TokensPerWord(e, words);
      var flags := Flags(e, m, ChunksOf(words, tokens));
      var out := Selected(words, flags);
      if out == [] then Passthrough(content, Total(tokens))
      else Result(JoinWords(out), |words|, |out|, Total(tokens), Total(Selected(tokens, flags)), false)
  }

  lemma {:induction false} SelectedTotal(ns: seq<nat>, flags: seq<bool>)
    requires |ns| == |flags|
    ensures Total(Selected(ns, flags)) <= Total(ns)
  {
    if ns != [] {
      var n := |ns| - 1;
      SelectedTotal(ns[..n], flags[..n]);
      var rest := Selected(ns[..n], flags[..n]);
      assert (rest + [ns[n]])[..|rest|] == rest;
      assert rest + [] == rest;
    }
  }

  lemma {:induction false} SelectedLength<T>(xs: seq<T>, flags: seq<bool>)
    requires |xs| == |flags|
    ensures |Selected(xs, flags)| <= |xs|
    ensures forall x | x in Selected(xs, flags) :: exists i :: 0 <= i < |xs| && flags[i] && xs[i] == x
  {
    if xs != [] {
      var n := |xs| - 1;
      SelectedLength(xs[..n], flags[..n]);
      forall x | x in Selected(xs, flags)
        ensures exists i :: 0 <= i < |xs| && flags[i] && xs[i] == x
      {
        if x in Selected(xs[..n], flags[..n]) {
          var i :| 0 <= i < n && flags[..n][i] && xs[..n][i] == x;
          assert flags[i] && xs[i] == x;
        }
      }
    }
  }

  /** Compression never adds tokens or words, and a result that drops nothing reports no saving. */
  lemma NeverGrows(e: Engine, m: Model, content: string)
    ensures var r := Expected(e, m, content);
      && r.compressedTokens <= r.originalTokens
      && r.compressedWords <= r.originalWords == |Fields(content)|
      && (r.passthrough ==> r.compressed == content && r.compressedTokens == r.originalTokens)
  {
    var words := Fields(content);
    var tokens := TokensPerWord(e, words);
    var flags := Flags(e, m, ChunksOf(words, tokens));
    SelectedTotal(tokens, flags);
    SelectedLength(words, flags);
  }

  /** The flag at a chunk's offset plus j is that chunk's verdict on its word j. */
  lemma {:induction false} FlagAt(e: Engine, m: Model, chunks: seq<seq<string>>, k: nat, j: nat)
    requires k < |chunks| && j < |chunks[k]|
    ensures var i := |Flatten(chunks[..k])| + j;
      && i < |Flatten(chunks)| && Flatten(chunks)[i] == chunks[k][j]
      && Flags(e, m, chunks)[i] == Keeps(e, m, chunks[k], j)
    decreases |chunks|
  {
    var n := |chunks| - 1;
    if k < n {
      FlagAt(e, m, chunks[..n], k, j);
      assert chunks[..n][..k] == chunks[..k];
    }
  }

  // ---- The loops ----

  method MeasureWindow(counts: array<nat>, start: nat, size: nat, wordIndex: seq<int>)
    requires start + size <= counts.Length
    requires forall w | w in wordIndex :: -1 <= w < size
    requires forall j | start <= j < start + size :: counts[j] == 0
    modifies counts
    ensures forall j | start <= j < start + size :: counts[j] == Count(wordIndex, j - start)
    ensures forall j | 0 <= j < counts.Length && !(start <= j < start + size) :: counts[j] == old(counts[j])
  {
    for t := 0 to |wordIndex|
      invariant forall j | start <= j < start + size :: counts[j] == Count(wordIndex[..t], j - start)
      invariant forall j | 0 <= j < counts.Length && !(start <= j < start + size) :: counts[j] == old(counts[j])
    {
      var w := wordIndex[t];
      assert w in wordIndex;
      assert wordIndex[..t + 1][..t] == wordIndex[..t];
      if w >= 0 {
        counts[start + w] := counts[start + w] + 1;
      }
    }
    assert wordIndex[..|wordIndex|] == wordIndex;
  }

  /** Per-word token counts, measured window by window. */
  method Measure(e: Engine, words: seq<string>) returns (r: Option<seq<nat>>)
    requires TokenizerContract(e.encode)
    ensures r.Some? ==> r.value == TokensPerWord(e, words)
    ensures r.None? ==> exists ws :: e.encode(ws).None?
  {
    var counts := new nat[|words|](_ => 0);
    var start: nat := 0;
    while start < |words|
      invariant start % MEASURE_WINDOW == 0
      invariant forall j: nat | j < |words| && j < start :: counts[j] == TokensOfWord(e, words, j)
      invariant forall j | start <= j < |words| :: counts[j] == 0
      decreases |words| - start
    {
      hide Count;
      var end := WindowEnd(|words|, start);
      var enc := e.encode(words[start..end]);
      if enc.None? {
        return None;
      }
      assert Aligned(words[start..end], enc.value);
      MeasureWindow(counts, start, end - start, enc.value.wordIndex);
      forall j: nat | start <= j < end
        ensures WindowStart(j) == start
      {
        WindowOf(start, j);
      }
      start := start + MEASURE_WINDOW;
    }
    assert counts[..] == TokensPerWord(e, words);
    return Some(counts[..]);
  }

  lemma WindowOf(start: nat, j: nat)
    requires start % MEASURE_WINDOW == 0 && start <= j < start + MEASURE_WINDOW
    ensures WindowStart(j) == start
  {
  }

  /** Marks after the first n sub-tokens. */
  ghost function Marks(e: Engine, enc: Encoding, scores: seq<real>, n: nat, size: nat): (marks: seq<bool>)
    requires n <= |enc.wordIndex| && forall w | w in enc.wordIndex :: w < size
    ensures |marks| == size
  {
    if n == 0 then seq(size, _ => false)
    else
      var marks := Marks(e, enc, scores, n - 1, size);
      var w := enc.wordIndex[n - 1];
      assert w in enc.wordIndex;
      if w < 0 || n - 1 >= |scores| || scores[n - 1] <= e.threshold then marks else marks[w := true]
  }

  lemma {:induction false} MarksMean(e: Engine, enc: Encoding, scores: seq<real>, n: nat, size: nat, j: nat)
    requires n <= |enc.wordIndex| && j < size && forall w | w in enc.wordIndex :: w < size
    ensures Marks(e, enc, scores, n, size)[j] <==>
      exists t :: 0 <= t < n && t < |scores| && enc.wordIndex[t] == j && scores[t] > e.threshold
  {
    if n > 0 {
      MarksMean(e, enc, scores, n - 1, size, j);
      assert enc.wordIndex[n - 1] in enc.wordIndex;
    }
  }

  /** A word is marked when any of its sub-tokens scores above the threshold. */
  method MarkScored(e: Engine, kept: array<bool>, offset: nat, size: nat, enc: Encoding, scores: seq<real>)
    requires offset + size <= kept.Length
    requires forall w | w in enc.wordIndex :: w < size
    requires forall i | offset <= i < offset + size :: !kept[i]
    modifies kept
    ensures forall i | offset <= i < offset + size :: kept[i] <==> ScoredAbove(e, enc, scores, i - offset)
    ensures forall i | 0 <= i < kept.Length && !(offset <= i < offset + size) :: kept[i] == old(kept[i])
  {
    for t := 0 to |enc.wordIndex|
      invariant kept[offset..offset + size] == Marks(e, enc, scores, t, size)
      invariant forall i | 0 <= i < kept.Length && !(offset <= i < offset + size) :: kept[i] == old(kept[i])
    {
      var w := enc.wordIndex[t];
      assert w in enc.wordIndex;
      if w < 0 || t >= |scores| {
        continue;
      }
      if scores[t] > e.threshold {
        kept[offset + w] := true;
      }
    }
    forall i | offset <= i < offset + size
      ensures kept[i] <==> ScoredAbove(e, enc, scores, i - offset)
    {
      MarksMean(e, enc, scores, |enc.wordIndex|, size, i - offset);
      assert kept[i] == kept[offset..offset + size][i - offset];
    }
  }

  /** Marks the surviving words of one chunk at its offset in the document. */
  method MarkChunk(e: Engine, m: Model, kept: array<bool>, offset: nat, chunk: seq<string>, enc: Encoding,
      scores: seq<real>) returns (ok: bool)
    requires offset + |chunk| <= kept.Length
    requires e.encode(chunk) == Some(enc) && Aligned(chunk, enc)
    requires forall i | offset <= i < offset + |chunk| :: !kept[i]
    modifies kept
    ensures ok && ScoreAlone(m, InputOf(enc)) == Some(scores) ==>
      kept[offset..offset + |chunk|] == ChunkFlags(e, m, chunk)
    ensures !ok ==> exists w :: e.mustKeep(w).None?
    ensures forall i | 0 <= i < kept.Length && !(offset <= i < offset + |chunk|) :: kept[i] == old(kept[i])
  {
    hide ScoreAlone, ScoredAbove;
    MarkScored(e, kept, offset, |chunk|, enc, scores);
    for i := 0 to |chunk|
      invariant forall k | offset <= k < offset + |chunk| :: kept[k] <==>
        ScoredAbove(e, enc, scores, k - offset) || (k < offset + i && e.mustKeep(chunk[k - offset]) == Some(true))
      invariant forall i | 0 <= i < kept.Length && !(offset <= i < offset + |chunk|) :: kept[i] == old(kept[i])
    {
      var mk := e.mustKeep(chunk[i]);
      if mk.None? {
        return false;
      }
      if mk.value {
        kept[offset + i] := true;
      }
    }
    if ScoreAlone(m, InputOf(enc)) == Some(scores) {
      forall j: nat | j < |chunk|
        ensures kept[offset + j] == Keeps(e, m, chunk, j)
      {
        KeepsIs(e, m, chunk, j, enc, scores);
      }
      assert kept[offset..offset + |chunk|] == ChunkFlags(e, m, chunk);
    }
    return true;
  }

  lemma KeepsIs(e: Engine, m: Model, chunk: seq<string>, j: nat, enc: Encoding, scores: seq<real>)
    requires j < |chunk| && e.encode(chunk) == Some(enc) && |enc.ids| == |enc.mask|
    requires ScoreAlone(m, InputOf(enc)) == Some(scores)
    ensures Keeps(e, m, chunk, j) <==> e.mustKeep(chunk[j]) == Some(true) || ScoredAbove(e, enc, scores, j)
  {
  }

  /** No tokenizer, must-keep or model call fails. */
  ghost predicate NothingFails(e: Engine, m: Model)
  {
    (forall ws :: e.encode(ws).Some?) && (forall w :: e.mustKeep(w).Some?) && AlwaysAnswers(m)
  }

  /** The encodings of the first n chunks. */
  ghost predicate Encoded(e: Engine, chunks: seq<seq<string>>, encodings: seq<Encoding>, n: nat)
  {
    n == |encodings| <= |chunks| && forall k | 0 <= k < n :: EncodedAt(e, chunks, encodings, k)
  }

  ghost predicate EncodedAt(e: Engine, chunks: seq<seq<string>>, encodings: seq<Encoding>, k: nat)
    requires k < |encodings| && k < |chunks|
  {
    e.encode(chunks[k]) == Some(encodings[k]) && Aligned(chunks[k], encodings[k])
  }

  method EncodeChunks(e: Engine, chunks: seq<seq<string>>)
      returns (ok: bool, encodings: seq<Encoding>, offsets: seq<nat>)
    requires TokenizerContract(e.encode)
    ensures ok ==> Encoded(e, chunks, encodings, |chunks|)
    ensures ok ==> |offsets| == |chunks| && forall k | 0 <= k < |chunks| :: offsets[k] == |Flatten(chunks[..k])|
    ensures !ok ==> exists ws :: e.encode(ws).None?
  {
    encodings, offsets := [], [];
    var wordOffset: nat := 0;
    for i := 0 to |chunks|
      invariant Encoded(e, chunks, encodings, i)
      invariant |offsets| == i && forall k | 0 <= k < i :: offsets[k] == |Flatten(chunks[..k])|
      invariant wordOffset == |Flatten(chunks[..i])|
    {
      var enc := e.encode(chunks[i]);
      if enc.None? {
        return false, [], [];
      }
      EncodedMore(e, chunks, encodings, i, enc.value);
      encodings := encodings + [enc.value];
      offsets := offsets + [wordOffset];
      wordOffset := wordOffset + |chunks[i]|;
      FlattenMore(chunks, i);
    }
    ok := true;
  }

  lemma EncodedMore(e: Engine, chunks: seq<seq<string>>, encodings: seq<Encoding>, i: nat, enc: Encoding)
    requires TokenizerContract(e.encode)
    requires Encoded(e, chunks, encodings, i) && i < |chunks| && e.encode(chunks[i]) == Some(enc)
    ensures Encoded(e, chunks, encodings + [enc], i + 1)
  {
    forall k | 0 <= k < i + 1
      ensures EncodedAt(e, chunks, encodings + [enc], k)
    {
      if k < i {
        assert EncodedAt(e, chunks, encodings, k);
      }
    }
  }

  lemma FlattenMore<T>(chunks: seq<seq<T>>, i: nat)
    requires i < |chunks|
    ensures Flatten(chunks[..i + 1]) == Flatten(chunks[..i]) + chunks[i]
  {
    assert chunks[..i + 1][..i] == chunks[..i];
  }

  lemma {:induction false} FlattenPrefix<T>(chunks: seq<seq<T>>, i: nat)
    requires i <= |chunks|
    ensures |Flatten(chunks[..i])| <= |Flatten(chunks)|
    decreases |chunks| - i
  {
    if i < |chunks| {
      FlattenMore(chunks, i);
      FlattenPrefix(chunks, i + 1);
    } else {
      assert chunks[..i] == chunks;
    }
  }

  /** Every chunk's results are those of its own encoding scored alone. */
  ghost predicate ScoredAlone(m: Model, encodings: seq<Encoding>, scores: seq<seq<real>>)
  {
    |scores| == |encodings| && forall i | 0 <= i < |encodings| :: AsAlone(m, encodings, scores, i)
  }

  /** Fills the keep table chunk by chunk. */
  method MarkChunks(e: Engine, m: Model, chunks: seq<seq<string>>, encodings: seq<Encoding>, offsets: seq<nat>,
      scores: seq<seq<real>>) returns (ok: bool, kept: array<bool>)
    requires Encoded(e, chunks, encodings, |chunks|) && |scores| == |chunks| == |offsets|
    requires forall k | 0 <= k < |chunks| :: offsets[k] == |Flatten(chunks[..k])|
    ensures fresh(kept) && kept.Length == |Flatten(chunks)|
    ensures ok && ScoredAlone(m, encodings, scores) ==> kept[..] == Flags(e, m, chunks)
    ensures !ok ==> exists w :: e.mustKeep(w).None?
  {
    hide ScoreAlone, ChunkFlags, Aligned, Flags, Flatten;
    NoChunks(e, m, chunks);
    kept := new bool[|Flatten(chunks)|](_ => false);
    for ci := 0 to |chunks|
      invariant |Flatten(chunks[..ci])| <= kept.Length
      invariant forall i | |Flatten(chunks[..ci])| <= i < kept.Length :: !kept[i]
      invariant ScoredAlone(m, encodings, scores) ==> kept[..|Flatten(chunks[..ci])|] == Flags(e, m, chunks[..ci])
    {
      var offset := offsets[ci];
      FlattenMore(chunks, ci);
      FlattenPrefix(chunks, ci + 1);
      assert EncodedAt(e, chunks, encodings, ci);
      ghost var before := kept[..offset];
      ok := MarkChunk(e, m, kept, offset, chunks[ci], encodings[ci], scores[ci]);
      if !ok {
        return false, kept;
      }
      if ScoredAlone(m, encodings, scores) {
        assert AsAlone(m, encodings, scores, ci);
        FlagsMore(e, m, chunks, ci);
        assert kept[..offset] == before;
        assert kept[..offset + |chunks[ci]|] == kept[..offset] + kept[offset..offset + |chunks[ci]|];
      }
    }
    assert chunks[..|chunks|] == chunks;
    assert kept[..kept.Length] == kept[..];
    ok := true;
  }

  lemma NoChunks(e: Engine, m: Model, chunks: seq<seq<string>>)
    ensures Flatten(chunks[..0]) == [] && Flags(e, m, chunks[..0]) == []
  {
  }

  lemma FlagsMore(e: Engine, m: Model, chunks: seq<seq<string>>, i: nat)
    requires i < |chunks|
    ensures Flags(e, m, chunks[..i + 1]) == Flags(e, m, chunks[..i]) + ChunkFlags(e, m, chunks[i])
  {
    assert chunks[..i + 1][..i] == chunks[..i];
  }

  /** Collects the kept words and the token totals. */
  method Collect(words: seq<string>, tokens: seq<nat>, kept: array<bool>)
      returns (out: seq<string>, original: nat, compressed: nat)
    requires |words| == |tokens| == kept.Length
    ensures out == Selected(words, kept[..])
    ensures original == Total(tokens) && compressed == Total(Selected(tokens, kept[..]))
  {
    original := 0;
    for i := 0 to |tokens|
      invariant original == Total(tokens[..i])
    {
      assert tokens[..i + 1][..i] == tokens[..i];
      original := original + tokens[i];
    }
    assert tokens[..|tokens|] == tokens;
    out, compressed := [], 0;
    for i := 0 to |words|
      invariant out == Selected(words[..i], kept[..i])
      invariant compressed == Total(Selected(tokens[..i], kept[..i]))
    {
      SelectedMore(words, kept[..], i);
      SelectedMore(tokens, kept[..], i);
      assert kept[..][..i] == kept[..i] && kept[..][..i + 1] == kept[..i + 1];
      if kept[i] {
        TotalMore(Selected(tokens[..i], kept[..i]), tokens[i]);
        out := out + [words[i]];
        compressed := compressed + tokens[i];
      }
    }
    assert words[..|words|] == words && kept[..|words|] == kept[..];
  }

  lemma SelectedMore<T>(xs: seq<T>, flags: seq<bool>, i: nat)
    requires |xs| == |flags| && i < |xs|
    ensures Selected(xs[..i + 1], flags[..i + 1])
         == if flags[i] then Selected(xs[..i], flags[..i]) + [xs[i]] else Selected(xs[..i], flags[..i])
  {
    assert xs[..i + 1][..i] == xs[..i] && flags[..i + 1][..i] == flags[..i];
    var rest := Selected(xs[..i], flags[..i]);
    assert rest + [] == rest;
  }

  lemma TotalMore(ns: seq<nat>, n: nat)
    ensures Total(ns + [n]) == Total(ns) + n
  {
  }

  /** Compress: for a faithful model, the expected result whatever the batch size. */
  method Compress(e: Engine, scorer: Scorer, batchSize: int, content: string) returns (r: Option<Result>)
    requires TokenizerContract(e.encode)
    modifies scorer
    ensures r.Some? && Faithful(scorer.model) ==> r.value == Expected(e, scorer.model, content)
    ensures NothingFails(e, scorer.model) ==> r.Some?
    ensures old(scorer.calls) <= scorer.calls
    ensures Bounded(scorer.calls[|old(scorer.calls)|..], if batchSize < 1 then 1 else batchSize)
  {
    hide Flags, ChunksOf, TokensPerWord, Selected, Total, Fields, Utf8Length, JoinWords, AlwaysAnswers, Faithful;
    assert scorer.calls[|scorer.calls|..] == [];
    if Utf8Length(content) < e.byteThreshold {
      return Some(Passthrough(content, 0));
    }
    var words := Fields(content);
    if |words| < e.minWords {
      return Some(Passthrough(content, 0));
    }
    var measured := Measure(e, words);
    if measured.None? {
      return None;
    }
    var tokens := measured.value;
    var chunks := ChunkWords(words, tokens);
    CutsUnique(words, Greedy(tokens, 0), chunks, ChunksOf(words, tokens));
    var encoded, encodings, offsets := EncodeChunks(e, chunks);
    if !encoded {
      return None;
    }
    EncodingsAligned(e, chunks, encodings);
    var scores := ScoreEncodings(scorer, encodings, batchSize);
    if scores.None? {
      return None;
    }
    var ok, kept := MarkChunks(e, scorer.model, chunks, encodings, offsets, scores.value);
    if !ok {
      return None;
    }
    var out, original, compressed := Collect(words, tokens, kept);
    if |out| == 0 {
      return Some(Passthrough(content, original));
    }
    return Some(Result(JoinWords(out), |words|, |out|, original, compressed, false));
  }

  lemma EncodingsAligned(e: Engine, chunks: seq<seq<string>>, encodings: seq<Encoding>)
    requires Encoded(e, chunks, encodings, |chunks|)
    ensures forall enc | enc in encodings :: |enc.ids| == |enc.mask|
  {
    forall enc | enc in encodings
      ensures |enc.ids| == |enc.mask|
    {
      var k :| 0 <= k < |encodings| && encodings[k] == enc;
      assert EncodedAt(e, chunks, encodings, k);
    }
  }
}
