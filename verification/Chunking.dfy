/** Splitting words into chunks under a token budget. */
module Chunking {

  const MAX_CHUNK_TOKENS: nat := 512
  const SPECIAL_TOKEN_BUDGET: nat := 2
  const MAX_CONTENT_TOKENS: nat := MAX_CHUNK_TOKENS - SPECIAL_TOKEN_BUDGET

  /** Tokens of the words lo..hi-1. */
  function TokenSum(tokens: seq<nat>, lo: nat, hi: nat): (n: nat)
    requires lo <= hi <= |tokens|
    decreases hi
  {
    if lo == hi then 0 else TokenSum(tokens, lo, hi - 1) + tokens[hi - 1]
  }

  /** A chunk lo..hi-1 is within the budget, or is one word that no cut could make smaller. */
  ghost predicate Fits(tokens: seq<nat>, lo: nat, hi: nat)
    requires lo <= hi <= |tokens|
  {
    lo < hi && (hi == lo + 1 || TokenSum(tokens, lo, hi) <= MAX_CONTENT_TOKENS)
  }

  /** The ends of consecutive fitting chunks that cover start..|tokens|-1. */
  ghost predicate IsSplit(tokens: seq<nat>, start: nat, ends: seq<nat>)
    decreases |ends|
  {
    if ends == [] then start == |tokens|
    else start < ends[0] <= |tokens| && Fits(tokens, start, ends[0]) && IsSplit(tokens, ends[0], ends[1..])
  }

  lemma {:induction false} SubrangeSum(tokens: seq<nat>, a: nat, b: nat, c: nat, d: nat)
    requires a <= b <= c <= d <= |tokens|
    ensures TokenSum(tokens, b, c) <= TokenSum(tokens, a, d)
    decreases d
  {
    if c < d {
      SubrangeSum(tokens, a, b, c, d - 1);
    } else if b < c {
      SubrangeSum(tokens, a, b, c - 1, c - 1);
    }
  }

  /** The end of the longest chunk that starts at start, searched from k with its running count. */
  ghost function LongestEnd(tokens: seq<nat>, start: nat, k: nat, count: nat): (end: nat)
    requires start < k <= |tokens| && count == TokenSum(tokens, start, k)
    requires Fits(tokens, start, k)
    ensures k <= end <= |tokens| && Fits(tokens, start, end)
    ensures forall e | k <= e <= |tokens| && Fits(tokens, start, e) :: e <= end
    decreases |tokens| - k
  {
    if k < |tokens| && count + tokens[k] <= MAX_CONTENT_TOKENS then
      LongestEnd(tokens, start, k + 1, count + tokens[k])
    else
      assert forall e | k < e <= |tokens| :: !Fits(tokens, start, e) by {
        forall e | k < e <= |tokens|
          ensures !Fits(tokens, start, e)
        {
          SubrangeSum(tokens, start, start, k + 1, e);
        }
      }
      k
  }

  /** Chunk ends chosen by always taking the longest chunk. */
  ghost function Greedy(tokens: seq<nat>, start: nat): (ends: seq<nat>)
    requires start <= |tokens|
    ensures IsSplit(tokens, start, ends)
    decreases |tokens| - start
  {
    if start == |tokens| then []
    else
      var end := LongestEnd(tokens, start, start + 1, tokens[start]);
      var rest := Greedy(tokens, end);
      assert ([end] + rest)[1..] == rest;
      [end] + rest
  }

  /** No split of the same words uses fewer chunks than the greedy one. */
  lemma {:induction false} GreedyIsFewest(tokens: seq<nat>, a: nat, b: nat, ends: seq<nat>)
    requires a <= b <= |tokens| && IsSplit(tokens, a, ends)
    ensures |Greedy(tokens, b)| <= |ends|
    decreases |ends|
  {
    if b < |tokens| {
      var e := ends[0];
      if e <= b {
        GreedyIsFewest(tokens, e, b, ends[1..]);
      } else {
        SubrangeSum(tokens, a, b, e, e);
        var g := LongestEnd(tokens, b, b + 1, tokens[b]);
        assert Fits(tokens, b, e);
        GreedyIsFewest(tokens, e, g, ends[1..]);
      }
    }
  }

  function StartOf(ends: seq<nat>, k: nat): nat
    requires k <= |ends|
  {
    if k == 0 then 0 else ends[k - 1]
  }

  /** Chunk k holds the words from the previous end up to its own. */
  ghost predicate CutPiece<T>(words: seq<T>, ends: seq<nat>, chunks: seq<seq<T>>, k: nat)
    requires k < |ends| == |chunks|
  {
    StartOf(ends, k) < ends[k] <= |words| && chunks[k] == words[StartOf(ends, k)..ends[k]]
  }

  /** The chunks cut from words at the given ends. */
  ghost predicate CutAt<T>(words: seq<T>, ends: seq<nat>, chunks: seq<seq<T>>)
  {
    |chunks| == |ends| && forall k | 0 <= k < |ends| :: CutPiece(words, ends, chunks, k)
  }

  function Flatten<T>(chunks: seq<seq<T>>): seq<T>
  {
    if chunks == [] then [] else Flatten(chunks[..|chunks| - 1]) + chunks[|chunks| - 1]
  }

  /** Closing one more chunk at end. */
  lemma CutExtend<T>(words: seq<T>, ends: seq<nat>, chunks: seq<seq<T>>, end: nat)
    requires CutAt(words, ends, chunks) && StartOf(ends, |ends|) < end <= |words|
    ensures CutAt(words, ends + [end], chunks + [words[StartOf(ends, |ends|)..end]])
  {
    var ends', chunks' := ends + [end], chunks + [words[StartOf(ends, |ends|)..end]];
    forall k | 0 <= k < |ends'|
      ensures CutPiece(words, ends', chunks', k)
    {
      assert StartOf(ends', k) == StartOf(ends, k);
      assert k < |ends| ==> CutPiece(words, ends, chunks, k);
    }
  }

  lemma CutShrink<T>(words: seq<T>, ends: seq<nat>, chunks: seq<seq<T>>)
    requires CutAt(words, ends, chunks) && ends != []
    ensures CutAt(words, ends[..|ends| - 1], chunks[..|ends| - 1])
    ensures StartOf(ends[..|ends| - 1], |ends| - 1) == StartOf(ends, |ends| - 1)
  {
    var ends', chunks' := ends[..|ends| - 1], chunks[..|ends| - 1];
    forall k | 0 <= k < |ends'|
      ensures CutPiece(words, ends', chunks', k)
    {
      assert StartOf(ends', k) == StartOf(ends, k);
      assert CutPiece(words, ends, chunks, k);
    }
    assert StartOf(ends', |ends'|) == StartOf(ends, |ends'|);
  }

  lemma {:induction false} CutsFlatten<T>(words: seq<T>, ends: seq<nat>, chunks: seq<seq<T>>)
    requires CutAt(words, ends, chunks)
    ensures StartOf(ends, |ends|) <= |words|
    ensures Flatten(chunks) == words[..StartOf(ends, |ends|)]
    decreases |ends|
  {
    if ends != [] {
      var n := |ends| - 1;
      CutShrink(words, ends, chunks);
      CutsFlatten(words, ends[..n], chunks[..n]);
      assert CutPiece(words, ends, chunks, n);
      assert words[..ends[n]] == words[..StartOf(ends, n)] + words[StartOf(ends, n)..ends[n]];
    }
  }

  lemma {:induction false} SplitEnds(tokens: seq<nat>, start: nat, ends: seq<nat>)
    requires IsSplit(tokens, start, ends)
    ensures if ends == [] then start == |tokens| else ends[|ends| - 1] == |tokens|
    decreases |ends|
  {
    if ends != [] {
      SplitEnds(tokens, ends[0], ends[1..]);
    }
  }

  /** Every chunk of a split fits, by position. */
  lemma {:induction false} SplitFits(tokens: seq<nat>, start: nat, ends: seq<nat>, k: nat)
    requires IsSplit(tokens, start, ends) && k < |ends|
    ensures var lo := if k == 0 then start else ends[k - 1];
      lo < ends[k] <= |tokens| && Fits(tokens, lo, ends[k])
    decreases |ends|
  {
    if k > 0 {
      SplitFits(tokens, ends[0], ends[1..], k - 1);
    }
  }

  /** chunkWords: one pass that closes a chunk when the next word would exceed the budget. */
  method ChunkWords<T>(words: seq<T>, tokensPerWord: seq<nat>) returns (chunks: seq<seq<T>>)
    requires |words| == |tokensPerWord|
    ensures CutAt(words, Greedy(tokensPerWord, 0), chunks)
    ensures Flatten(chunks) == words
    ensures forall ends | IsSplit(tokensPerWord, 0, ends) :: |chunks| <= |ends|
  {
    hide Flatten, IsSplit, CutAt, Greedy, LongestEnd, Fits, TokenSum;
    if |words| == 0 {
      NothingToCut(words);
      CutsFlatten(words, [], []);
      assert Greedy(tokensPerWord, 0) == [] by { NoWordsLeft(tokensPerWord); }
      return [];
    }
    chunks := [];
    var start: nat, count: nat := 0, 0;
    ghost var ends: seq<nat> := [];
    NothingToCut(words);
    for i := 0 to |tokensPerWord|
      invariant Progress(tokensPerWord, start, i, count)
      invariant CutAt(words, ends, chunks) && StartOf(ends, |ends|) == start
      invariant ends + Greedy(tokensPerWord, start) == Greedy(tokensPerWord, 0)
    {
      var n := tokensPerWord[i];
      if count + n > MAX_CONTENT_TOKENS && i > start {
        CutExtend(words, ends, chunks, i);
        CloseChunk(tokensPerWord, start, i, count);
        assert (ends + [i]) + Greedy(tokensPerWord, i) == ends + Greedy(tokensPerWord, start);
        chunks := chunks + [words[start..i]];
        ends := ends + [i];
        start := i;
        count := 0;
        FirstWord(tokensPerWord, i);
      } else {
        AddWord(tokensPerWord, start, i, count);
      }
      count := count + n;
    }
    assert words[start..] == words[start..|words|];
    CutExtend(words, ends, chunks, |words|);
    LastChunk(tokensPerWord, start, count);
    chunks := chunks + [words[start..]];
    ghost var all := Greedy(tokensPerWord, 0);
    assert ends + [|words|] == all;
    CutsFlatten(words, all, chunks);
    assert words[..|words|] == words;
    forall other | IsSplit(tokensPerWord, 0, other)
      ensures |chunks| <= |other|
    {
      GreedyIsFewest(tokensPerWord, 0, 0, other);
    }
  }

  lemma NothingToCut<T>(words: seq<T>)
    ensures CutAt(words, [], [])
  {
  }

  /** Loop state before word i: the open chunk start..i-1 fits and is on its way to the longest one. */
  ghost predicate Progress(tokens: seq<nat>, start: nat, i: nat, count: nat)
  {
    if i == 0 then start == 0 && count == 0
    else
      && start < i <= |tokens|
      && count == TokenSum(tokens, start, i)
      && Fits(tokens, start, i)
      && Fits(tokens, start, start + 1)
      && TokenSum(tokens, start, start + 1) == tokens[start]
      && LongestEnd(tokens, start, start + 1, tokens[start]) == LongestEnd(tokens, start, i, count)
  }

  lemma FirstWord(tokens: seq<nat>, i: nat)
    requires i < |tokens|
    ensures Progress(tokens, i, i + 1, tokens[i])
  {
  }

  lemma AddWord(tokens: seq<nat>, start: nat, i: nat, count: nat)
    requires Progress(tokens, start, i, count) && i < |tokens|
    requires count + tokens[i] <= MAX_CONTENT_TOKENS || i <= start
    ensures Progress(tokens, start, i + 1, count + tokens[i])
  {
  }

  lemma CloseChunk(tokens: seq<nat>, start: nat, i: nat, count: nat)
    requires Progress(tokens, start, i, count) && start < i < |tokens|
    requires count + tokens[i] > MAX_CONTENT_TOKENS
    ensures Greedy(tokens, start) == [i] + Greedy(tokens, i)
  {
  }

  lemma LastChunk(tokens: seq<nat>, start: nat, count: nat)
    requires Progress(tokens, start, |tokens|, count) && tokens != []
    ensures Greedy(tokens, start) == [|tokens|]
  {
  }

  lemma NoWordsLeft(tokens: seq<nat>)
    ensures Greedy(tokens, |tokens|) == []
  {
  }
}
