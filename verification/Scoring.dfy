/** Batched scoring of chunk encodings against a native model. */
module Scoring {
  import opened Wrappers
  import opened Chunking

  /** One sequence handed to the model: token ids and their attention mask. */
  datatype Input = Input(ids: seq<int>, mask: seq<int>)

  /** A tokenizer result: wordIndex holds, per token, the word it came from, or -1. */
  datatype Encoding = Encoding(ids: seq<int>, mask: seq<int>, wordIndex: seq<int>)

  /** The native model's two entry points; None is a failed call. */
  datatype Model = Model(single: Input -> Option<seq<real>>, batch: seq<Input> -> Option<seq<seq<real>>>)

  /** What the Scorer interface promises: a batch answers each sequence as it would be answered alone. */
  ghost predicate Faithful(m: Model)
  {
    forall xs, ys | m.batch(xs) == Some(ys) ::
      |ys| == |xs| && forall i | 0 <= i < |xs| :: m.single(xs[i]) == Some(ys[i])
  }

  /** A model that never fails and answers as many sequences as it is given. */
  ghost predicate AlwaysAnswers(m: Model)
  {
    && (forall x :: m.single(x).Some?)
    && (forall xs :: m.batch(xs).Some? && |m.batch(xs).value| == |xs|)
  }

  /** The scorer in front of the model; calls records the sequences of every native call. */
  class Scorer {
    const model: Model
    var calls: seq<seq<Input>>

    constructor (model: Model)
      ensures this.model == model && calls == []
    {
      this.model := model;
      calls := [];
    }

    method Score(x: Input) returns (r: Option<seq<real>>)
      modifies this
      ensures r == model.single(x) && calls == old(calls) + [[x]]
    {
      calls := calls + [[x]];
      r := model.single(x);
    }

    method ScoreBatch(xs: seq<Input>) returns (r: Option<seq<seq<real>>>)
      modifies this
      ensures r == model.batch(xs) && calls == old(calls) + [xs]
    {
      calls := calls + [xs];
      r := model.batch(xs);
    }
  }

  /** The pieces of at most MAX_CHUNK_TOKENS tokens from start on, scored one by one and joined. */
  function ScorePieces(m: Model, x: Input, start: nat): (r: Option<seq<real>>)
    requires |x.ids| == |x.mask|
    decreases |x.ids| - start
  {
    if start >= |x.ids| then Some([])
    else
      var end := if start + MAX_CHUNK_TOKENS > |x.ids| then |x.ids| else start + MAX_CHUNK_TOKENS;
      match m.single(Input(x.ids[start..end], x.mask[start..end]))
      case None => None
      case Some(scores) =>
        match ScorePieces(m, x, start + MAX_CHUNK_TOKENS)
        case None => None
        case Some(rest) => Some(scores + rest)
  }

  /** An encoding scored by itself. */
  function ScoreAlone(m: Model, x: Input): (r: Option<seq<real>>)
    requires |x.ids| == |x.mask|
  {
    if |x.ids| <= MAX_CHUNK_TOKENS then m.single(x) else ScorePieces(m, x, 0)
  }

  /** No native call sees more than max sequences, nor a sequence of more than MAX_CHUNK_TOKENS tokens. */
  ghost predicate Bounded(calls: seq<seq<Input>>, max: nat)
  {
    forall c | c in calls :: 1 <= |c| <= max && forall x | x in c :: |x.ids| <= MAX_CHUNK_TOKENS
  }

  method ScoreChunk(scorer: Scorer, x: Input) returns (r: Option<seq<real>>)
    requires |x.ids| == |x.mask|
    modifies scorer
    ensures r == ScoreAlone(scorer.model, x)
    ensures old(scorer.calls) <= scorer.calls
    ensures Bounded(scorer.calls[|old(scorer.calls)|..], 1)
  {
    hide Bounded;
    assert scorer.calls[|old(scorer.calls)|..] == [];
    NoCalls(1);
    if |x.ids| <= MAX_CHUNK_TOKENS {
      r := scorer.Score(x);
      OneCall(x);
      assert scorer.calls[|old(scorer.calls)|..] == [[x]];
      return;
    }
    var scores: seq<real> := [];
    var start: nat := 0;
    PrependNothing(ScorePieces(scorer.model, x, 0));
    while start < |x.ids|
      invariant ScoreAlone(scorer.model, x) == Prepend(scores, ScorePieces(scorer.model, x, start))
      invariant old(scorer.calls) <= scorer.calls
      invariant Bounded(scorer.calls[|old(scorer.calls)|..], 1)
      decreases |x.ids| - start
    {
      var end := start + MAX_CHUNK_TOKENS;
      if end > |x.ids| {
        end := |x.ids|;
      }
      ghost var before := scorer.calls;
      var piece := Input(x.ids[start..end], x.mask[start..end]);
      var answer := scorer.Score(piece);
      OneCall(piece);
      assert scorer.calls[|before|..] == [[piece]];
      LogGrows(old(scorer.calls), before, scorer.calls, 1);
      if answer.None? {
        return None;
      }
      PrependStep(scores, answer.value, ScorePieces(scorer.model, x, start + MAX_CHUNK_TOKENS));
      scores := scores + answer.value;
      start := start + MAX_CHUNK_TOKENS;
    }
    assert scores + [] == scores;
    return Some(scores);
  }

  function Prepend(a: seq<real>, r: Option<seq<real>>): Option<seq<real>>
  {
    if r.None? then None else Some(a + r.value)
  }

  lemma PrependNothing(r: Option<seq<real>>)
    ensures Prepend([], r) == r
  {
    if r.Some? {
      assert [] + r.value == r.value;
    }
  }

  lemma PrependStep(a: seq<real>, b: seq<real>, r: Option<seq<real>>)
    ensures Prepend(a, Prepend(b, r)) == Prepend(a + b, r)
  {
    if r.Some? {
      assert a + (b + r.value) == a + b + r.value;
    }
  }

  function InputOf(e: Encoding): Input
  {
    Input(e.ids, e.mask)
  }

  /** The i-th result is what encoding i scores by itself. */
  ghost predicate AsAlone(m: Model, encs: seq<Encoding>, out: seq<seq<real>>, i: nat)
    requires i < |encs| && i < |out|
  {
    |encs[i].ids| == |encs[i].mask| && ScoreAlone(m, InputOf(encs[i])) == Some(out[i])
  }

  /** Places the answers of a batch at first, first+1, ... of out. */
  method Place(out: array<seq<real>>, first: nat, scores: seq<seq<real>>)
    requires first + |scores| <= out.Length
    modifies out
    ensures out[first..first + |scores|] == scores
    ensures forall i | 0 <= i < out.Length && !(first <= i < first + |scores|) :: out[i] == old(out[i])
  {
    for j := 0 to |scores|
      invariant out[first..first + j] == scores[..j]
      invariant forall i | 0 <= i < out.Length && !(first <= i < first + j) :: out[i] == old(out[i])
    {
      out[first + j] := scores[j];
      assert out[first..first + j + 1] == out[first..first + j] + [scores[j]];
      assert scores[..j + 1] == scores[..j] + [scores[j]];
    }
    assert scores[..|scores|] == scores;
  }

  /** flush: one native call for the encodings pending before i, whose answers go to their own places. */
  method Flush(scorer: Scorer, out: array<seq<real>>, ghost encs: seq<Encoding>, i: nat, pending: seq<Input>,
      ghost start: seq<seq<Input>>, ghost size: nat)
      returns (ok: bool)
    requires out.Length == |encs| && Pending(encs, i, pending) && |pending| <= size
    requires Faithful(scorer.model) ==> Done(scorer.model, encs, out[..], i - |pending|)
    requires start <= scorer.calls && Bounded(scorer.calls[|start|..], size)
    modifies scorer, out
    ensures start <= scorer.calls && Bounded(scorer.calls[|start|..], size)
    ensures old(scorer.calls) <= scorer.calls
    ensures ok && Faithful(scorer.model) ==> Done(scorer.model, encs, out[..], i)
    ensures !ok ==> !AlwaysAnswers(scorer.model)
  {
    hide Pending, Done, Faithful, Bounded;
    ghost var before, was := scorer.calls, out[..];
    PendingLength(encs, i, pending);
    if |pending| == 0 {
      return true;
    }
    var scores := scorer.ScoreBatch(pending);
    FlushLogged(start, before, scorer.calls, pending, size, encs, i);
    if scores.None? || |scores.value| != |pending| {
      return false;
    }
    Place(out, i - |pending|, scores.value);
    assert scores.value == out[i - |pending|..i];
    FlushScores(scorer.model, encs, was, out[..], i, pending);
    return true;
  }

  /** scoreEncodings: in-order results, batched where the encodings fit and piecewise where they do not. */
  method ScoreEncodings(scorer: Scorer, encs: seq<Encoding>, batchSize: int) returns (r: Option<seq<seq<real>>>)
    requires forall e | e in encs :: |e.ids| == |e.mask|
    modifies scorer
    ensures r.Some? ==> |r.value| == |encs|
    ensures r.Some? && Faithful(scorer.model) ==>
      forall i | 0 <= i < |encs| :: AsAlone(scorer.model, encs, r.value, i)
    ensures AlwaysAnswers(scorer.model) ==> r.Some?
    ensures old(scorer.calls) <= scorer.calls
    ensures Bounded(scorer.calls[|old(scorer.calls)|..], if batchSize < 1 then 1 else batchSize)
  {
    hide ScoreAlone, Bounded, Faithful, AlwaysAnswers, Pending, Done;
    var size: nat := if batchSize < 1 then 1 else batchSize;
    var out := new seq<real>[|encs|](_ => []);
    var pending: seq<Input> := [];
    ghost var start := scorer.calls;
    assert scorer.calls[|start|..] == [];
    NoCalls(size);
    NothingPending(encs, 0);
    NothingDone(scorer.model, encs, out[..]);
    for i := 0 to |encs|
      invariant |pending| < size
      invariant Pending(encs, i, pending)
      invariant Faithful(scorer.model) ==> Done(scorer.model, encs, out[..], i - |pending|)
      invariant start <= scorer.calls && Bounded(scorer.calls[|start|..], size)
    {
      var x := InputOf(encs[i]);
      if |x.ids| > MAX_CHUNK_TOKENS {
        var ok := Flush(scorer, out, encs, i, pending, start, size);
        if !ok {
          return None;
        }
        ghost var before, was := scorer.calls, out[..];
        var scores := ScoreChunk(scorer, x);
        LogGrows(start, before, scorer.calls, size);
        if scores.None? {
          NeverNone(scorer.model, x);
          return None;
        }
        out[i] := scores.value;
        pending := [];
        NothingPending(encs, i + 1);
        OneMore(scorer.model, encs, was, out[..], i);
      } else {
        OnePending(encs, i, pending);
        pending := pending + [x];
        if |pending| >= size {
          var ok := Flush(scorer, out, encs, i + 1, pending, start, size);
          if !ok {
            return None;
          }
          pending := [];
          NothingPending(encs, i + 1);
        }
      }
    }
    var ok := Flush(scorer, out, encs, |encs|, pending, start, size);
    if !ok {
      return None;
    }
    AllDone(scorer.model, encs, out[..]);
    return Some(out[..]);
  }

  /** The pending sequences are the last encodings before i, all of a size the model accepts. */
  ghost predicate Pending(encs: seq<Encoding>, i: nat, pending: seq<Input>)
  {
    && |pending| <= i <= |encs|
    && forall j | 0 <= j < |pending| :: IsPending(encs, i - |pending| + j, pending[j])
  }

  ghost predicate IsPending(encs: seq<Encoding>, k: nat, x: Input)
    requires k < |encs|
  {
    x == InputOf(encs[k]) && |x.ids| == |x.mask| && |x.ids| <= MAX_CHUNK_TOKENS
  }

  ghost predicate Done(m: Model, encs: seq<Encoding>, out: seq<seq<real>>, n: int)
  {
    n <= |encs| == |out| && forall i | 0 <= i < n :: AsAlone(m, encs, out, i)
  }

  lemma PendingLength(encs: seq<Encoding>, i: nat, pending: seq<Input>)
    requires Pending(encs, i, pending)
    ensures |pending| <= i <= |encs|
  {
  }

  lemma NothingPending(encs: seq<Encoding>, i: nat)
    requires i <= |encs|
    ensures Pending(encs, i, [])
  {
  }

  lemma OnePending(encs: seq<Encoding>, i: nat, pending: seq<Input>)
    requires Pending(encs, i, pending) && i < |encs|
    requires |encs[i].ids| == |encs[i].mask| && |encs[i].ids| <= MAX_CHUNK_TOKENS
    ensures Pending(encs, i + 1, pending + [InputOf(encs[i])])
  {
  }

  lemma NothingDone(m: Model, encs: seq<Encoding>, out: seq<seq<real>>)
    requires |out| == |encs|
    ensures Done(m, encs, out, 0)
  {
  }

  lemma AllDone(m: Model, encs: seq<Encoding>, out: seq<seq<real>>)
    requires |out| == |encs|
    requires Faithful(m) ==> Done(m, encs, out, |encs|)
    ensures Faithful(m) ==> forall i | 0 <= i < |encs| :: AsAlone(m, encs, out, i)
  {
  }

  lemma NoCalls(size: nat)
    ensures Bounded([], size)
  {
  }

  lemma OneCall(x: Input)
    requires |x.ids| <= MAX_CHUNK_TOKENS
    ensures Bounded([[x]], 1)
  {
  }

  lemma LogGrows(start: seq<seq<Input>>, before: seq<seq<Input>>, after: seq<seq<Input>>, size: nat)
    requires start <= before <= after && size >= 1
    requires Bounded(before[|start|..], size) && Bounded(after[|before|..], 1)
    ensures Bounded(after[|start|..], size)
  {
  }

  lemma FlushLogged(start: seq<seq<Input>>, before: seq<seq<Input>>, after: seq<seq<Input>>, pending: seq<Input>,
      size: nat, encs: seq<Encoding>, i: nat)
    requires start <= before && Bounded(before[|start|..], size)
    requires after == before + [pending]
    requires Pending(encs, i, pending) && 1 <= |pending| <= size
    ensures start <= after && Bounded(after[|start|..], size)
  {
  }

  /** A flush completes the results of its pending encodings and keeps the earlier ones. */
  lemma FlushScores(m: Model, encs: seq<Encoding>, was: seq<seq<real>>, out: seq<seq<real>>, i: nat,
                    pending: seq<Input>)
    requires |was| == |out| == |encs|
    requires Pending(encs, i, pending)
    requires Faithful(m) ==> Done(m, encs, was, i - |pending|)
    requires m.batch(pending) == Some(out[i - |pending|..i])
    requires forall k | 0 <= k < |out| && !(i - |pending| <= k < i) :: out[k] == was[k]
    ensures Faithful(m) ==> Done(m, encs, out, i)
  {
    hide Faithful, ScorePieces;
    if Faithful(m) {
      forall k: nat | k < i
        ensures AsAlone(m, encs, out, k)
      {
        if k < i - |pending| {
          assert AsAlone(m, encs, was, k);
        } else {
          var j := k - (i - |pending|);
          assert IsPending(encs, i - |pending| + j, pending[j]);
          BatchIsSingle(m, pending, out[i - |pending|..i], j);
        }
      }
    }
  }

  lemma BatchIsSingle(m: Model, xs: seq<Input>, ys: seq<seq<real>>, j: nat)
    requires Faithful(m) && m.batch(xs) == Some(ys) && j < |xs|
    ensures |ys| == |xs| && m.single(xs[j]) == Some(ys[j])
  {
  }

  lemma OneMore(m: Model, encs: seq<Encoding>, was: seq<seq<real>>, out: seq<seq<real>>, i: nat)
    requires |was| == |out| == |encs| && i < |encs|
    requires Faithful(m) ==> Done(m, encs, was, i)
    requires out == was[i := out[i]]
    requires |encs[i].ids| == |encs[i].mask| && ScoreAlone(m, InputOf(encs[i])) == Some(out[i])
    ensures Faithful(m) ==> Done(m, encs, out, i + 1)
  {
    if Faithful(m) {
      forall k: nat | k < i
        ensures AsAlone(m, encs, out, k)
      {
        assert AsAlone(m, encs, was, k);
      }
    }
  }

  lemma NeverNone(m: Model, x: Input)
    requires |x.ids| == |x.mask|
    ensures AlwaysAnswers(m) ==> ScoreAlone(m, x).Some?
  {
    if AlwaysAnswers(m) {
      PiecesAnswer(m, x, 0);
    }
  }

  lemma {:induction false} PiecesAnswer(m: Model, x: Input, start: nat)
    requires |x.ids| == |x.mask| && AlwaysAnswers(m)
    ensures ScorePieces(m, x, start).Some?
    decreases |x.ids| - start
  {
    if start < |x.ids| {
      PiecesAnswer(m, x, start + MAX_CHUNK_TOKENS);
    }
  }
}
