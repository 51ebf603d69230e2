/** The CRF layer on one row of a batch, and the padding of a batch. */
module Crf {
  import opened LinearChain
  import opened Partition
  import opened Masking
  import opened Bio

  /** The parameter tensors are buffers that _init_constraints writes in place; the loops of
      the other methods carry a score row from position to position. */
  class Layer {
    const numTags: nat
    const start: array<real>
    const transitions: array2<real>
    const end: array<real>

    ghost predicate Valid() {
      && numTags >= NUM_TAGS
      && start != end
      && start.Length == numTags && end.Length == numTags
      && transitions.Length0 == numTags && transitions.Length1 == numTags
    }

    function Row(j: nat, m: nat): (r: seq<real>)
      requires Valid() && j < numTags && m <= numTags
      reads transitions
      ensures |r| == m
      ensures forall i {:trigger r[i]} | 0 <= i < m :: r[i] == transitions[j, i]
    {
      if m == 0 then [] else Row(j, m - 1) + [transitions[j, m - 1]]
    }

    function Rows(m: nat): (r: seq<seq<real>>)
      requires Valid() && m <= numTags
      reads transitions
      ensures |r| == m
      ensures forall j {:trigger r[j]} | 0 <= j < m :: r[j] == Row(j, numTags)
    {
      if m == 0 then [] else Rows(m - 1) + [Row(m - 1, numTags)]
    }

    /** The current parameters as a value. */
    function Parameters(): (w: Weights)
      requires Valid()
      reads start, transitions, end
      ensures WeightsShaped(numTags, w)
    {
      Weights(start[..], Rows(numTags), end[..])
    }

    /** The initial values stand for the random draws. */
    constructor (n: nat, start0: seq<real>, trans0: seq<seq<real>>, end0: seq<real>)
      requires n >= NUM_TAGS && WeightsShaped(n, Weights(start0, trans0, end0))
      ensures Valid() && numTags == n && fresh(start) && fresh(transitions) && fresh(end)
      ensures forall j: nat | j < n ::
        start[j] == (if j < NUM_TAGS && IsInside(TAGS[j]) then PENALTY else start0[j])
      ensures forall i: nat, j: nat | i < n && j < n ::
        transitions[j, i] ==
          if i < NUM_TAGS && j < NUM_TAGS && !Allowed(TAGS[i], TAGS[j]) then PENALTY else trans0[j][i]
      ensures end[..] == end0
      ensures n == NUM_TAGS ==> Penalised(Parameters())
    {
      numTags := n;
      start := new real[n](i requires 0 <= i < n => start0[i]);
      transitions := new real[n, n]((j, i) requires 0 <= j < n && 0 <= i < n => trans0[j][i]);
      end := new real[n](i requires 0 <= i < n => end0[i]);
      new;
      InitConstraints();
      if n == NUM_TAGS {
        ConstraintsArePenalties();
      }
    }

    /** The cells written by _init_constraints are those that the BIO theorems ask for. */
    lemma ConstraintsArePenalties()
      requires Valid() && numTags == NUM_TAGS
      requires forall j: nat | j < NUM_TAGS && IsInside(TAGS[j]) :: start[j] == PENALTY
      requires forall i: nat, j: nat | i < NUM_TAGS && j < NUM_TAGS && !Allowed(TAGS[i], TAGS[j]) :: transitions[j, i] == PENALTY
      ensures Penalised(Parameters())
    {
      var w := Parameters();
      forall j: nat | j < NUM_TAGS && IsInside(TAGS[j])
        ensures w.start[j] == PENALTY
      {
      }
      forall i: nat, j: nat | i < NUM_TAGS && j < NUM_TAGS && !Allowed(TAGS[i], TAGS[j])
        ensures w.trans[j][i] == PENALTY
      {
        assert w.trans[j] == Row(j, numTags);
      }
      ConstraintsPenalise(w);
    }

    method InitConstraints()
      requires Valid()
      modifies start, transitions
      ensures forall j: nat | j < numTags ::
        start[j] == if j < NUM_TAGS && IsInside(TAGS[j]) then PENALTY else old(start[j])
      ensures forall i: nat, j: nat | i < numTags && j < numTags ::
        transitions[j, i] ==
          if i < NUM_TAGS && j < NUM_TAGS && !Allowed(TAGS[i], TAGS[j]) then PENALTY else old(transitions[j, i])
    {
      for idx := 0 to NUM_TAGS
        modifies start
        invariant forall j: nat | j < numTags ::
          start[j] == if j < idx && IsInside(TAGS[j]) then PENALTY else old(start[j])
      {
        if IsInside(TAGS[idx]) {
          start[idx] := PENALTY;
        }
      }
      for from := 0 to NUM_TAGS
        modifies transitions
        invariant forall i: nat, j: nat | i < numTags && j < numTags ::
          transitions[j, i] ==
            if i < from && j < NUM_TAGS && !Allowed(TAGS[i], TAGS[j]) then PENALTY else old(transitions[j, i])
      {
        for to := 0 to NUM_TAGS
          modifies transitions
          invariant forall i: nat, j: nat | i < numTags && j < numTags ::
            transitions[j, i] ==
              if ((i < from && j < NUM_TAGS) || (i == from && j < to)) && !Allowed(TAGS[i], TAGS[j]) then PENALTY
              else old(transitions[j, i])
        {
          if IsInside(TAGS[to]) {
            if !(TAGS[from] == "B-" + TAGS[to][2..] || TAGS[from] == "I-" + TAGS[to][2..]) {
              transitions[to, from] := PENALTY;
            }
          }
        }
      }
    }

    method ScoreSentence(em: Emissions, tags: Tagging, mask: Mask) returns (score: real)
      requires Valid() && Shaped(numTags, Parameters(), em)
      requires IsTagging(numTags, tags) && |tags| == |mask| == |em|
      requires IsMask(mask) && Ones(mask, |mask|) >= 1
      ensures score == MaskedGold(numTags, Parameters(), em, tags, mask)
    {
      score := start[tags[0]];
      score := score + em[0][tags[0]];
      for t := 1 to |em|
        invariant score == GoldTo(numTags, Parameters(), em, tags, mask, t - 1)
      {
        var emitScore := em[t][tags[t]];
        var transScore := transitions[tags[t], tags[t - 1]];
        score := score + (emitScore + transScore) * mask[t];
      }
      var ones := 0;
      for t := 0 to |mask|
        invariant ones == Ones(mask, t)
      {
        if mask[t] == 1.0 {
          ones := ones + 1;
        }
      }
      score := score + end[tags[ones - 1]];
    }

    method ForwardAlgorithm(x: ExpLog, em: Emissions, mask: Mask) returns (z: real)
      requires Valid() && Shaped(numTags, Parameters(), em) && |mask| == |em| && IsMask(mask)
      ensures z == MaskedLogPartition(x, numTags, Parameters(), em, mask)
    {
      var w := Parameters();
      var score := StartColumn(w, em);
      for t := 1 to |em|
        invariant score == MaskedAlpha(x, numTags, w, em, mask, t - 1)
      {
        var next := LseColumn(x, numTags, w, score, em[t]);
        score := Blend(next, score, mask[t]);
      }
      score := AddEnd(w, score);
      z := LogSumExp(x, score);
    }

    /** The loss of one row.  On a padded row it is the negative log-likelihood of the
        unpadded tags: never negative, and exp(-loss) is their share of the total weight of
        all tag sequences. */
    method Forward(x: ExpLog, em: Emissions, tags: Tagging, mask: Mask, ghost k: nat) returns (loss: real)
      requires Valid() && Shaped(numTags, Parameters(), em) && Laws(x)
      requires IsTagging(numTags, tags) && |tags| == |mask| == |em|
      requires PrefixMask(mask, k)
      ensures loss == LogPartition(x, numTags, Parameters(), em[..k]) - Score(numTags, Parameters(), em[..k], tags[..k])
      ensures loss >= 0.0
      ensures Times(Exp(x, loss), Exp(x, Score(numTags, Parameters(), em[..k], tags[..k])))
           == SumOverTaggings(numTags, k, ScoreMass(x, numTags, Parameters(), em[..k]))
    {
      ghost var w := Parameters();
      GoldIgnoresPadding(numTags, w, em, tags, mask, k);
      ForwardIgnoresPadding(x, numTags, w, em, mask, k);
      var goldScore := ScoreSentence(em, tags, mask);
      var forwardScore := ForwardAlgorithm(x, em, mask);
      loss := forwardScore - goldScore;
      LossIsNonNegative(x, numTags, w, em[..k], tags[..k]);
      PartitionIsSumOverTaggings(x, numTags, w, em[..k]);
      ExpOfSum(x, loss, goldScore);
    }

    /** The backtracking loop: append the best tags from the last one down, then reverse. */
    method Backtrack(history: seq<seq<nat>>, last: nat) returns (y: Tagging)
      requires IsHistory(numTags, history) && last < numTags
      ensures y == Follow(numTags, history, |history|, last)
    {
      var bestLastTag: nat := last;
      var tail: Tagging := [];
      var bestTags: Tagging := [bestLastTag];
      for m := |history| downto 0
        invariant bestTags == tail + [bestLastTag] && bestLastTag < numTags
        invariant Follow(numTags, history, m, bestLastTag) + Reverse(tail) == Follow(numTags, history, |history|, last)
      {
        tail := bestTags;
        ReverseSnoc(bestTags[..|bestTags| - 1], bestLastTag);
        bestLastTag := history[m][bestLastTag];
        bestTags := bestTags + [bestLastTag];
      }
      ReverseSnoc(tail, bestLastTag);
      y := Reverse(bestTags);
    }

    /** The decoded row; its tokens are tagged optimally if there is no padding or the weights
        are safe, and a penalised layer of tame weights tags them within the scheme in any case. */
    method Decode(em: Emissions, mask: Mask) returns (y: Tagging)
      requires Valid() && Shaped(numTags, Parameters(), em) && |mask| == |em| && IsMask(mask)
      ensures y == Decoded(numTags, Parameters(), em, mask)
      ensures DecodesOptimally(numTags, Parameters(), em, mask, y)
      ensures numTags == NUM_TAGS ==> DecodesWithinScheme(Parameters(), em, mask, y)
    {
      var w := Parameters();
      var score := StartColumn(w, em);
      var history: seq<seq<nat>> := [];
      for t := 1 to |em|
        invariant score == MaskedBest(numTags, w, em, mask, t - 1)
        invariant history == MaskedHistory(numTags, w, em, mask, t - 1)
      {
        var bestScore, bestPath := MaxColumn(numTags, w, score, em[t]), BackPointers(numTags, w, score, em[t]);
        history := history + [bestPath];
        score := Blend(bestScore, score, mask[t]);
      }
      score := AddEnd(w, score);
      y := Backtrack(history, ArgMax(score, numTags));
      DecodedIsOptimal(numTags, w, em, mask);
      if numTags == NUM_TAGS {
        DecodedIsWithinScheme(w, em, mask);
      }
    }
  }

  ghost predicate DecodesOptimally(n: nat, w: Weights, em: Emissions, mask: Mask, y: Tagging)
    requires Shaped(n, w, em) && |mask| == |em| == |y|
  {
    forall k: nat | PrefixMask(mask, k) && (k == |em| || PadSafe(n, w)) :: Optimal(n, w, em, y[..k])
  }

  ghost predicate DecodesWithinScheme(w: Weights, em: Emissions, mask: Mask, y: Tagging)
    requires Shaped(NUM_TAGS, w, em) && |mask| == |em| == |y| && IsTagging(NUM_TAGS, y)
  {
    forall k: nat | PrefixMask(mask, k) && Penalised(w) && TokensWithin(w, em, k, 2000.0) :: NamesWellFormed(y[..k])
  }

  lemma DecodedIsOptimal(n: nat, w: Weights, em: Emissions, mask: Mask)
    requires Shaped(n, w, em) && |mask| == |em|
    ensures DecodesOptimally(n, w, em, mask, Decoded(n, w, em, mask))
  {
    var y := Decoded(n, w, em, mask);
    forall k: nat | PrefixMask(mask, k) && (k == |em| || PadSafe(n, w))
      ensures Optimal(n, w, em, y[..k])
    {
      if k == |em| {
        DecodeIsOptimal(n, w, em, mask);
        assert y[..k] == y;
      } else {
        SafePaddingIsOptimal(n, w, em, mask, k);
      }
    }
  }

  lemma DecodedIsWithinScheme(w: Weights, em: Emissions, mask: Mask)
    requires Shaped(NUM_TAGS, w, em) && |mask| == |em|
    ensures DecodesWithinScheme(w, em, mask, Decoded(NUM_TAGS, w, em, mask))
  {
    forall k: nat | PrefixMask(mask, k) && Penalised(w) && TokensWithin(w, em, k, 2000.0)
      ensures NamesWellFormed(Decoded(NUM_TAGS, w, em, mask)[..k])
    {
      DecodeIsWellFormed(w, em, mask, k, 2000.0);
    }
  }

  /** Fresh parameters of the size used in training obey the penalties. */
  lemma ConstraintsPenalise(w: Weights)
    requires WeightsShaped(NUM_TAGS, w)
    requires forall j: nat | j < NUM_TAGS && IsInside(TAGS[j]) :: w.start[j] == PENALTY
    requires forall i: nat, j: nat | i < NUM_TAGS && j < NUM_TAGS && !Allowed(TAGS[i], TAGS[j]) :: w.trans[j][i] == PENALTY
    ensures Penalised(w)
  {
    forall j: nat | j < NUM_TAGS && !MayStart(j)
      ensures w.start[j] <= PENALTY
    {
      TagTable(0, j);
    }
    forall i: nat, j: nat | i < NUM_TAGS && j < NUM_TAGS && !MayFollow(i, j)
      ensures w.trans[j][i] <= PENALTY
    {
      TagTable(i, j);
    }
  }

  // ---------------------------------------------------------------- padding a batch

  const PAD_WORD: nat := 0
  const PAD_TAG: nat := 9

  datatype Item = Item(words: seq<nat>, tags: seq<nat>)

  function MaxLength(batch: seq<Item>, m: nat): nat
    requires m <= |batch|
  {
    if m == 0 then 0
    else
      var k := MaxLength(batch, m - 1);
      if |batch[m - 1].words| > k then |batch[m - 1].words| else k
  }

  lemma {:induction false} MaxLengthBounds(batch: seq<Item>, m: nat, i: nat)
    requires i < m <= |batch|
    ensures |batch[i].words| <= MaxLength(batch, m)
  {
    if i < m - 1 {
      MaxLengthBounds(batch, m - 1, i);
    }
  }

  method Collate(batch: seq<Item>) returns (wordIds: array2<nat>, tagIds: array2<nat>, lengths: seq<nat>)
    requires forall i | 0 <= i < |batch| :: |batch[i].words| == |batch[i].tags|
    ensures fresh(wordIds) && fresh(tagIds)
    ensures wordIds.Length0 == tagIds.Length0 == |lengths| == |batch|
    ensures wordIds.Length1 == tagIds.Length1 == MaxLength(batch, |batch|)
    ensures forall i: nat | i < |batch| :: lengths[i] == |batch[i].words| <= wordIds.Length1
    ensures forall i: nat, t: nat | i < |batch| && t < wordIds.Length1 ::
      && wordIds[i, t] == (if t < lengths[i] then batch[i].words[t] else PAD_WORD)
      && tagIds[i, t] == (if t < lengths[i] then batch[i].tags[t] else PAD_TAG)
    ensures forall i: nat | i < |batch| && batch[i].words != [] ::
      PrefixMask(MaskOf(WordRow(wordIds, i, wordIds.Length1)), lengths[i]) <==> PAD_WORD !in batch[i].words
  {
    var maxLen := MaxLength(batch, |batch|);
    wordIds := new nat[|batch|, maxLen]((i, t) => PAD_WORD);
    tagIds := new nat[|batch|, maxLen]((i, t) => PAD_TAG);
    lengths := [];
    for i := 0 to |batch|
      modifies wordIds, tagIds
      invariant |lengths| == i
      invariant forall r: nat | r < i :: lengths[r] == |batch[r].words| <= maxLen
      invariant forall r: nat, t: nat | r < |batch| && t < maxLen ::
        && wordIds[r, t] == (if r < i && t < |batch[r].words| then batch[r].words[t] else PAD_WORD)
        && tagIds[r, t] == (if r < i && t < |batch[r].words| then batch[r].tags[t] else PAD_TAG)
    {
      MaxLengthBounds(batch, |batch|, i);
      var length := |batch[i].words|;
      forall t | 0 <= t < length {
        wordIds[i, t] := batch[i].words[t];
      }
      forall t | 0 <= t < length {
        tagIds[i, t] := batch[i].tags[t];
      }
      lengths := lengths + [length];
    }
    forall i: nat | i < |batch| && batch[i].words != []
      ensures PrefixMask(MaskOf(WordRow(wordIds, i, maxLen)), lengths[i]) <==> PAD_WORD !in batch[i].words
    {
      MaskOfPaddedRow(batch[i].words, WordRow(wordIds, i, maxLen));
    }
  }

  /** Row i of the index tensor, up to column m. */
  function WordRow(a: array2<nat>, i: nat, m: nat): (r: seq<nat>)
    requires i < a.Length0 && m <= a.Length1
    reads a
    ensures |r| == m
    ensures forall t: nat {:trigger r[t]} | t < m :: r[t] == a[i, t]
  {
    if m == 0 then [] else WordRow(a, i, m - 1) + [a[i, m - 1]]
  }

  /** `(words != PAD_IDX).float()` for one row. */
  function MaskOf(words: seq<nat>): (mask: Mask)
    ensures |mask| == |words| && IsMask(mask)
    ensures forall t {:trigger mask[t]} | 0 <= t < |mask| :: mask[t] == if words[t] != PAD_WORD then 1.0 else 0.0
  {
    if words == [] then []
    else MaskOf(words[..|words| - 1]) + [if words[|words| - 1] != PAD_WORD then 1.0 else 0.0]
  }

  /** A padded row has the mask of its length exactly when none of its own words is the
      padding index. */
  lemma MaskOfPaddedRow(words: seq<nat>, row: seq<nat>)
    requires 1 <= |words| <= |row|
    requires forall t | 0 <= t < |row| :: row[t] == if t < |words| then words[t] else PAD_WORD
    ensures PrefixMask(MaskOf(row), |words|) <==> PAD_WORD !in words
  {
    var mask := MaskOf(row);
    if PrefixMask(mask, |words|) {
      forall t | 0 <= t < |words|
        ensures words[t] != PAD_WORD
      {
        assert mask[t] == 1.0;
        assert row[t] == words[t];
      }
    }
    if PAD_WORD !in words {
      forall t | 0 <= t < |row|
        ensures mask[t] == if t < |words| then 1.0 else 0.0
      {
        assert t < |words| ==> words[t] in words;
      }
    }
  }
}
