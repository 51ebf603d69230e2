/** Rows padded to a common length: the masked recursions of the CRF. */
module Masking {
  import opened LinearChain
  import opened Partition

  type Mask = seq<real>

  predicate IsMask(mask: Mask) {
    forall t | 0 <= t < |mask| :: mask[t] == 0.0 || mask[t] == 1.0
  }

  /** k ones followed by zeros. */
  predicate PrefixMask(mask: Mask, k: nat) {
    && 1 <= k <= |mask|
    && forall t | 0 <= t < |mask| :: mask[t] == if t < k then 1.0 else 0.0
  }

  /** `mask.sum()` over the first m positions. */
  function Ones(mask: Mask, m: nat): (c: nat)
    requires m <= |mask|
    ensures c <= m
  {
    if m == 0 then 0 else Ones(mask, m - 1) + (if mask[m - 1] == 1.0 then 1 else 0)
  }

  lemma {:induction false} OnesOfPrefixMask(mask: Mask, k: nat, m: nat)
    requires PrefixMask(mask, k) && m <= |mask|
    ensures Ones(mask, m) == if m < k then m else k
  {
    if m > 0 {
      OnesOfPrefixMask(mask, k, m - 1);
    }
  }

  function BlendTo(next: seq<real>, old_: seq<real>, b: real, m: nat): (c: seq<real>)
    requires |next| == |old_| && m <= |old_|
    ensures |c| == m
  {
    if m == 0 then []
    else BlendTo(next, old_, b, m - 1) + [next[m - 1] * b + old_[m - 1] * (1.0 - b)]
  }

  lemma {:induction false} BlendToCell(next: seq<real>, old_: seq<real>, b: real, m: nat, j: nat)
    requires |next| == |old_| && j < m <= |old_|
    ensures b == 1.0 ==> BlendTo(next, old_, b, m)[j] == next[j]
    ensures b == 0.0 ==> BlendTo(next, old_, b, m)[j] == old_[j]
  {
    if j < m - 1 {
      BlendToCell(next, old_, b, m - 1, j);
    }
  }

  /** `next * mask + score * (1 - mask)`. */
  function Blend(next: seq<real>, old_: seq<real>, b: real): (c: seq<real>)
    requires |next| == |old_|
    ensures |c| == |old_|
  {
    BlendTo(next, old_, b, |old_|)
  }

  lemma BlendChooses(next: seq<real>, old_: seq<real>, b: real)
    requires |next| == |old_|
    ensures b == 1.0 ==> Blend(next, old_, b) == next
    ensures b == 0.0 ==> Blend(next, old_, b) == old_
  {
    forall j: nat | j < |old_|
      ensures b == 1.0 ==> Blend(next, old_, b)[j] == next[j]
      ensures b == 0.0 ==> Blend(next, old_, b)[j] == old_[j]
    {
      BlendToCell(next, old_, b, |old_|, j);
    }
  }

  // -------------------------------------------------------- the masked recursions

  function GoldTo(n: nat, w: Weights, em: Emissions, tags: Tagging, mask: Mask, t: nat): real
    requires Shaped(n, w, em) && IsTagging(n, tags) && |tags| == |mask| == |em| && t < |em|
  {
    if t == 0 then w.start[tags[0]] + em[0][tags[0]]
    else GoldTo(n, w, em, tags, mask, t - 1) + (em[t][tags[t]] + w.trans[tags[t]][tags[t - 1]]) * mask[t]
  }

  /** The gold score of a row under any mask with at least one token. */
  function MaskedGold(n: nat, w: Weights, em: Emissions, tags: Tagging, mask: Mask): real
    requires Shaped(n, w, em) && IsTagging(n, tags) && |tags| == |mask| == |em|
    requires Ones(mask, |mask|) >= 1
  {
    GoldTo(n, w, em, tags, mask, |em| - 1) + w.end[tags[Ones(mask, |mask|) - 1]]
  }

  function MaskedAlpha(x: ExpLog, n: nat, w: Weights, em: Emissions, mask: Mask, t: nat): (c: seq<real>)
    requires Shaped(n, w, em) && |mask| == |em| && t < |em|
    ensures |c| == n
  {
    if t == 0 then StartColumn(w, em)
    else
      var p := MaskedAlpha(x, n, w, em, mask, t - 1);
      Blend(LseColumn(x, n, w, p, em[t]), p, mask[t])
  }

  function MaskedLogPartition(x: ExpLog, n: nat, w: Weights, em: Emissions, mask: Mask): real
    requires Shaped(n, w, em) && |mask| == |em|
  {
    LogSumExp(x, AddEnd(w, MaskedAlpha(x, n, w, em, mask, |em| - 1)))
  }

  function MaskedBest(n: nat, w: Weights, em: Emissions, mask: Mask, t: nat): (c: seq<real>)
    requires Shaped(n, w, em) && |mask| == |em| && t < |em|
    ensures |c| == n
  {
    if t == 0 then StartColumn(w, em)
    else
      var p := MaskedBest(n, w, em, mask, t - 1);
      Blend(MaxColumn(n, w, p, em[t]), p, mask[t])
  }

  /** The back-pointers are recorded whatever the mask says. */
  function MaskedHistory(n: nat, w: Weights, em: Emissions, mask: Mask, t: nat): (hist: seq<seq<nat>>)
    requires Shaped(n, w, em) && |mask| == |em| && t < |em|
    ensures |hist| == t && IsHistory(n, hist)
  {
    if t == 0 then []
    else MaskedHistory(n, w, em, mask, t - 1) + [BackPointers(n, w, MaskedBest(n, w, em, mask, t - 1), em[t])]
  }

  function LastTag(n: nat, w: Weights, em: Emissions, mask: Mask): (j: nat)
    requires Shaped(n, w, em) && |mask| == |em|
    ensures j < n
  {
    ArgMax(AddEnd(w, MaskedBest(n, w, em, mask, |em| - 1)), n)
  }

  function Decoded(n: nat, w: Weights, em: Emissions, mask: Mask): (y: Tagging)
    requires Shaped(n, w, em) && |mask| == |em|
    ensures |y| == |em| && IsTagging(n, y)
  {
    Follow(n, MaskedHistory(n, w, em, mask, |em| - 1), |em| - 1, LastTag(n, w, em, mask))
  }

  // ------------------------------------------------------------ padding invariance

  function Min(a: nat, b: nat): nat { if a < b then a else b }

  lemma {:induction false} GoldStops(n: nat, w: Weights, em: Emissions, tags: Tagging, mask: Mask, k: nat, t: nat)
    requires Shaped(n, w, em) && IsTagging(n, tags) && |tags| == |mask| == |em| && t < |em|
    requires PrefixMask(mask, k)
    ensures GoldTo(n, w, em, tags, mask, t) == PrefixScore(n, w, em, tags, Min(t, k - 1))
  {
    if t > 0 {
      GoldStops(n, w, em, tags, mask, k, t - 1);
    }
  }

  /** The gold score of a padded row is that of the row cut to its tokens, whatever the
      padded tags and emissions are. */
  lemma GoldIgnoresPadding(n: nat, w: Weights, em: Emissions, tags: Tagging, mask: Mask, k: nat)
    requires Shaped(n, w, em) && IsTagging(n, tags) && |tags| == |mask| == |em|
    requires PrefixMask(mask, k)
    ensures Ones(mask, |mask|) == k
    ensures MaskedGold(n, w, em, tags, mask) == Score(n, w, em[..k], tags[..k])
  {
    OnesOfPrefixMask(mask, k, |mask|);
    GoldStops(n, w, em, tags, mask, k, |em| - 1);
    PrefixScoreLocal(n, w, em, em[..k], tags, tags[..k], k - 1);
  }

  lemma {:induction false} AlphaLocal(x: ExpLog, n: nat, w: Weights, em: Emissions, k: nat, t: nat)
    requires Shaped(n, w, em) && t < k <= |em|
    ensures Alpha(x, n, w, em, t) == Alpha(x, n, w, em[..k], t)
  {
    if t > 0 {
      AlphaLocal(x, n, w, em, k, t - 1);
    }
  }

  lemma {:induction false} AlphaStops(x: ExpLog, n: nat, w: Weights, em: Emissions, mask: Mask, k: nat, t: nat)
    requires Shaped(n, w, em) && |mask| == |em| && t < |em| && PrefixMask(mask, k)
    ensures MaskedAlpha(x, n, w, em, mask, t) == Alpha(x, n, w, em, Min(t, k - 1))
  {
    if t > 0 {
      AlphaStops(x, n, w, em, mask, k, t - 1);
      var p := MaskedAlpha(x, n, w, em, mask, t - 1);
      BlendChooses(LseColumn(x, n, w, p, em[t]), p, mask[t]);
    }
  }

  /** The forward score of a padded row is that of the row cut to its tokens. */
  lemma ForwardIgnoresPadding(x: ExpLog, n: nat, w: Weights, em: Emissions, mask: Mask, k: nat)
    requires Shaped(n, w, em) && |mask| == |em| && PrefixMask(mask, k)
    ensures MaskedLogPartition(x, n, w, em, mask) == LogPartition(x, n, w, em[..k])
  {
    AlphaStops(x, n, w, em, mask, k, |em| - 1);
    AlphaLocal(x, n, w, em, k, k - 1);
  }

  // ---------------------------------------------------------------- decoding

  lemma {:induction false} BestStops(n: nat, w: Weights, em: Emissions, mask: Mask, k: nat, t: nat)
    requires Shaped(n, w, em) && |mask| == |em| && t < |em| && PrefixMask(mask, k)
    ensures MaskedBest(n, w, em, mask, t) == Best(n, w, em, Min(t, k - 1))
  {
    if t > 0 {
      BestStops(n, w, em, mask, k, t - 1);
      var p := MaskedBest(n, w, em, mask, t - 1);
      BlendChooses(MaxColumn(n, w, p, em[t]), p, mask[t]);
    }
  }

  lemma {:induction false} HistoryOnTokens(n: nat, w: Weights, em: Emissions, mask: Mask, k: nat, t: nat, s: nat)
    requires Shaped(n, w, em) && |mask| == |em| && PrefixMask(mask, k) && s < t < |em|
    ensures MaskedHistory(n, w, em, mask, t)[s]
         == BackPointers(n, w, Best(n, w, em, Min(s, k - 1)), em[s + 1])
  {
    if s == t - 1 {
      BestStops(n, w, em, mask, k, s);
    } else {
      HistoryOnTokens(n, w, em, mask, k, t - 1, s);
    }
  }

  /** The predecessor the padded steps pick for tag j: the emission does not matter. */
  function PadStep(n: nat, w: Weights, score: seq<real>, j: nat): (i: nat)
    requires WeightsShaped(n, w) && |score| == n && j < n
    ensures i < n
  {
    ArgBest(score, w.trans[j], 0.0, n)
  }

  /** The tag reached from j after m padded positions have been walked back over. */
  function PadWalk(n: nat, w: Weights, score: seq<real>, m: nat, j: nat): (i: nat)
    requires WeightsShaped(n, w) && |score| == n && j < n
    ensures i < n
  {
    if m == 0 then j else PadWalk(n, w, score, m - 1, PadStep(n, w, score, j))
  }

  lemma {:induction false} ArgBestIgnoresEmission(score: seq<real>, row: seq<real>, e: real, m: nat)
    requires |score| == |row| && 1 <= m <= |row|
    ensures ArgBest(score, row, e, m) == ArgBest(score, row, 0.0, m)
  {
    if m > 1 {
      ArgBestIgnoresEmission(score, row, e, m - 1);
    }
  }

  /** From entry a on, a history holds nothing but padded steps. */
  predicate PadsFrom(n: nat, w: Weights, score: seq<real>, hist: seq<seq<nat>>, a: nat)
    requires WeightsShaped(n, w) && |score| == n && IsHistory(n, hist)
  {
    forall s: nat, j: nat {:trigger hist[s][j]} | a <= s < |hist| && j < n :: hist[s][j] == PadStep(n, w, score, j)
  }

  lemma HistoryPads(n: nat, w: Weights, em: Emissions, mask: Mask, k: nat)
    requires Shaped(n, w, em) && |mask| == |em| && PrefixMask(mask, k)
    ensures PadsFrom(n, w, Best(n, w, em, k - 1), MaskedHistory(n, w, em, mask, |em| - 1), k - 1)
  {
    var hist, score := MaskedHistory(n, w, em, mask, |em| - 1), Best(n, w, em, k - 1);
    forall s: nat, j: nat | k - 1 <= s < |hist| && j < n
      ensures hist[s][j] == PadStep(n, w, score, j)
    {
      HistoryOnTokens(n, w, em, mask, k, |em| - 1, s);
      ColumnCell(n, w, score, em[s + 1], n, j);
      ArgBestIgnoresEmission(score, w.trans[j], em[s + 1][j], n);
    }
  }

  lemma {:induction false} FollowOverPadding(n: nat, w: Weights, score: seq<real>, hist: seq<seq<nat>>, a: nat, p: nat, j: nat)
    requires WeightsShaped(n, w) && |score| == n && IsHistory(n, hist) && PadsFrom(n, w, score, hist, a)
    requires a + p <= |hist| && j < n
    ensures Follow(n, hist, a + p, j)[..a + 1] == Follow(n, hist, a, PadWalk(n, w, score, p, j))
  {
    var y := Follow(n, hist, a + p, j);
    if p == 0 {
      assert y[..a + 1] == y;
    } else {
      var i := PadStep(n, w, score, j);
      assert hist[a + p - 1][j] == i;
      FollowOverPadding(n, w, score, hist, a, p - 1, i);
      assert y == Follow(n, hist, a + p - 1, i) + [j];
    }
  }

  /** On the tokens the history of a padded row is that of the row itself. */
  lemma TokenPart(n: nat, w: Weights, em: Emissions, mask: Mask, k: nat, q: nat)
    requires Shaped(n, w, em) && |mask| == |em| && PrefixMask(mask, k) && q < n
    ensures Follow(n, MaskedHistory(n, w, em, mask, |em| - 1), k - 1, q) == BestPath(n, w, em, k - 1, q)
  {
    var hist := MaskedHistory(n, w, em, mask, |em| - 1);
    forall s: nat | s < k - 1
      ensures hist[s] == History(n, w, em, k - 1)[s]
    {
      HistoryOnTokens(n, w, em, mask, k, |em| - 1, s);
      HistoryCell(n, w, em, k - 1, s);
    }
    FollowLocal(n, hist, History(n, w, em, k - 1), k - 1, q);
  }

  /** The tag of the last token in the decoded row: where the walk over the padding leads. */
  function TokenEnd(n: nat, w: Weights, em: Emissions, mask: Mask, k: nat): (q: nat)
    requires Shaped(n, w, em) && |mask| == |em| && PrefixMask(mask, k)
    ensures q < n
  {
    PadWalk(n, w, Best(n, w, em, k - 1), |em| - k, LastTag(n, w, em, mask))
  }

  lemma DecodedTokens(n: nat, w: Weights, em: Emissions, mask: Mask, k: nat)
    requires Shaped(n, w, em) && |mask| == |em| && PrefixMask(mask, k)
    ensures Decoded(n, w, em, mask)[..k] == BestPath(n, w, em, k - 1, TokenEnd(n, w, em, mask, k))
  {
    HistoryPads(n, w, em, mask, k);
    FollowOverPadding(n, w, Best(n, w, em, k - 1), MaskedHistory(n, w, em, mask, |em| - 1), k - 1, |em| - k, LastTag(n, w, em, mask));
    TokenPart(n, w, em, mask, k, TokenEnd(n, w, em, mask, k));
  }

  /** Decoding a padded row: its token part is the best sequence among those that end in
      the tag to which the walk over the padding leads, so it is a maximal sequence exactly
      when that tag itself maximises the final scores. */
  lemma DecodePadded(n: nat, w: Weights, em: Emissions, mask: Mask, k: nat)
    requires Shaped(n, w, em) && |mask| == |em| && PrefixMask(mask, k)
    ensures var q, c := TokenEnd(n, w, em, mask, k), AddEnd(w, Best(n, w, em, k - 1));
            && Decoded(n, w, em, mask)[..k] == BestPath(n, w, em, k - 1, q)
            && (Optimal(n, w, em, Decoded(n, w, em, mask)[..k]) <==> forall j | 0 <= j < n :: c[j] <= c[q])
  {
    DecodedTokens(n, w, em, mask, k);
    OptimalIffLastTag(n, w, em, k - 1, TokenEnd(n, w, em, mask, k));
  }

  /** Without padding the decoded sequence is one that no other tag sequence beats. */
  lemma DecodeIsOptimal(n: nat, w: Weights, em: Emissions, mask: Mask)
    requires Shaped(n, w, em) && |mask| == |em| && PrefixMask(mask, |em|)
    ensures Optimal(n, w, em, Decoded(n, w, em, mask))
  {
    DecodePadded(n, w, em, mask, |em|);
    LastTagIsTop(n, w, em, mask, |em|);
    var y := Decoded(n, w, em, mask);
    assert y[..|em|] == y;
  }

  // ---------------------------------------------------------------- when padding is harmless

  /** For every tag, staying in it costs the least against stepping to it from a tag whose
      end weight one would have had. */
  predicate PadSafe(n: nat, w: Weights)
    requires WeightsShaped(n, w)
  {
    forall i: nat, j: nat | i < n && j < n :: w.trans[j][i] - w.end[i] <= w.trans[j][j] - w.end[j]
  }

  predicate IsTop(c: seq<real>, q: nat) {
    q < |c| && forall j | 0 <= j < |c| :: c[j] <= c[q]
  }

  /** Under safe weights a padded step goes from a best final tag to a best final tag. */
  lemma PadStepKeepsTop(n: nat, w: Weights, score: seq<real>, j: nat)
    requires WeightsShaped(n, w) && |score| == n && PadSafe(n, w) && IsTop(AddEnd(w, score), j)
    ensures IsTop(AddEnd(w, score), PadStep(n, w, score, j))
  {
    var c, i := AddEnd(w, score), PadStep(n, w, score, j);
    ArgBestIsMax(score, w.trans[j], 0.0, n, j);
    assert c[i] == score[i] + w.end[i] && c[j] == score[j] + w.end[j];
    assert w.trans[j][i] - w.end[i] <= w.trans[j][j] - w.end[j];
    assert c[j] <= c[i];
  }

  lemma {:induction false} PadWalkKeepsTop(n: nat, w: Weights, score: seq<real>, p: nat, j: nat)
    requires WeightsShaped(n, w) && |score| == n && PadSafe(n, w) && IsTop(AddEnd(w, score), j)
    ensures IsTop(AddEnd(w, score), PadWalk(n, w, score, p, j))
  {
    if p > 0 {
      PadStepKeepsTop(n, w, score, j);
      PadWalkKeepsTop(n, w, score, p - 1, PadStep(n, w, score, j));
    }
  }

  lemma LastTagIsTop(n: nat, w: Weights, em: Emissions, mask: Mask, k: nat)
    requires Shaped(n, w, em) && |mask| == |em| && PrefixMask(mask, k)
    ensures IsTop(AddEnd(w, Best(n, w, em, k - 1)), LastTag(n, w, em, mask))
  {
    var c := AddEnd(w, Best(n, w, em, k - 1));
    BestStops(n, w, em, mask, k, |em| - 1);
    forall j: nat | j < n
      ensures c[j] <= c[LastTag(n, w, em, mask)]
    {
      ArgMaxIsMax(c, n, j);
    }
  }

  lemma SafePaddingIsOptimal(n: nat, w: Weights, em: Emissions, mask: Mask, k: nat)
    requires Shaped(n, w, em) && |mask| == |em| && PrefixMask(mask, k) && PadSafe(n, w)
    ensures Optimal(n, w, em, Decoded(n, w, em, mask)[..k])
  {
    LastTagIsTop(n, w, em, mask, k);
    PadWalkKeepsTop(n, w, Best(n, w, em, k - 1), |em| - k, LastTag(n, w, em, mask));
    DecodePadded(n, w, em, mask, k);
  }

  /** Emissions that undo the start and end weights, with a bonus d for tag j. */
  function Undo(w: Weights, j: nat, d: real, m: nat): (r: seq<real>)
    requires m <= |w.start| == |w.end|
    ensures |r| == m
    ensures forall q: nat {:trigger r[q]} | q < m :: r[q] == (if q == j then d else 0.0) - w.start[q] - w.end[q]
  {
    if m == 0 then [] else Undo(w, j, d, m - 1) + [(if m - 1 == j then d else 0.0) - w.start[m - 1] - w.end[m - 1]]
  }

  /** Tag j alone has the best final score, by d over tag i and more over no other. */
  predicate Leads(c: seq<real>, i: nat, j: nat, d: real) {
    i < |c| && j < |c| && i != j && d > 0.0 && c[j] == d && c[i] == 0.0 && forall q: nat | q < |c| && q != j :: c[q] <= 0.0
  }

  lemma OnlyTop(c: seq<real>, last: nat, i: nat, j: nat, d: real)
    requires IsTop(c, last) && Leads(c, i, j, d)
    ensures last == j
  {
    assert c[j] <= c[last];
  }

  /** A padded step that leaves the only best final tag. */
  lemma PadStepLeaves(n: nat, w: Weights, score: seq<real>, i: nat, j: nat, d: real)
    requires WeightsShaped(n, w) && |score| == n && Leads(AddEnd(w, score), i, j, d)
    requires d < (w.trans[j][i] - w.end[i]) - (w.trans[j][j] - w.end[j])
    ensures PadStep(n, w, score, j) != j
  {
    var c := AddEnd(w, score);
    ArgBestIsMax(score, w.trans[j], 0.0, n, i);
    assert c[i] == score[i] + w.end[i] && c[j] == score[j] + w.end[j];
  }

  /** One token whose best tag the padded position after it gives up. */
  lemma LeavingFails(n: nat, w: Weights, em: Emissions, i: nat, j: nat, d: real)
    requires Shaped(n, w, em) && |em| == 2 && Leads(AddEnd(w, Best(n, w, em, 0)), i, j, d)
    requires d < (w.trans[j][i] - w.end[i]) - (w.trans[j][j] - w.end[j])
    ensures PrefixMask([1.0, 0.0], 1) && !Optimal(n, w, em, Decoded(n, w, em, [1.0, 0.0])[..1])
  {
    var mask, score := [1.0, 0.0], Best(n, w, em, 0);
    LastTagIsTop(n, w, em, mask, 1);
    OnlyTop(AddEnd(w, score), LastTag(n, w, em, mask), i, j, d);
    PadStepLeaves(n, w, score, i, j, d);
    PadWalkOnce(n, w, score, j);
    DecodePadded(n, w, em, mask, 1);
    var c, q := AddEnd(w, score), PadStep(n, w, score, j);
    assert TokenEnd(n, w, em, mask, 1) == q;
    assert c[q] < c[j];
  }

  /** Where the weights are not safe, one token and one padded position go wrong. */
  lemma UnsafePaddingFails(n: nat, w: Weights, i: nat, j: nat) returns (em: Emissions)
    requires WeightsShaped(n, w) && i < n && j < n
    requires w.trans[j][i] - w.end[i] > w.trans[j][j] - w.end[j]
    ensures |em| == 2 && Shaped(n, w, em) && PrefixMask([1.0, 0.0], 1)
    ensures !Optimal(n, w, em, Decoded(n, w, em, [1.0, 0.0])[..1])
  {
    var d := ((w.trans[j][i] - w.end[i]) - (w.trans[j][j] - w.end[j])) / 2.0;
    em := [Undo(w, j, d, n), Undo(w, j, d, n)];
    LeavingFails(n, w, em, i, j, d);
  }

  lemma PadWalkOnce(n: nat, w: Weights, score: seq<real>, j: nat)
    requires WeightsShaped(n, w) && |score| == n && j < n
    ensures PadWalk(n, w, score, 1, j) == PadStep(n, w, score, j)
  {
    assert PadWalk(n, w, score, 0, PadStep(n, w, score, j)) == PadStep(n, w, score, j);
  }

  /** Decoding the tokens of padded rows is optimal, for every row and every padding, exactly
      when the weights are safe. */
  lemma PaddedDecodeIsOptimalIff(n: nat, w: Weights)
    requires WeightsShaped(n, w)
    ensures PadSafe(n, w) <==>
      forall em: Emissions, mask: Mask, k: nat | Shaped(n, w, em) && |mask| == |em| && PrefixMask(mask, k) ::
        Optimal(n, w, em, Decoded(n, w, em, mask)[..k])
  {
    if PadSafe(n, w) {
      forall em: Emissions, mask: Mask, k: nat | Shaped(n, w, em) && |mask| == |em| && PrefixMask(mask, k)
        ensures Optimal(n, w, em, Decoded(n, w, em, mask)[..k])
      {
        SafePaddingIsOptimal(n, w, em, mask, k);
      }
    } else {
      var i: nat, j: nat :| i < n && j < n && !(w.trans[j][i] - w.end[i] <= w.trans[j][j] - w.end[j]);
      var em := UnsafePaddingFails(n, w, i, j);
    }
  }

  /** On an unpadded row the decoder takes the first of tied tags. */
  lemma DecodeTakesFirst(n: nat, w: Weights, em: Emissions, mask: Mask, z: Tagging, p: nat)
    requires Shaped(n, w, em) && |mask| == |em| && PrefixMask(mask, |em|) && IsTagging(n, z)
    requires DifferAt(Decoded(n, w, em, mask), z, p) && z[p] < Decoded(n, w, em, mask)[p]
    ensures Score(n, w, em, z) < Score(n, w, em, Decoded(n, w, em, mask))
  {
    UnpaddedDecode(n, w, em, mask);
    EarlierTagLoses(n, w, em, |em| - 1, z, p);
  }

  lemma UnpaddedDecode(n: nat, w: Weights, em: Emissions, mask: Mask)
    requires Shaped(n, w, em) && |mask| == |em| && PrefixMask(mask, |em|)
    ensures Decoded(n, w, em, mask) == BestPath(n, w, em, |em| - 1, ArgMax(AddEnd(w, Best(n, w, em, |em| - 1)), n))
  {
    DecodedTokens(n, w, em, mask, |em|);
    BestStops(n, w, em, mask, |em|, |em| - 1);
    var y := Decoded(n, w, em, mask);
    assert y[..|em|] == y;
  }
}
