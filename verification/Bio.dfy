/** The BIO tags of the CRF, their penalties, and what these force. */
module Bio {
  import opened LinearChain
  import opened Masking

  const TAGS: seq<string> := [
    "O", "B-PER", "I-PER", "B-ORG", "I-ORG", "B-LOC", "I-LOC", "B-MISC", "I-MISC", "<PAD>", "<START>", "<END>"]
  const NUM_TAGS: nat := 12
  const PENALTY: real := -10000.0

  predicate IsInside(tag: string) { "I-" <= tag }

  /** An I- tag must follow the B- or I- tag of its own type. */
  predicate Allowed(from: string, to: string) {
    IsInside(to) ==> from == "B-" + to[2..] || from == "I-" + to[2..]
  }

  /** The positions of the I- tags; each comes right after the B- tag of its type. */
  predicate MayStart(j: nat) {
    !(j == 2 || j == 4 || j == 6 || j == 8)
  }

  predicate MayFollow(i: nat, j: nat) {
    MayStart(j) || i == j || i == j - 1
  }

  lemma TagTable(i: nat, j: nat)
    requires i < NUM_TAGS && j < NUM_TAGS
    ensures MayStart(j) <==> !IsInside(TAGS[j])
    ensures MayFollow(i, j) <==> Allowed(TAGS[i], TAGS[j])
  {
    assert "O"[0] != 'I' && "<PAD>"[0] != 'I' && "<START>"[0] != 'I' && "<END>"[0] != 'I';
    assert "B-PER"[0] != 'I' && "B-ORG"[0] != 'I' && "B-LOC"[0] != 'I' && "B-MISC"[0] != 'I';
    assert "I-" <= "I-PER" && "I-" <= "I-ORG" && "I-" <= "I-LOC" && "I-" <= "I-MISC";
    assert "I-PER"[2..] == "PER" && "I-ORG"[2..] == "ORG" && "I-LOC"[2..] == "LOC" && "I-MISC"[2..] == "MISC";
    assert "B-" + "PER" == "B-PER" && "I-" + "PER" == "I-PER";
    assert "B-" + "ORG" == "B-ORG" && "I-" + "ORG" == "I-ORG";
    assert "B-" + "LOC" == "B-LOC" && "I-" + "LOC" == "I-LOC";
    assert "B-" + "MISC" == "B-MISC" && "I-" + "MISC" == "I-MISC";
    if !MayStart(j) {
      assert |TAGS[i]| >= 3 && |TAGS[j]| >= 3 ==> (TAGS[i] == TAGS[j] <==> i == j) && (TAGS[i][2] == TAGS[j][2] <==> i == j || i == j - 1);
    }
  }

  predicate BadAt(y: Tagging, t: nat)
    requires IsTagging(NUM_TAGS, y) && t < |y|
  {
    if t == 0 then !MayStart(y[0]) else !MayFollow(y[t - 1], y[t])
  }

  predicate WellFormed(y: Tagging)
    requires IsTagging(NUM_TAGS, y)
  {
    forall t: nat | t < |y| :: !BadAt(y, t)
  }

  /** The forbidden starts and steps weigh at most the penalty. */
  predicate Penalised(w: Weights)
    requires WeightsShaped(NUM_TAGS, w)
  {
    && (forall j: nat | j < NUM_TAGS && !MayStart(j) :: w.start[j] <= PENALTY)
    && (forall i: nat, j: nat | i < NUM_TAGS && j < NUM_TAGS && !MayFollow(i, j) :: w.trans[j][i] <= PENALTY)
  }

  predicate StepsWithin(w: Weights, b: real)
    requires WeightsShaped(NUM_TAGS, w)
  {
    && (forall j: nat | j < NUM_TAGS && MayStart(j) :: -b <= w.start[j] <= b)
    && (forall i: nat, j: nat | i < NUM_TAGS && j < NUM_TAGS && MayFollow(i, j) :: -b <= w.trans[j][i] <= b)
  }

  /** Every weight that is not penalised, and the emissions of the first k positions, lie in
      [-b, b]. */
  predicate TokensWithin(w: Weights, em: Emissions, k: nat, b: real)
    requires Shaped(NUM_TAGS, w, em) && k <= |em|
  {
    && StepsWithin(w, b)
    && (forall j: nat | j < NUM_TAGS :: -b <= w.end[j] <= b)
    && (forall t: nat, j: nat | t < k && j < NUM_TAGS :: -b <= em[t][j] <= b)
  }

  predicate Within(w: Weights, em: Emissions, b: real)
    requires Shaped(NUM_TAGS, w, em)
  {
    TokensWithin(w, em, |em|, b)
  }

  /** What position t adds to the score, given the tag before it. */
  function Local(w: Weights, em: Emissions, y: Tagging, t: nat): real
    requires Shaped(NUM_TAGS, w, em) && IsTagging(NUM_TAGS, y) && t < |y| <= |em|
  {
    if t == 0 then w.start[y[0]] + em[0][y[0]] else em[t][y[t]] + w.trans[y[t]][y[t - 1]]
  }

  /** Changing one tag changes the score by its own term and the next one. */
  lemma {:induction false} ScoreOfChange(w: Weights, em: Emissions, y: Tagging, z: Tagging, p: nat, t: nat)
    requires Shaped(NUM_TAGS, w, em) && IsTagging(NUM_TAGS, y) && IsTagging(NUM_TAGS, z)
    requires p <= t < |y| <= |em| && DifferAt(y, z, p)
    ensures PrefixScore(NUM_TAGS, w, em, z, t) - PrefixScore(NUM_TAGS, w, em, y, t)
         == Local(w, em, z, p) - Local(w, em, y, p)
            + (if t > p then Local(w, em, z, p + 1) - Local(w, em, y, p + 1) else 0.0)
  {
    if t == p {
      if p > 0 {
        PrefixScoreLocal(NUM_TAGS, w, em, em, y, z, p - 1);
      }
    } else {
      ScoreOfChange(w, em, y, z, p, t - 1);
    }
  }

  /** BIO well-formedness on the tag names: no I- first, and every I- after its own type. */
  predicate NamesWellFormed(y: Tagging)
    requires IsTagging(NUM_TAGS, y)
  {
    && (|y| >= 1 ==> !IsInside(TAGS[y[0]]))
    && forall t: nat | 1 <= t < |y| :: Allowed(TAGS[y[t - 1]], TAGS[y[t]])
  }

  lemma WellFormedByName(y: Tagging)
    requires IsTagging(NUM_TAGS, y)
    ensures WellFormed(y) <==> NamesWellFormed(y)
  {
    if |y| >= 1 {
      TagTable(0, y[0]);
    }
    forall t: nat | 1 <= t < |y|
      ensures MayFollow(y[t - 1], y[t]) <==> Allowed(TAGS[y[t - 1]], TAGS[y[t]])
    {
      TagTable(y[t - 1], y[t]);
    }
    if NamesWellFormed(y) {
      forall t: nat | t < |y|
        ensures !BadAt(y, t)
      {
        assert t >= 1 ==> Allowed(TAGS[y[t - 1]], TAGS[y[t]]);
      }
    } else if |y| >= 1 && !IsInside(TAGS[y[0]]) {
      var t: nat :| 1 <= t < |y| && !Allowed(TAGS[y[t - 1]], TAGS[y[t]]);
      assert BadAt(y, t);
    } else {
      assert BadAt(y, 0);
    }
  }

  lemma {:induction false} LastBad(y: Tagging, m: nat) returns (t: nat)
    requires IsTagging(NUM_TAGS, y) && m <= |y|
    requires exists k: nat :: k < m && BadAt(y, k)
    ensures t < m && BadAt(y, t)
    ensures forall k: nat | t < k < m :: !BadAt(y, k)
  {
    t := m - 1;
    if !BadAt(y, m - 1) {
      t := LastBad(y, m - 1);
    }
  }

  /** Repairing the last forbidden tag, before any end weight is added. */
  lemma RepairPrefix(w: Weights, em: Emissions, b: real, y: Tagging, p: nat) returns (z: Tagging)
    requires Shaped(NUM_TAGS, w, em) && IsTagging(NUM_TAGS, y) && p < |y| <= |em|
    requires Penalised(w) && TokensWithin(w, em, |y|, b)
    requires BadAt(y, p) && forall k: nat | p < k < |y| :: !BadAt(y, k)
    ensures IsTagging(NUM_TAGS, z) && DifferAt(y, z, p) && z[p] == y[p] - 1
    ensures PrefixScore(NUM_TAGS, w, em, z, |y| - 1)
         >= PrefixScore(NUM_TAGS, w, em, y, |y| - 1) + 10000.0 - (if p + 1 < |y| then 5.0 else 3.0) * b
  {
    z := y[p := y[p] - 1];
    assert Local(w, em, y, p) <= PENALTY + b;
    assert Local(w, em, z, p) >= -b - b;
    if p + 1 < |y| {
      assert !BadAt(y, p + 1);
      assert Local(w, em, z, p + 1) - Local(w, em, y, p + 1) >= -b - b;
    }
    ScoreOfChange(w, em, y, z, p, |y| - 1);
  }

  /** The tag sequence with its last forbidden I- tag turned into the B- tag of its type. */
  lemma Repair(w: Weights, em: Emissions, b: real, y: Tagging, p: nat) returns (z: Tagging)
    requires Shaped(NUM_TAGS, w, em) && IsTagging(NUM_TAGS, y) && p < |y| <= |em|
    requires Penalised(w) && TokensWithin(w, em, |y|, b)
    requires BadAt(y, p) && forall k: nat | p < k < |y| :: !BadAt(y, k)
    ensures IsTagging(NUM_TAGS, z) && DifferAt(y, z, p) && z[p] < y[p]
    ensures Score(NUM_TAGS, w, em, z) >= Score(NUM_TAGS, w, em, y) + 10000.0 - 5.0 * b
  {
    z := RepairPrefix(w, em, b, y, p);
  }

  /** The repair raises the score by at least 10000 - 5b, so no maximal sequence needs one:
      for a bound b below 2000 on the free weights, and rows of every length. */
  lemma OptimalIsWellFormed(w: Weights, em: Emissions, b: real, y: Tagging)
    requires Shaped(NUM_TAGS, w, em) && Penalised(w) && Within(w, em, b) && b < 2000.0
    requires Optimal(NUM_TAGS, w, em, y)
    ensures WellFormed(y)
  {
    if !WellFormed(y) {
      var p := LastBad(y, |y|);
      var z := Repair(w, em, b, y, p);
    }
  }

  // ---------------------------------------------------------------- the decoder

  /** If q is an I- tag, its score is within 2b of every other, and above that of its B- tag
      less 2b. */
  predicate Holds(score: seq<real>, b: real, q: nat)
    requires |score| == NUM_TAGS && q < NUM_TAGS
  {
    !MayStart(q) ==> score[q - 1] - 2.0 * b < score[q] && forall i: nat | i < NUM_TAGS :: score[i] - 2.0 * b <= score[q]
  }

  /** A first best tag, after terms within b have been added, holds. */
  lemma FirstBestHolds(score: seq<real>, b: real, q: nat, add: seq<real>)
    requires |score| == |add| == NUM_TAGS && q < NUM_TAGS
    requires forall i: nat | i < NUM_TAGS :: -b <= add[i] <= b
    requires forall i: nat | i < NUM_TAGS :: score[i] + add[i] <= score[q] + add[q]
    requires forall i: nat | i < q :: score[i] + add[i] < score[q] + add[q]
    ensures Holds(score, b, q)
  {
  }

  lemma LastTagHolds(w: Weights, em: Emissions, mask: Mask, k: nat, b: real)
    requires Shaped(NUM_TAGS, w, em) && |mask| == |em| && PrefixMask(mask, k) && TokensWithin(w, em, k, b)
    ensures Holds(Best(NUM_TAGS, w, em, k - 1), b, LastTag(NUM_TAGS, w, em, mask))
  {
    BestStops(NUM_TAGS, w, em, mask, k, |em| - 1);
    FirstFinalHolds(w, Best(NUM_TAGS, w, em, k - 1), b);
  }

  lemma FirstFinalHolds(w: Weights, score: seq<real>, b: real)
    requires WeightsShaped(NUM_TAGS, w) && |score| == NUM_TAGS && forall j: nat | j < NUM_TAGS :: -b <= w.end[j] <= b
    ensures Holds(score, b, ArgMax(AddEnd(w, score), NUM_TAGS))
  {
    var q := ArgMax(AddEnd(w, score), NUM_TAGS);
    forall i: nat | i < NUM_TAGS
      ensures score[i] + w.end[i] <= score[q] + w.end[q]
      ensures i < q ==> score[i] + w.end[i] < score[q] + w.end[q]
    {
      ArgMaxIsMax(AddEnd(w, score), NUM_TAGS, i);
    }
    FirstBestHolds(score, b, q, w.end);
  }

  /** A padded step keeps it: a forbidden step would cost more than the tag itself. */
  lemma PadStepHolds(w: Weights, score: seq<real>, b: real, j: nat)
    requires WeightsShaped(NUM_TAGS, w) && |score| == NUM_TAGS && j < NUM_TAGS
    requires Penalised(w) && StepsWithin(w, b) && b <= 2000.0 && Holds(score, b, j)
    ensures Holds(score, b, PadStep(NUM_TAGS, w, score, j))
  {
    var i, row := PadStep(NUM_TAGS, w, score, j), w.trans[j];
    forall a: nat | a < NUM_TAGS
      ensures score[a] + row[a] <= score[i] + row[i]
      ensures a < i ==> score[a] + row[a] < score[i] + row[i]
    {
      ArgBestIsMax(score, row, 0.0, NUM_TAGS, a);
    }
    if MayStart(j) {
      FirstBestHolds(score, b, i, row);
    } else {
      assert MayFollow(i, j) by {
        assert -b <= row[j] <= b;
        assert score[j] + row[j] <= score[i] + row[i];
      }
    }
  }

  lemma {:induction false} PadWalkHolds(w: Weights, score: seq<real>, b: real, m: nat, j: nat)
    requires WeightsShaped(NUM_TAGS, w) && |score| == NUM_TAGS && j < NUM_TAGS
    requires Penalised(w) && StepsWithin(w, b) && b <= 2000.0 && Holds(score, b, j)
    ensures Holds(score, b, PadWalk(NUM_TAGS, w, score, m, j))
  {
    if m > 0 {
      PadStepHolds(w, score, b, j);
      PadWalkHolds(w, score, b, m - 1, PadStep(NUM_TAGS, w, score, j));
    }
  }

  /** A traced sequence has no forbidden tag before its end: the repair would come first in a
      tie. */
  lemma NoneBadInside(w: Weights, em: Emissions, b: real, t: nat, q: nat, p: nat)
    requires Shaped(NUM_TAGS, w, em) && p < t < |em| && q < NUM_TAGS
    requires Penalised(w) && TokensWithin(w, em, t + 1, b) && b <= 2000.0
    requires forall k: nat | p < k <= t :: !BadAt(BestPath(NUM_TAGS, w, em, t, q), k)
    ensures !BadAt(BestPath(NUM_TAGS, w, em, t, q), p)
  {
    var y := BestPath(NUM_TAGS, w, em, t, q);
    if BadAt(y, p) {
      var z := RepairPrefix(w, em, b, y, p);
      EarlierTagLosesAfter(NUM_TAGS, w, em, t, q, z, p);
    }
  }

  /** Nor at its end, if that tag holds: the repair would score too high. */
  lemma NoneBadAtEnd(w: Weights, em: Emissions, b: real, t: nat, q: nat)
    requires Shaped(NUM_TAGS, w, em) && t < |em| && q < NUM_TAGS
    requires Penalised(w) && TokensWithin(w, em, t + 1, b) && b <= 2000.0 && Holds(Best(NUM_TAGS, w, em, t), b, q)
    ensures !BadAt(BestPath(NUM_TAGS, w, em, t, q), t)
  {
    var y := BestPath(NUM_TAGS, w, em, t, q);
    if BadAt(y, t) {
      var z := RepairPrefix(w, em, b, y, t);
      BestPathAttains(NUM_TAGS, w, em, t, q);
      BestIsUpperBound(NUM_TAGS, w, em, z, t);
    }
  }

  lemma TracedIsWellFormed(w: Weights, em: Emissions, b: real, t: nat, q: nat)
    requires Shaped(NUM_TAGS, w, em) && t < |em| && q < NUM_TAGS
    requires Penalised(w) && TokensWithin(w, em, t + 1, b) && b <= 2000.0 && Holds(Best(NUM_TAGS, w, em, t), b, q)
    ensures WellFormed(BestPath(NUM_TAGS, w, em, t, q))
  {
    var y := BestPath(NUM_TAGS, w, em, t, q);
    NoneBadAtEnd(w, em, b, t, q);
    if !WellFormed(y) {
      var p := LastBad(y, t + 1);
      NoneBadInside(w, em, b, t, q, p);
    }
  }

  /** The decoder tags the tokens of every row within the BIO scheme, whatever the padding
      and its emissions, up to that bound and at it. */
  lemma DecodeIsWellFormed(w: Weights, em: Emissions, mask: Mask, k: nat, b: real)
    requires Shaped(NUM_TAGS, w, em) && |mask| == |em| && PrefixMask(mask, k)
    requires Penalised(w) && TokensWithin(w, em, k, b) && b <= 2000.0
    ensures NamesWellFormed(Decoded(NUM_TAGS, w, em, mask)[..k])
  {
    LastTagHolds(w, em, mask, k, b);
    PadWalkHolds(w, Best(NUM_TAGS, w, em, k - 1), b, |em| - k, LastTag(NUM_TAGS, w, em, mask));
    TracedIsWellFormed(w, em, b, k - 1, TokenEnd(NUM_TAGS, w, em, mask, k));
    DecodedTokens(NUM_TAGS, w, em, mask, k);
    WellFormedByName(Decoded(NUM_TAGS, w, em, mask)[..k]);
  }

  function Fill(v: real, m: nat): (r: seq<real>)
    ensures |r| == m
    ensures forall k {:trigger r[k]} | 0 <= k < m :: r[k] == v
  {
    if m == 0 then [] else Fill(v, m - 1) + [v]
  }

  function StartRow(v: real, m: nat): (r: seq<real>)
    requires m <= NUM_TAGS
    ensures |r| == m
    ensures forall k: nat {:trigger r[k]} | k < m :: r[k] == if MayStart(k) then v else PENALTY
  {
    if m == 0 then [] else StartRow(v, m - 1) + [if MayStart(m - 1) then v else PENALTY]
  }

  /** The allowed steps weigh nothing, but for the one from B-PER to O. */
  function StepCell(x: real, i: nat, j: nat): real {
    if j == 0 && i == 1 then x else if MayFollow(i, j) then 0.0 else PENALTY
  }

  function StepRow(x: real, j: nat, m: nat): (r: seq<real>)
    requires j < NUM_TAGS && m <= NUM_TAGS
    ensures |r| == m
    ensures forall i: nat {:trigger r[i]} | i < m :: r[i] == StepCell(x, i, j)
  {
    if m == 0 then [] else StepRow(x, j, m - 1) + [StepCell(x, m - 1, j)]
  }

  function StepRows(x: real, m: nat): (r: seq<seq<real>>)
    requires m <= NUM_TAGS
    ensures |r| == m
    ensures forall j: nat {:trigger r[j]} | j < m :: |r[j]| == NUM_TAGS
    ensures forall i: nat, j: nat {:trigger r[j][i]} | i < NUM_TAGS && j < m :: r[j][i] == StepCell(x, i, j)
  {
    if m == 0 then [] else StepRows(x, m - 1) + [StepRow(x, m - 1, NUM_TAGS)]
  }

  /** A layer with these starts and ends, and steps that weigh nothing but x from B-PER to O. */
  lemma BuildLayer(v: real, x: real, end: seq<real>, b: real) returns (w: Weights)
    requires -b <= x <= b && -b <= v <= b && |end| == NUM_TAGS
    ensures WeightsShaped(NUM_TAGS, w) && Penalised(w) && StepsWithin(w, b)
    ensures w.start == StartRow(v, NUM_TAGS) && w.end == end && w.trans[0][0] == 0.0 && w.trans[0][1] == x
  {
    w := Weights(StartRow(v, NUM_TAGS), StepRows(x, NUM_TAGS), end);
  }

  /** Weights that favour I-PER everywhere the penalties leave a choice. */
  lemma FavourInside(b: real) returns (w: Weights, em: Emissions)
    requires b >= 2000.0
    ensures Shaped(NUM_TAGS, w, em) && Penalised(w) && Within(w, em, b) && |em| == 1
    ensures w.start[2] == PENALTY && em[0][2] == b && w.end[2] == b
    ensures forall j: nat | j < NUM_TAGS && j != 2 ::
      (w.start[j] <= -b || w.start[j] <= PENALTY) && em[0][j] == -b && w.end[j] == -b
  {
    var favour := Fill(-b, NUM_TAGS)[2 := b];
    w := BuildLayer(-b, 0.0, favour, b);
    em := [favour];
  }

  /** From 2000 on, I-PER alone can be an optimal sequence. */
  lemma InsideCanBeOptimal(b: real) returns (w: Weights, em: Emissions)
    requires b >= 2000.0
    ensures Shaped(NUM_TAGS, w, em) && Penalised(w) && Within(w, em, b)
    ensures Optimal(NUM_TAGS, w, em, [2]) && !WellFormed([2])
  {
    w, em := FavourInside(b);
    forall z: Tagging | |z| == 1 && IsTagging(NUM_TAGS, z)
      ensures Score(NUM_TAGS, w, em, z) <= Score(NUM_TAGS, w, em, [2])
    {
      assert z[0] != 2 ==> w.end[z[0]] == -b;
    }
    assert BadAt([2], 0);
  }

  /** Above 2000 a one-word sentence can decode to I-PER. */
  lemma BoundIsTight(b: real) returns (w: Weights, em: Emissions)
    requires b > 2000.0
    ensures Shaped(NUM_TAGS, w, em) && Penalised(w) && Within(w, em, b)
    ensures |em| == 1 && PrefixMask([1.0], 1) && !NamesWellFormed(Decoded(NUM_TAGS, w, em, [1.0])[..1])
  {
    w, em := FavourInside(b);
    var y := Decoded(NUM_TAGS, w, em, [1.0]);
    DecodeIsOptimal(NUM_TAGS, w, em, [1.0]);
    assert Score(NUM_TAGS, w, em, [2]) <= Score(NUM_TAGS, w, em, y);
    assert y[0] == 2;
    assert BadAt(y, 0);
    WellFormedByName(y);
    assert y[..1] == y;
  }

  /** For which bounds on the free weights every optimal sequence is well formed. */
  lemma OptimalIsWellFormedIff(b: real)
    ensures b < 2000.0 <==>
      forall w: Weights, em: Emissions, y: Tagging |
        Shaped(NUM_TAGS, w, em) && Penalised(w) && Within(w, em, b) && Optimal(NUM_TAGS, w, em, y) :: WellFormed(y)
  {
    if b < 2000.0 {
      forall w: Weights, em: Emissions, y: Tagging |
        Shaped(NUM_TAGS, w, em) && Penalised(w) && Within(w, em, b) && Optimal(NUM_TAGS, w, em, y)
        ensures WellFormed(y)
      {
        OptimalIsWellFormed(w, em, b, y);
      }
    } else {
      var w, em := InsideCanBeOptimal(b);
    }
  }

  /** For which bounds the decoder, which takes the first of tied tags, tags the tokens of
      every row within the scheme. */
  lemma DecodeIsWellFormedIff(b: real)
    ensures b <= 2000.0 <==>
      forall w: Weights, em: Emissions, mask: Mask, k: nat |
        && Shaped(NUM_TAGS, w, em) && |mask| == |em| && PrefixMask(mask, k)
        && Penalised(w) && TokensWithin(w, em, k, b) ::
          NamesWellFormed(Decoded(NUM_TAGS, w, em, mask)[..k])
  {
    if b <= 2000.0 {
      forall w: Weights, em: Emissions, mask: Mask, k: nat |
        && Shaped(NUM_TAGS, w, em) && |mask| == |em| && PrefixMask(mask, k)
        && Penalised(w) && TokensWithin(w, em, k, b)
        ensures NamesWellFormed(Decoded(NUM_TAGS, w, em, mask)[..k])
      {
        DecodeIsWellFormed(w, em, mask, k, b);
      }
    } else {
      var w, em := BoundIsTight(b);
    }
  }

  // ---------------------------------------------------------------- padding

  /** A penalised layer over the twelve tags, all its free weights and emissions within one,
      on which the token of a padded row is decoded to a tag that is not optimal. */
  lemma PaddedDecodeCanBeWorse() returns (w: Weights, em: Emissions)
    ensures Shaped(NUM_TAGS, w, em) && Penalised(w) && Within(w, em, 1.0)
    ensures |em| == 2 && PrefixMask([1.0, 0.0], 1)
    ensures !Optimal(NUM_TAGS, w, em, Decoded(NUM_TAGS, w, em, [1.0, 0.0])[..1])
  {
    w, em := TameLayer();
    LeavingFails(NUM_TAGS, w, em, 1, 0, 0.5);
  }

  lemma TameLayer() returns (w: Weights, em: Emissions)
    ensures Shaped(NUM_TAGS, w, em) && Penalised(w) && Within(w, em, 1.0) && |em| == 2
    ensures w.trans[0][0] == 0.0 && w.trans[0][1] == 1.0 && w.end[0] == w.end[1] == 0.0
    ensures Leads(AddEnd(w, Best(NUM_TAGS, w, em, 0)), 1, 0, 0.5)
  {
    var emit := Fill(0.0, NUM_TAGS)[0 := 0.5];
    w := BuildLayer(0.0, 1.0, Fill(0.0, NUM_TAGS), 1.0);
    em := [emit, emit];
  }
}
