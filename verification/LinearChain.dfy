/** Linear-chain tagging in exact reals: scores, and best predecessors. */
module LinearChain {

  /** trans[j][i] is the weight of stepping from tag i to tag j. */
  datatype Weights = Weights(start: seq<real>, trans: seq<seq<real>>, end: seq<real>)

  type Emissions = seq<seq<real>>
  type Tagging = seq<nat>

  predicate WeightsShaped(n: nat, w: Weights) {
    && n >= 1 && |w.start| == n && |w.end| == n && |w.trans| == n
    && forall j | 0 <= j < n :: |w.trans[j]| == n
  }

  predicate Shaped(n: nat, w: Weights, em: Emissions) {
    && WeightsShaped(n, w)
    && |em| >= 1
    && forall t | 0 <= t < |em| :: |em[t]| == n
  }

  predicate IsTagging(n: nat, y: Tagging) {
    forall t | 0 <= t < |y| :: y[t] < n
  }

  /** The weight of y[0 .. t] before any end weight. */
  function PrefixScore(n: nat, w: Weights, em: Emissions, y: Tagging, t: nat): real
    requires Shaped(n, w, em) && IsTagging(n, y) && t < |y| <= |em|
  {
    if t == 0 then
      w.start[y[0]] + em[0][y[0]]
    else
      PrefixScore(n, w, em, y, t - 1) + (em[t][y[t]] + w.trans[y[t]][y[t - 1]])
  }

  function Score(n: nat, w: Weights, em: Emissions, y: Tagging): real
    requires Shaped(n, w, em) && IsTagging(n, y) && 1 <= |y| <= |em|
  {
    PrefixScore(n, w, em, y, |y| - 1) + w.end[y[|y| - 1]]
  }

  /** The prefix score reads nothing after position t. */
  lemma {:induction false} PrefixScoreLocal(n: nat, w: Weights, em: Emissions, em': Emissions, y: Tagging, y': Tagging, t: nat)
    requires Shaped(n, w, em) && IsTagging(n, y) && t < |y| <= |em|
    requires Shaped(n, w, em') && IsTagging(n, y') && t < |y'| <= |em'|
    requires forall k {:trigger y[k]} {:trigger em[k]} | 0 <= k <= t :: y[k] == y'[k] && em[k] == em'[k]
    ensures PrefixScore(n, w, em, y, t) == PrefixScore(n, w, em', y', t)
  {
    if t > 0 {
      PrefixScoreLocal(n, w, em, em', y, y', t - 1);
    }
  }

  // ---------------------------------------------------------------- maxima

  /** The weight of coming from tag i: one entry of `score.unsqueeze(1) + trans + emit`. */
  function Via(score: seq<real>, row: seq<real>, e: real, i: nat): real
    requires i < |score| == |row|
  {
    score[i] + row[i] + e
  }

  /** The first of the tags 0 .. m with the largest way in. */
  function ArgBest(score: seq<real>, row: seq<real>, e: real, m: nat): (k: nat)
    requires |score| == |row| && 1 <= m <= |row|
    ensures k < m
  {
    if m == 1 then 0
    else
      var k := ArgBest(score, row, e, m - 1);
      if Via(score, row, e, m - 1) > Via(score, row, e, k) then m - 1 else k
  }

  lemma {:induction false} ArgBestIsMax(score: seq<real>, row: seq<real>, e: real, m: nat, i: nat)
    requires |score| == |row| && i < m <= |row|
    ensures Via(score, row, e, i) <= Via(score, row, e, ArgBest(score, row, e, m))
    ensures i < ArgBest(score, row, e, m) ==> Via(score, row, e, i) < Via(score, row, e, ArgBest(score, row, e, m))
  {
    if m > 1 {
      ArgBestIsMax(score, row, e, m - 1, if i < m - 1 then i else 0);
    }
  }

  /** The first position among 0 .. m holding a largest element. */
  function ArgMax(xs: seq<real>, m: nat): (k: nat)
    requires 1 <= m <= |xs|
    ensures k < m
  {
    if m == 1 then 0
    else
      var k := ArgMax(xs, m - 1);
      if xs[m - 1] > xs[k] then m - 1 else k
  }

  lemma {:induction false} ArgMaxIsMax(xs: seq<real>, m: nat, i: nat)
    requires i < m <= |xs|
    ensures xs[i] <= xs[ArgMax(xs, m)]
    ensures i < ArgMax(xs, m) ==> xs[i] < xs[ArgMax(xs, m)]
  {
    if m > 1 {
      ArgMaxIsMax(xs, m - 1, if i < m - 1 then i else 0);
    }
  }

  /** Adding two rows elementwise: `start + emissions[0]`, `score += end`. */
  function AddTo(a: seq<real>, b: seq<real>, m: nat): (c: seq<real>)
    requires |a| == |b| && m <= |a|
    ensures |c| == m
    ensures forall i {:trigger c[i]} | 0 <= i < m :: c[i] == a[i] + b[i]
  {
    if m == 0 then [] else AddTo(a, b, m - 1) + [a[m - 1] + b[m - 1]]
  }

  function StartColumn(w: Weights, em: Emissions): (c: seq<real>)
    requires |em| >= 1 && |w.start| == |em[0]|
    ensures |c| == |w.start|
    ensures forall j {:trigger c[j]} | 0 <= j < |c| :: c[j] == w.start[j] + em[0][j]
  {
    AddTo(w.start, em[0], |w.start|)
  }

  function AddEnd(w: Weights, score: seq<real>): (c: seq<real>)
    requires |score| == |w.end|
    ensures |c| == |score|
    ensures forall j {:trigger c[j]} | 0 <= j < |c| :: c[j] == score[j] + w.end[j]
  {
    AddTo(score, w.end, |score|)
  }

  /** The best predecessor of each of the first m tags. */
  function BackPointersTo(n: nat, w: Weights, score: seq<real>, emit: seq<real>, m: nat): (b: seq<nat>)
    requires WeightsShaped(n, w) && |score| == n && |emit| == n && m <= n
    ensures |b| == m && IsTagging(n, b)
  {
    if m == 0 then []
    else BackPointersTo(n, w, score, emit, m - 1) + [ArgBest(score, w.trans[m - 1], emit[m - 1], n)]
  }

  function BackPointers(n: nat, w: Weights, score: seq<real>, emit: seq<real>): (b: seq<nat>)
    requires WeightsShaped(n, w) && |score| == n && |emit| == n
    ensures |b| == n && IsTagging(n, b)
  {
    BackPointersTo(n, w, score, emit, n)
  }

  function MaxColumnTo(n: nat, w: Weights, score: seq<real>, emit: seq<real>, m: nat): (c: seq<real>)
    requires WeightsShaped(n, w) && |score| == n && |emit| == n && m <= n
    ensures |c| == m
  {
    if m == 0 then []
    else
      var k := ArgBest(score, w.trans[m - 1], emit[m - 1], n);
      MaxColumnTo(n, w, score, emit, m - 1) + [Via(score, w.trans[m - 1], emit[m - 1], k)]
  }

  function MaxColumn(n: nat, w: Weights, score: seq<real>, emit: seq<real>): (c: seq<real>)
    requires WeightsShaped(n, w) && |score| == n && |emit| == n
    ensures |c| == n
  {
    MaxColumnTo(n, w, score, emit, n)
  }

  lemma {:induction false} ColumnCell(n: nat, w: Weights, score: seq<real>, emit: seq<real>, m: nat, j: nat)
    requires WeightsShaped(n, w) && |score| == n && |emit| == n && j < m <= n
    ensures var k := ArgBest(score, w.trans[j], emit[j], n);
            && BackPointersTo(n, w, score, emit, m)[j] == k
            && MaxColumnTo(n, w, score, emit, m)[j] == Via(score, w.trans[j], emit[j], k)
  {
    if j < m - 1 {
      ColumnCell(n, w, score, emit, m - 1, j);
    }
  }

  /** A cell of the new column is the way in through its back-pointer, and the largest one. */
  lemma MaxCell(n: nat, w: Weights, score: seq<real>, emit: seq<real>, j: nat, i: nat)
    requires WeightsShaped(n, w) && |score| == n && |emit| == n && j < n && i < n
    ensures var b := BackPointers(n, w, score, emit)[j];
            b < n && MaxColumn(n, w, score, emit)[j] == score[b] + w.trans[j][b] + emit[j]
    ensures score[i] + w.trans[j][i] + emit[j] <= MaxColumn(n, w, score, emit)[j]
  {
    ColumnCell(n, w, score, emit, n, j);
    ArgBestIsMax(score, w.trans[j], emit[j], n, i);
  }

  /** The Viterbi column after position t. */
  function Best(n: nat, w: Weights, em: Emissions, t: nat): (c: seq<real>)
    requires Shaped(n, w, em) && t < |em|
    ensures |c| == n
  {
    if t == 0 then StartColumn(w, em)
    else MaxColumn(n, w, Best(n, w, em, t - 1), em[t])
  }

  /** No tag sequence beats the Viterbi column at its last tag. */
  lemma {:induction false} BestIsUpperBound(n: nat, w: Weights, em: Emissions, y: Tagging, t: nat)
    requires Shaped(n, w, em) && IsTagging(n, y) && t < |y| <= |em|
    ensures PrefixScore(n, w, em, y, t) <= Best(n, w, em, t)[y[t]]
  {
    if t > 0 {
      BestIsUpperBound(n, w, em, y, t - 1);
      MaxCell(n, w, Best(n, w, em, t - 1), em[t], y[t], y[t - 1]);
    }
  }

  // ------------------------------------------------------------ backtracking

  /** Each entry of a history maps a tag to its predecessor. */
  predicate IsHistory(n: nat, hist: seq<seq<nat>>) {
    forall t {:trigger hist[t]} | 0 <= t < |hist| :: |hist[t]| == n && IsTagging(n, hist[t])
  }

  /** The sequence reached by walking the first m entries of a history backwards. */
  function Follow(n: nat, hist: seq<seq<nat>>, m: nat, last: nat): (y: Tagging)
    requires IsHistory(n, hist) && m <= |hist| && last < n
    ensures |y| == m + 1 && IsTagging(n, y) && y[m] == last
  {
    if m == 0 then [last]
    else Follow(n, hist, m - 1, hist[m - 1][last]) + [last]
  }

  lemma {:induction false} FollowLocal(n: nat, hist: seq<seq<nat>>, hist': seq<seq<nat>>, m: nat, last: nat)
    requires IsHistory(n, hist) && m <= |hist| && last < n
    requires IsHistory(n, hist') && m <= |hist'|
    requires forall t {:trigger hist[t]} | 0 <= t < m :: hist[t] == hist'[t]
    ensures Follow(n, hist, m, last) == Follow(n, hist', m, last)
  {
    if m > 0 {
      FollowLocal(n, hist, hist', m - 1, hist[m - 1][last]);
    }
  }

  /** The back-pointers recorded while computing the first t + 1 columns. */
  function History(n: nat, w: Weights, em: Emissions, t: nat): (hist: seq<seq<nat>>)
    requires Shaped(n, w, em) && t < |em|
    ensures |hist| == t && IsHistory(n, hist)
  {
    if t == 0 then []
    else History(n, w, em, t - 1) + [BackPointers(n, w, Best(n, w, em, t - 1), em[t])]
  }

  lemma {:induction false} HistoryCell(n: nat, w: Weights, em: Emissions, t: nat, s: nat)
    requires Shaped(n, w, em) && s < t < |em|
    ensures History(n, w, em, t)[s] == BackPointers(n, w, Best(n, w, em, s), em[s + 1])
  {
    if s < t - 1 {
      HistoryCell(n, w, em, t - 1, s);
    }
  }

  /** The best tag sequence ending in tag j at position t. */
  function BestPath(n: nat, w: Weights, em: Emissions, t: nat, j: nat): (y: Tagging)
    requires Shaped(n, w, em) && t < |em| && j < n
    ensures |y| == t + 1 && IsTagging(n, y) && y[t] == j
  {
    Follow(n, History(n, w, em, t), t, j)
  }

  lemma BestPathExtends(n: nat, w: Weights, em: Emissions, t: nat, j: nat)
    requires Shaped(n, w, em) && 1 <= t < |em| && j < n
    ensures var i := BackPointers(n, w, Best(n, w, em, t - 1), em[t])[j];
            i < n && BestPath(n, w, em, t, j) == BestPath(n, w, em, t - 1, i) + [j]
  {
    var i := BackPointers(n, w, Best(n, w, em, t - 1), em[t])[j];
    FollowLocal(n, History(n, w, em, t), History(n, w, em, t - 1), t - 1, i);
  }

  /** The back-pointers realise exactly the maximum held in the column. */
  lemma {:induction false} BestPathAttains(n: nat, w: Weights, em: Emissions, t: nat, j: nat)
    requires Shaped(n, w, em) && t < |em| && j < n
    ensures PrefixScore(n, w, em, BestPath(n, w, em, t, j), t) == Best(n, w, em, t)[j]
  {
    if t > 0 {
      var p := Best(n, w, em, t - 1);
      var i := BackPointers(n, w, p, em[t])[j];
      BestPathExtends(n, w, em, t, j);
      BestPathAttains(n, w, em, t - 1, i);
      PrefixScoreLocal(n, w, em, em, BestPath(n, w, em, t, j), BestPath(n, w, em, t - 1, i), t - 1);
      MaxCell(n, w, p, em[t], j, i);
    }
  }

  function Reverse<T>(xs: seq<T>): (r: seq<T>)
    ensures |r| == |xs|
  {
    if xs == [] then []
    else [xs[|xs| - 1]] + Reverse(xs[..|xs| - 1])
  }

  lemma ReverseSnoc<T>(xs: seq<T>, x: T)
    ensures Reverse(xs + [x]) == [x] + Reverse(xs)
  {
    assert (xs + [x])[..|xs|] == xs;
  }

  /** A tag sequence of length t + 1 that no other one beats. */
  ghost predicate Optimal(n: nat, w: Weights, em: Emissions, y: Tagging) {
    && Shaped(n, w, em) && IsTagging(n, y) && 1 <= |y| <= |em|
    && forall z: Tagging | |z| == |y| && IsTagging(n, z) ::
         Score(n, w, em, z) <= Score(n, w, em, y)
  }

  lemma ScoreFromColumn(n: nat, w: Weights, em: Emissions, y: Tagging, t: nat, c: seq<real>)
    requires Shaped(n, w, em) && IsTagging(n, y) && |y| == t + 1 <= |em| && |c| == n
    requires PrefixScore(n, w, em, y, t) == c[y[t]]
    ensures Score(n, w, em, y) == AddEnd(w, c)[y[t]]
  {
  }

  lemma ScoreOfBestPath(n: nat, w: Weights, em: Emissions, t: nat, j: nat)
    requires Shaped(n, w, em) && t < |em| && j < n
    ensures Score(n, w, em, BestPath(n, w, em, t, j)) == AddEnd(w, Best(n, w, em, t))[j]
  {
    BestPathAttains(n, w, em, t, j);
    ScoreFromColumn(n, w, em, BestPath(n, w, em, t, j), t, Best(n, w, em, t));
  }

  lemma ScoreBound(n: nat, w: Weights, em: Emissions, y: Tagging, t: nat)
    requires Shaped(n, w, em) && IsTagging(n, y) && |y| == t + 1 <= |em|
    ensures Score(n, w, em, y) <= AddEnd(w, Best(n, w, em, t))[y[t]]
  {
    BestIsUpperBound(n, w, em, y, t);
  }

  /** A walk along the back-pointers is maximal exactly when its last tag maximises the
      final column plus end weights. */
  lemma OptimalIffLastTag(n: nat, w: Weights, em: Emissions, t: nat, last: nat)
    requires Shaped(n, w, em) && t < |em| && last < n
    ensures Optimal(n, w, em, BestPath(n, w, em, t, last)) <==>
            var c := AddEnd(w, Best(n, w, em, t));
            forall j | 0 <= j < n :: c[j] <= c[last]
  {
    var c, y := AddEnd(w, Best(n, w, em, t)), BestPath(n, w, em, t, last);
    ScoreOfBestPath(n, w, em, t, last);
    if Optimal(n, w, em, y) {
      forall j | 0 <= j < n ensures c[j] <= c[last] {
        ScoreOfBestPath(n, w, em, t, j);
      }
    }
    if forall j | 0 <= j < n :: c[j] <= c[last] {
      forall z: Tagging | |z| == |y| && IsTagging(n, z)
        ensures Score(n, w, em, z) <= Score(n, w, em, y)
      {
        ScoreBound(n, w, em, z, t);
      }
    }
  }

  // ---------------------------------------------------------------- ties

  /** Inside a back-traced sequence every tag is the first best predecessor of the next, and
      every prefix is itself back-traced. */
  lemma {:induction false} BestPathInside(n: nat, w: Weights, em: Emissions, t: nat, j: nat, p: nat)
    requires Shaped(n, w, em) && p < t < |em| && j < n
    ensures var y := BestPath(n, w, em, t, j);
      && y[..p + 1] == BestPath(n, w, em, p, y[p])
      && y[p] == BackPointers(n, w, Best(n, w, em, p), em[p + 1])[y[p + 1]]
  {
    var y, i := BestPath(n, w, em, t, j), BackPointers(n, w, Best(n, w, em, t - 1), em[t])[j];
    BestPathExtends(n, w, em, t, j);
    var x := BestPath(n, w, em, t - 1, i);
    assert y == x + [j];
    assert y[..p + 1] == x[..p + 1];
    if p == t - 1 {
      assert x[..p + 1] == x;
    } else {
      BestPathInside(n, w, em, t - 1, i, p);
    }
  }

  lemma PrefixAttains(n: nat, w: Weights, em: Emissions, t: nat, j: nat, p: nat)
    requires Shaped(n, w, em) && p < t < |em| && j < n
    ensures var y := BestPath(n, w, em, t, j); PrefixScore(n, w, em, y, p) == Best(n, w, em, p)[y[p]]
  {
    var y := BestPath(n, w, em, t, j);
    BestPathInside(n, w, em, t, j, p);
    BestPathAttains(n, w, em, p, y[p]);
    PrefixScoreLocal(n, w, em, em, y, BestPath(n, w, em, p, y[p]), p);
  }

  predicate DifferAt(y: Tagging, z: Tagging, p: nat) {
    p < |y| == |z| && forall k: nat {:trigger y[k]} {:trigger z[k]} | k < |y| && k != p :: y[k] == z[k]
  }

  /** Past a difference and its next step, two sequences gain the same. */
  lemma {:induction false} SameGainAfter(n: nat, w: Weights, em: Emissions, y: Tagging, z: Tagging, p: nat, t: nat)
    requires Shaped(n, w, em) && IsTagging(n, y) && IsTagging(n, z) && DifferAt(y, z, p)
    requires p + 1 <= t < |y| <= |em|
    ensures PrefixScore(n, w, em, z, t) - PrefixScore(n, w, em, y, t)
         == PrefixScore(n, w, em, z, p + 1) - PrefixScore(n, w, em, y, p + 1)
  {
    if t > p + 1 {
      SameGainAfter(n, w, em, y, z, p, t - 1);
    }
  }

  /** One tag earlier in the order, at a position before the last: the next prefix is worse. */
  lemma EarlierTagLosesNext(n: nat, w: Weights, em: Emissions, t: nat, j: nat, z: Tagging, p: nat)
    requires Shaped(n, w, em) && p < t < |em| && j < n && IsTagging(n, z)
    requires DifferAt(BestPath(n, w, em, t, j), z, p) && z[p] < BestPath(n, w, em, t, j)[p]
    ensures PrefixScore(n, w, em, z, p + 1) < PrefixScore(n, w, em, BestPath(n, w, em, t, j), p + 1)
  {
    var y, score := BestPath(n, w, em, t, j), Best(n, w, em, p);
    var next := y[p + 1];
    BestPathInside(n, w, em, t, j, p);
    ColumnCell(n, w, score, em[p + 1], n, next);
    ArgBestIsMax(score, w.trans[next], em[p + 1][next], n, z[p]);
    PrefixAttains(n, w, em, t, j, p);
    BestIsUpperBound(n, w, em, z, p);
    assert z[p + 1] == next;
  }

  lemma EarlierTagLosesAfter(n: nat, w: Weights, em: Emissions, t: nat, j: nat, z: Tagging, p: nat)
    requires Shaped(n, w, em) && p < t < |em| && j < n && IsTagging(n, z)
    requires DifferAt(BestPath(n, w, em, t, j), z, p) && z[p] < BestPath(n, w, em, t, j)[p]
    ensures PrefixScore(n, w, em, z, t) < PrefixScore(n, w, em, BestPath(n, w, em, t, j), t)
  {
    EarlierTagLosesNext(n, w, em, t, j, z, p);
    SameGainAfter(n, w, em, BestPath(n, w, em, t, j), z, p, t);
  }

  /** The decoder takes the first of tied tags: a sequence that differs from the decoded one
      by an earlier tag at one position scores strictly less. */
  lemma EarlierTagLoses(n: nat, w: Weights, em: Emissions, t: nat, z: Tagging, p: nat)
    requires Shaped(n, w, em) && t < |em| && IsTagging(n, z)
    requires var y := BestPath(n, w, em, t, ArgMax(AddEnd(w, Best(n, w, em, t)), n));
      DifferAt(y, z, p) && z[p] < y[p]
    ensures Score(n, w, em, z) < Score(n, w, em, BestPath(n, w, em, t, ArgMax(AddEnd(w, Best(n, w, em, t)), n)))
  {
    var c := AddEnd(w, Best(n, w, em, t));
    var last := ArgMax(c, n);
    var y := BestPath(n, w, em, t, last);
    if p == t {
      ScoreBound(n, w, em, z, t);
      ScoreOfBestPath(n, w, em, t, last);
      ArgMaxIsMax(c, n, z[t]);
    } else {
      EarlierTagLosesAfter(n, w, em, t, last, z, p);
    }
  }
}
