/** The Viterbi programme over log scores that may be minus infinity: a state of initial
    probability zero starts no path of positive probability.  Minus infinity is a value of
    its own that absorbs every addition and lies below every number; the first of several
    best predecessors is kept, as in the chain of real scores. */
module LogChain {
  import LinearChain

  type Emissions = seq<seq<real>>
  type Tagging = seq<nat>

  /** -inf, or a finite log score. */
  datatype LogScore = NegInf | Finite(value: real)

  function Add(a: LogScore, r: real): LogScore {
    match a case NegInf => NegInf case Finite(v) => Finite(v + r)
  }

  predicate Less(a: LogScore, b: LogScore) {
    b.Finite? && (a.NegInf? || a.value < b.value)
  }

  /** trans[j][i] is the log score of stepping from state i to state j. */
  datatype Weights = Weights(start: seq<LogScore>, trans: seq<seq<real>>)

  predicate Shaped(n: nat, w: Weights, em: Emissions) {
    && n >= 1 && |w.start| == n && |w.trans| == n && (forall j | 0 <= j < n :: |w.trans[j]| == n)
    && |em| >= 1 && forall t | 0 <= t < |em| :: |em[t]| == n
  }

  /** The log score of y[0 .. t]. */
  function PathScore(n: nat, w: Weights, em: Emissions, y: Tagging, t: nat): LogScore
    requires Shaped(n, w, em) && LinearChain.IsTagging(n, y) && t < |y| <= |em|
  {
    if t == 0 then Add(w.start[y[0]], em[0][y[0]])
    else Add(Add(PathScore(n, w, em, y, t - 1), w.trans[y[t]][y[t - 1]]), em[t][y[t]])
  }

  lemma {:induction false} PathScoreLocal(n: nat, w: Weights, em: Emissions, y: Tagging, y': Tagging, t: nat)
    requires Shaped(n, w, em) && LinearChain.IsTagging(n, y) && LinearChain.IsTagging(n, y')
    requires t < |y| <= |em| && t < |y'| <= |em|
    requires forall k {:trigger y[k]} | 0 <= k <= t :: y[k] == y'[k]
    ensures PathScore(n, w, em, y, t) == PathScore(n, w, em, y', t)
  {
    if t > 0 {
      PathScoreLocal(n, w, em, y, y', t - 1);
    }
  }

  // ---------------------------------------------------------------- maxima

  function Via(score: seq<LogScore>, row: seq<real>, e: real, i: nat): LogScore
    requires i < |score| == |row|
  {
    Add(Add(score[i], row[i]), e)
  }

  /** The first of the states 0 .. m with the largest way in. */
  function ArgBest(score: seq<LogScore>, row: seq<real>, e: real, m: nat): (k: nat)
    requires |score| == |row| && 1 <= m <= |row|
    ensures k < m
  {
    if m == 1 then 0
    else
      var k := ArgBest(score, row, e, m - 1);
      if Less(Via(score, row, e, k), Via(score, row, e, m - 1)) then m - 1 else k
  }

  lemma {:induction false} ArgBestIsMax(score: seq<LogScore>, row: seq<real>, e: real, m: nat, i: nat)
    requires |score| == |row| && i < m <= |row|
    ensures !Less(Via(score, row, e, ArgBest(score, row, e, m)), Via(score, row, e, i))
    ensures i < ArgBest(score, row, e, m) ==> Less(Via(score, row, e, i), Via(score, row, e, ArgBest(score, row, e, m)))
  {
    if m > 1 {
      ArgBestIsMax(score, row, e, m - 1, if i < m - 1 then i else 0);
    }
  }

  function ArgMax(xs: seq<LogScore>, m: nat): (k: nat)
    requires 1 <= m <= |xs|
    ensures k < m
  {
    if m == 1 then 0
    else
      var k := ArgMax(xs, m - 1);
      if Less(xs[k], xs[m - 1]) then m - 1 else k
  }

  lemma {:induction false} ArgMaxIsMax(xs: seq<LogScore>, m: nat, i: nat)
    requires i < m <= |xs|
    ensures !Less(xs[ArgMax(xs, m)], xs[i])
    ensures i < ArgMax(xs, m) ==> Less(xs[i], xs[ArgMax(xs, m)])
  {
    if m > 1 {
      ArgMaxIsMax(xs, m - 1, if i < m - 1 then i else 0);
    }
  }

  // ---------------------------------------------------------------- columns

  function StartTo(w: Weights, emit: seq<real>, m: nat): (c: seq<LogScore>)
    requires m <= |w.start| == |emit|
    ensures |c| == m
    ensures forall j {:trigger c[j]} | 0 <= j < m :: c[j] == Add(w.start[j], emit[j])
  {
    if m == 0 then [] else StartTo(w, emit, m - 1) + [Add(w.start[m - 1], emit[m - 1])]
  }

  function BackTo(score: seq<LogScore>, trans: seq<seq<real>>, emit: seq<real>, m: nat): (b: seq<nat>)
    requires m <= |trans| == |emit| == |score| && forall j | 0 <= j < |trans| :: |trans[j]| == |score|
    ensures |b| == m && LinearChain.IsTagging(|score|, b)
  {
    if m == 0 then [] else BackTo(score, trans, emit, m - 1) + [ArgBest(score, trans[m - 1], emit[m - 1], |score|)]
  }

  function ColumnTo(score: seq<LogScore>, trans: seq<seq<real>>, emit: seq<real>, m: nat): (c: seq<LogScore>)
    requires m <= |trans| == |emit| == |score| && forall j | 0 <= j < |trans| :: |trans[j]| == |score|
    ensures |c| == m
  {
    if m == 0 then []
    else
      var k := ArgBest(score, trans[m - 1], emit[m - 1], |score|);
      ColumnTo(score, trans, emit, m - 1) + [Via(score, trans[m - 1], emit[m - 1], k)]
  }

  lemma {:induction false} ColumnCell(score: seq<LogScore>, trans: seq<seq<real>>, emit: seq<real>, m: nat, j: nat)
    requires j < m <= |trans| == |emit| == |score| && forall j | 0 <= j < |trans| :: |trans[j]| == |score|
    ensures var k := ArgBest(score, trans[j], emit[j], |score|);
      && BackTo(score, trans, emit, m)[j] == k
      && ColumnTo(score, trans, emit, m)[j] == Via(score, trans[j], emit[j], k)
  {
    if j < m - 1 {
      ColumnCell(score, trans, emit, m - 1, j);
    }
  }

  /** The Viterbi column after position t. */
  function Best(n: nat, w: Weights, em: Emissions, t: nat): (c: seq<LogScore>)
    requires Shaped(n, w, em) && t < |em|
    ensures |c| == n
  {
    if t == 0 then StartTo(w, em[0], n) else ColumnTo(Best(n, w, em, t - 1), w.trans, em[t], n)
  }

  /** The back-pointers recorded while computing the first t + 1 columns. */
  function History(n: nat, w: Weights, em: Emissions, t: nat): (hist: seq<seq<nat>>)
    requires Shaped(n, w, em) && t < |em|
    ensures |hist| == t && LinearChain.IsHistory(n, hist)
  {
    if t == 0 then []
    else History(n, w, em, t - 1) + [BackTo(Best(n, w, em, t - 1), w.trans, em[t], n)]
  }

  lemma {:induction false} HistoryCell(n: nat, w: Weights, em: Emissions, t: nat, s: nat)
    requires Shaped(n, w, em) && s < t < |em|
    ensures History(n, w, em, t)[s] == BackTo(Best(n, w, em, s), w.trans, em[s + 1], n)
  {
    if s < t - 1 {
      HistoryCell(n, w, em, t - 1, s);
    }
  }

  /** The best path ending in state j at position t. */
  function BestPath(n: nat, w: Weights, em: Emissions, t: nat, j: nat): (y: Tagging)
    requires Shaped(n, w, em) && t < |em| && j < n
    ensures |y| == t + 1 && LinearChain.IsTagging(n, y) && y[t] == j
  {
    LinearChain.Follow(n, History(n, w, em, t), t, j)
  }

  // ---------------------------------------------------------------- what the columns hold

  /** No path beats the Viterbi column at its last state. */
  lemma {:induction false} BestIsUpperBound(n: nat, w: Weights, em: Emissions, y: Tagging, t: nat)
    requires Shaped(n, w, em) && LinearChain.IsTagging(n, y) && t < |y| <= |em|
    ensures !Less(Best(n, w, em, t)[y[t]], PathScore(n, w, em, y, t))
  {
    if t > 0 {
      var p, i, j := Best(n, w, em, t - 1), y[t - 1], y[t];
      var a := PathScore(n, w, em, y, t - 1);
      BestIsUpperBound(n, w, em, y, t - 1);
      ColumnCell(p, w.trans, em[t], n, j);
      ArgBestIsMax(p, w.trans[j], em[t][j], n, i);
    }
  }

  lemma BestPathExtends(n: nat, w: Weights, em: Emissions, t: nat, j: nat)
    requires Shaped(n, w, em) && 1 <= t < |em| && j < n
    ensures var i := ArgBest(Best(n, w, em, t - 1), w.trans[j], em[t][j], n);
      BestPath(n, w, em, t, j) == BestPath(n, w, em, t - 1, i) + [j]
  {
    var p := Best(n, w, em, t - 1);
    ColumnCell(p, w.trans, em[t], n, j);
    LinearChain.FollowLocal(n, History(n, w, em, t), History(n, w, em, t - 1), t - 1, BackTo(p, w.trans, em[t], n)[j]);
  }

  lemma PathScoreSnoc(n: nat, w: Weights, em: Emissions, x: Tagging, i: nat, j: nat)
    requires Shaped(n, w, em) && LinearChain.IsTagging(n, x) && 1 <= |x| < |em| && x[|x| - 1] == i && i < n && j < n
    ensures LinearChain.IsTagging(n, x + [j])
    ensures PathScore(n, w, em, x + [j], |x|) == Add(Add(PathScore(n, w, em, x, |x| - 1), w.trans[j][i]), em[|x|][j])
  {
    PathScoreLocal(n, w, em, x + [j], x, |x| - 1);
  }

  /** The back-pointers realise exactly the maximum held in the column. */
  lemma {:induction false} BestPathAttains(n: nat, w: Weights, em: Emissions, t: nat, j: nat)
    requires Shaped(n, w, em) && t < |em| && j < n
    ensures PathScore(n, w, em, BestPath(n, w, em, t, j), t) == Best(n, w, em, t)[j]
  {
    if t > 0 {
      var p := Best(n, w, em, t - 1);
      var i := ArgBest(p, w.trans[j], em[t][j], n);
      ColumnCell(p, w.trans, em[t], n, j);
      BestPathExtends(n, w, em, t, j);
      BestPathAttains(n, w, em, t - 1, i);
      PathScoreSnoc(n, w, em, BestPath(n, w, em, t - 1, i), i, j);
    }
  }

  /** The path decoded from the first best final state: no path of its length beats it. */
  lemma DecodedIsBest(n: nat, w: Weights, em: Emissions, t: nat, z: Tagging)
    requires Shaped(n, w, em) && t < |em| && |z| == t + 1 && LinearChain.IsTagging(n, z)
    ensures !Less(PathScore(n, w, em, BestPath(n, w, em, t, ArgMax(Best(n, w, em, t), n)), t), PathScore(n, w, em, z, t))
  {
    var c := Best(n, w, em, t);
    BestIsUpperBound(n, w, em, z, t);
    ArgMaxIsMax(c, n, z[t]);
    BestPathAttains(n, w, em, t, ArgMax(c, n));
  }
}
