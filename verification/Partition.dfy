/** The forward recursion in the log domain: a sum over taggings. */
module Partition {
  import opened LinearChain

  datatype ExpLog = ExpLog(exp: real -> real, log: real -> real)

  function Exp(x: ExpLog, a: real): real { x.exp(a) }

  function Log(x: ExpLog, p: real): real { x.log(p) }

  function Plus(a: real, b: real): real { a + b }

  function Times(a: real, b: real): real { a * b }

  predicate Less(a: real, b: real) { a < b }

  /** The laws of the real exponential that the proofs rest on. */
  ghost predicate Laws(x: ExpLog) {
    && (forall a {:trigger Exp(x, a)} :: Exp(x, a) > 0.0)
    && (forall a, b {:trigger Plus(a, b)} :: Exp(x, Plus(a, b)) == Times(Exp(x, a), Exp(x, b)))
    && (forall a, b {:trigger Less(a, b)} :: Less(a, b) ==> Exp(x, a) < Exp(x, b))
    && (forall p {:trigger Log(x, p)} :: p > 0.0 ==> Exp(x, Log(x, p)) == p)
  }

  lemma ExpOfSum(x: ExpLog, a: real, b: real)
    requires Laws(x)
    ensures Exp(x, a + b) == Times(Exp(x, a), Exp(x, b))
  {
    assert Plus(a, b) == a + b;
  }

  lemma ExpReflectsOrder(x: ExpLog, a: real, b: real)
    requires Laws(x) && Exp(x, a) <= Exp(x, b)
    ensures a <= b
  {
    assert !Less(b, a);
  }

  lemma TimesDistributes(a: real, b: real, r: real)
    ensures Times(a + b, r) == Times(a, r) + Times(b, r)
  {
  }

  // ------------------------------------------------------------ the recursion

  function SumExp(x: ExpLog, xs: seq<real>, m: nat): real
    requires m <= |xs|
  {
    if m == 0 then 0.0 else SumExp(x, xs, m - 1) + Exp(x, xs[m - 1])
  }

  lemma {:induction false} SumExpPositive(x: ExpLog, xs: seq<real>, m: nat)
    requires Laws(x) && m <= |xs|
    ensures SumExp(x, xs, m) >= 0.0 && (m >= 1 ==> SumExp(x, xs, m) > 0.0)
  {
    if m > 0 {
      SumExpPositive(x, xs, m - 1);
      assert Exp(x, xs[m - 1]) > 0.0;
    }
  }

  function LogSumExp(x: ExpLog, xs: seq<real>): real {
    Log(x, SumExp(x, xs, |xs|))
  }

  lemma ExpOfLogSumExp(x: ExpLog, xs: seq<real>)
    requires Laws(x) && |xs| >= 1
    ensures Exp(x, LogSumExp(x, xs)) == SumExp(x, xs, |xs|)
  {
    SumExpPositive(x, xs, |xs|);
  }

  function CandidatesTo(score: seq<real>, row: seq<real>, e: real, m: nat): (c: seq<real>)
    requires |score| == |row| && m <= |row|
    ensures |c| == m
    ensures forall i {:trigger c[i]} | 0 <= i < m :: c[i] == Via(score, row, e, i)
  {
    if m == 0 then [] else CandidatesTo(score, row, e, m - 1) + [Via(score, row, e, m - 1)]
  }

  /** One row of `score.unsqueeze(1) + trans_score + emit_score`: the ways into a tag. */
  function Candidates(score: seq<real>, row: seq<real>, e: real): (c: seq<real>)
    requires |score| == |row|
    ensures |c| == |row|
    ensures forall i {:trigger c[i]} | 0 <= i < |c| :: c[i] == Via(score, row, e, i)
  {
    CandidatesTo(score, row, e, |row|)
  }

  function LseColumnTo(x: ExpLog, n: nat, w: Weights, score: seq<real>, emit: seq<real>, m: nat): (c: seq<real>)
    requires WeightsShaped(n, w) && |score| == n && |emit| == n && m <= n
    ensures |c| == m
  {
    if m == 0 then []
    else LseColumnTo(x, n, w, score, emit, m - 1) + [LogSumExp(x, Candidates(score, w.trans[m - 1], emit[m - 1]))]
  }

  lemma {:induction false} LseCell(x: ExpLog, n: nat, w: Weights, score: seq<real>, emit: seq<real>, m: nat, j: nat)
    requires WeightsShaped(n, w) && |score| == n && |emit| == n && j < m <= n
    ensures LseColumnTo(x, n, w, score, emit, m)[j] == LogSumExp(x, Candidates(score, w.trans[j], emit[j]))
  {
    if j < m - 1 {
      LseCell(x, n, w, score, emit, m - 1, j);
    }
  }

  function LseColumn(x: ExpLog, n: nat, w: Weights, score: seq<real>, emit: seq<real>): (c: seq<real>)
    requires WeightsShaped(n, w) && |score| == n && |emit| == n
    ensures |c| == n
  {
    LseColumnTo(x, n, w, score, emit, n)
  }

  /** The forward column after position t. */
  function Alpha(x: ExpLog, n: nat, w: Weights, em: Emissions, t: nat): (c: seq<real>)
    requires Shaped(n, w, em) && t < |em|
    ensures |c| == n
  {
    if t == 0 then StartColumn(w, em)
    else LseColumn(x, n, w, Alpha(x, n, w, em, t - 1), em[t])
  }

  /** The forward score of a whole row. */
  function LogPartition(x: ExpLog, n: nat, w: Weights, em: Emissions): real
    requires Shaped(n, w, em)
  {
    LogSumExp(x, AddEnd(w, Alpha(x, n, w, em, |em| - 1)))
  }

  // --------------------------------------- sums over all tag sequences of a row

  /** What is summed: the exponentiated sentence score, or the indicator of one sequence. */
  datatype Summand =
    | ScoreMass(x: ExpLog, n: nat, w: Weights, em: Emissions)
    | Indicator(y: Tagging)

  function Eval(f: Summand, s: Tagging): real {
    match f
    case ScoreMass(x, n, w, em) =>
      if Shaped(n, w, em) && IsTagging(n, s) && |s| == |em| then Exp(x, Score(n, w, em, s)) else 0.0
    case Indicator(y) =>
      if s == y then 1.0 else 0.0
  }

  /** The sum of f over every sequence of len tags out of n that ends in s. */
  function SumEnding(n: nat, len: nat, f: Summand, s: Tagging): real
    requires |s| <= len
    decreases len - |s|, n + 1
  {
    if |s| == len then Eval(f, s) else SumFirst(n, len, f, s, n)
  }

  /** The part of that sum in which the tag before s is one of 0 .. m. */
  function SumFirst(n: nat, len: nat, f: Summand, s: Tagging, m: nat): real
    requires |s| < len && m <= n
    decreases len - |s|, m
  {
    if m == 0 then 0.0
    else SumFirst(n, len, f, s, m - 1) + SumEnding(n, len, f, [m - 1] + s)
  }

  function SumOverTaggings(n: nat, len: nat, f: Summand): real {
    SumEnding(n, len, f, [])
  }

  predicate EndsIn(y: Tagging, s: Tagging) {
    |s| <= |y| && y[|y| - |s|..] == s
  }

  lemma EndsInLonger(y: Tagging, s: Tagging, i: nat)
    requires |s| < |y|
    ensures EndsIn(y, [i] + s) <==> EndsIn(y, s) && y[|y| - |s| - 1] == i
  {
    var p := |y| - |s| - 1;
    assert y[p..] == [y[p]] + y[p + 1..];
    if EndsIn(y, [i] + s) {
      assert y[p..][0] == i && y[p..][1..] == s;
    }
  }

  /** The sum visits every tag sequence of the length exactly once: the sum of the
      indicator of y is one if y ends in s, and zero otherwise. */
  lemma {:induction false} EachTaggingOnce(n: nat, len: nat, y: Tagging, s: Tagging)
    requires |y| == len && IsTagging(n, y) && |s| <= len
    ensures SumEnding(n, len, Indicator(y), s) == if EndsIn(y, s) then 1.0 else 0.0
    decreases len - |s|, n + 1
  {
    if |s| < len {
      FirstTagOnce(n, len, y, s, n);
    }
  }

  lemma {:induction false} FirstTagOnce(n: nat, len: nat, y: Tagging, s: Tagging, m: nat)
    requires |y| == len && IsTagging(n, y) && |s| < len && m <= n
    ensures SumFirst(n, len, Indicator(y), s, m)
         == if EndsIn(y, s) && y[len - |s| - 1] < m then 1.0 else 0.0
    decreases len - |s|, m
  {
    if m > 0 {
      FirstTagOnce(n, len, y, s, m - 1);
      EachTaggingOnce(n, len, y, [m - 1] + s);
      EndsInLonger(y, s, m - 1);
    }
  }

  ghost predicate NonNegative(f: Summand) {
    f.Indicator? || Laws(f.x)
  }

  /** A summand is at most the sum. */
  lemma {:induction false} SumAtLeastTerm(n: nat, len: nat, f: Summand, y: Tagging, s: Tagging)
    requires NonNegative(f) && |y| == len && IsTagging(n, y) && |s| <= len
    ensures SumEnding(n, len, f, s) >= if EndsIn(y, s) then Eval(f, y) else 0.0
    decreases len - |s|, n + 1
  {
    if |s| < len {
      FirstAtLeastTerm(n, len, f, y, s, n);
    }
  }

  lemma {:induction false} FirstAtLeastTerm(n: nat, len: nat, f: Summand, y: Tagging, s: Tagging, m: nat)
    requires NonNegative(f) && |y| == len && IsTagging(n, y) && |s| < len && m <= n
    ensures SumFirst(n, len, f, s, m) >= if EndsIn(y, s) && y[len - |s| - 1] < m then Eval(f, y) else 0.0
    decreases len - |s|, m
  {
    if m > 0 {
      FirstAtLeastTerm(n, len, f, y, s, m - 1);
      SumAtLeastTerm(n, len, f, y, [m - 1] + s);
      EndsInLonger(y, s, m - 1);
    }
  }

  // ------------------------------------------------ the recursion computes that sum

  /** What the tags s contribute after the first of them, which stands at position t. */
  function TailScore(n: nat, w: Weights, em: Emissions, t: nat, s: Tagging): real
    requires Shaped(n, w, em) && IsTagging(n, s) && |s| >= 1 && t + |s| == |em|
    decreases |s|
  {
    if |s| == 1 then w.end[s[0]]
    else em[t + 1][s[1]] + w.trans[s[1]][s[0]] + TailScore(n, w, em, t + 1, s[1..])
  }

  lemma {:induction false} ScoreSplits(n: nat, w: Weights, em: Emissions, y: Tagging, t: nat)
    requires Shaped(n, w, em) && IsTagging(n, y) && |y| == |em| && t < |em|
    ensures Score(n, w, em, y) == PrefixScore(n, w, em, y, t) + TailScore(n, w, em, t, y[t..])
    decreases |em| - t
  {
    if t + 1 < |em| {
      ScoreSplits(n, w, em, y, t + 1);
      assert y[t..][1..] == y[t + 1..];
    }
  }

  lemma {:induction false} SumFirstIsSumExp(x: ExpLog, n: nat, len: nat, f: Summand, s: Tagging, c: seq<real>, r: real, m: nat)
    requires |s| < len && |c| == n && m <= n
    requires forall i: nat | i < n :: SumEnding(n, len, f, [i] + s) == Times(Exp(x, c[i]), r)
    ensures SumFirst(n, len, f, s, m) == Times(SumExp(x, c, m), r)
  {
    if m > 0 {
      var i: nat := m - 1;
      SumFirstIsSumExp(x, n, len, f, s, c, r, i);
      assert SumEnding(n, len, f, [i] + s) == Times(Exp(x, c[i]), r);
      TimesDistributes(SumExp(x, c, i), Exp(x, c[i]), r);
    }
  }

  /** Coming from tag i: the weight of the longer rest is one candidate and the shorter rest. */
  lemma StepWeight(x: ExpLog, n: nat, w: Weights, em: Emissions, t: nat, a: seq<real>, i: nat, s: Tagging)
    requires Laws(x) && Shaped(n, w, em) && IsTagging(n, s) && i < n && |s| >= 1 && t >= 1 && t + |s| == |em| && |a| == n
    ensures Exp(x, a[i] + TailScore(n, w, em, t - 1, [i] + s))
         == Times(Exp(x, Candidates(a, w.trans[s[0]], em[t][s[0]])[i]), Exp(x, TailScore(n, w, em, t, s)))
  {
    var tail := TailScore(n, w, em, t, s);
    assert ([i] + s)[1..] == s;
    assert TailScore(n, w, em, t - 1, [i] + s) == em[t][s[0]] + w.trans[s[0]][i] + tail;
    ExpOfSum(x, Candidates(a, w.trans[s[0]], em[t][s[0]])[i], tail);
  }

  lemma StepWeights(x: ExpLog, n: nat, w: Weights, em: Emissions, f: Summand, t: nat, a: seq<real>, s: Tagging)
    requires Laws(x) && Shaped(n, w, em) && IsTagging(n, s) && |s| >= 1 && t >= 1 && t + |s| == |em| && |a| == n
    requires forall i: nat | i < n :: SumEnding(n, |em|, f, [i] + s) == Exp(x, a[i] + TailScore(n, w, em, t - 1, [i] + s))
    ensures forall i: nat | i < n ::
      SumEnding(n, |em|, f, [i] + s)
      == Times(Exp(x, Candidates(a, w.trans[s[0]], em[t][s[0]])[i]), Exp(x, TailScore(n, w, em, t, s)))
  {
    forall i: nat | i < n
      ensures SumEnding(n, |em|, f, [i] + s)
           == Times(Exp(x, Candidates(a, w.trans[s[0]], em[t][s[0]])[i]), Exp(x, TailScore(n, w, em, t, s)))
    {
      StepWeight(x, n, w, em, t, a, i, s);
    }
  }

  lemma LogSumFactor(x: ExpLog, c: seq<real>, tail: real)
    requires Laws(x) && |c| >= 1
    ensures Times(SumExp(x, c, |c|), Exp(x, tail)) == Exp(x, LogSumExp(x, c) + tail)
  {
    ExpOfLogSumExp(x, c);
    ExpOfSum(x, LogSumExp(x, c), tail);
  }

  lemma AlphaCell(x: ExpLog, n: nat, w: Weights, em: Emissions, t: nat, j: nat)
    requires Shaped(n, w, em) && 1 <= t < |em| && j < n
    ensures Alpha(x, n, w, em, t)[j] == LogSumExp(x, Candidates(Alpha(x, n, w, em, t - 1), w.trans[j], em[t][j]))
  {
    LseCell(x, n, w, Alpha(x, n, w, em, t - 1), em[t], n, j);
  }

  /** The sum over sequences ending in s, given the sums one tag earlier. */
  lemma EndingSumStep(x: ExpLog, n: nat, w: Weights, em: Emissions, f: Summand, t: nat, a: seq<real>, s: Tagging)
    requires Laws(x) && Shaped(n, w, em) && IsTagging(n, s) && |s| >= 1 && t >= 1 && t + |s| == |em| && |a| == n
    requires forall i: nat | i < n :: SumEnding(n, |em|, f, [i] + s) == Exp(x, a[i] + TailScore(n, w, em, t - 1, [i] + s))
    ensures SumEnding(n, |em|, f, s)
         == Exp(x, LogSumExp(x, Candidates(a, w.trans[s[0]], em[t][s[0]])) + TailScore(n, w, em, t, s))
  {
    StepWeights(x, n, w, em, f, t, a, s);
    EndingSumFactor(x, n, |em|, f, s, Candidates(a, w.trans[s[0]], em[t][s[0]]), TailScore(n, w, em, t, s));
  }

  lemma EndingSumFactor(x: ExpLog, n: nat, len: nat, f: Summand, s: Tagging, c: seq<real>, tail: real)
    requires Laws(x) && 1 <= |s| < len && |c| == n >= 1
    requires forall i: nat | i < n :: SumEnding(n, len, f, [i] + s) == Times(Exp(x, c[i]), Exp(x, tail))
    ensures SumEnding(n, len, f, s) == Exp(x, LogSumExp(x, c) + tail)
  {
    SumFirstIsSumExp(x, n, len, f, s, c, Exp(x, tail), n);
    LogSumFactor(x, c, tail);
  }

  lemma SumOfWhole(x: ExpLog, n: nat, w: Weights, em: Emissions, s: Tagging)
    requires Shaped(n, w, em) && IsTagging(n, s) && |s| == |em|
    ensures SumEnding(n, |em|, ScoreMass(x, n, w, em), s)
         == Exp(x, Alpha(x, n, w, em, 0)[s[0]] + TailScore(n, w, em, 0, s))
  {
    ScoreSplits(n, w, em, s, 0);
    assert s[0..] == s;
  }

  /** The sum over sequences ending in s is the forward cell of its first tag times the
      weight of the rest. */
  predicate EndsAs(x: ExpLog, n: nat, w: Weights, em: Emissions, t: nat, s: Tagging)
    requires Shaped(n, w, em) && IsTagging(n, s) && |s| >= 1 && t + |s| == |em|
  {
    SumEnding(n, |em|, ScoreMass(x, n, w, em), s) == Exp(x, Alpha(x, n, w, em, t)[s[0]] + TailScore(n, w, em, t, s))
  }

  lemma EndingSumNext(x: ExpLog, n: nat, w: Weights, em: Emissions, t: nat, s: Tagging)
    requires Laws(x) && Shaped(n, w, em) && IsTagging(n, s) && |s| >= 1 && t >= 1 && t + |s| == |em|
    requires forall i: nat | i < n :: EndsAs(x, n, w, em, t - 1, [i] + s)
    ensures EndsAs(x, n, w, em, t, s)
  {
    forall i: nat | i < n
      ensures SumEnding(n, |em|, ScoreMass(x, n, w, em), [i] + s)
           == Exp(x, Alpha(x, n, w, em, t - 1)[i] + TailScore(n, w, em, t - 1, [i] + s))
    {
      assert EndsAs(x, n, w, em, t - 1, [i] + s);
      assert ([i] + s)[0] == i;
    }
    EndingSumStep(x, n, w, em, ScoreMass(x, n, w, em), t, Alpha(x, n, w, em, t - 1), s);
    AlphaCell(x, n, w, em, t, s[0]);
  }

  lemma {:induction false} EndingSum(x: ExpLog, n: nat, w: Weights, em: Emissions, t: nat, s: Tagging)
    requires Laws(x) && Shaped(n, w, em) && IsTagging(n, s) && |s| >= 1 && t + |s| == |em|
    ensures EndsAs(x, n, w, em, t, s)
    decreases t
  {
    if t == 0 {
      SumOfWhole(x, n, w, em, s);
    } else {
      forall i: nat | i < n
        ensures EndsAs(x, n, w, em, t - 1, [i] + s)
      {
        EndingSum(x, n, w, em, t - 1, [i] + s);
      }
      EndingSumNext(x, n, w, em, t, s);
    }
  }

  lemma WholeSum(x: ExpLog, n: nat, len: nat, f: Summand, c: seq<real>)
    requires Laws(x) && |c| == n >= 1 && len >= 1
    requires forall i: nat | i < n :: SumEnding(n, len, f, [i]) == Exp(x, c[i])
    ensures SumOverTaggings(n, len, f) == Exp(x, LogSumExp(x, c))
  {
    forall i: nat | i < n
      ensures SumEnding(n, len, f, [i] + []) == Times(Exp(x, c[i]), 1.0)
    {
      assert [i] + [] == [i];
    }
    SumFirstIsSumExp(x, n, len, f, [], c, 1.0, n);
    ExpOfLogSumExp(x, c);
  }

  /** The forward score is the log of the sum, over all tag sequences of the row, of the
      exponentiated sentence score. */
  lemma PartitionIsSumOverTaggings(x: ExpLog, n: nat, w: Weights, em: Emissions)
    requires Laws(x) && Shaped(n, w, em)
    ensures SumOverTaggings(n, |em|, ScoreMass(x, n, w, em)) == Exp(x, LogPartition(x, n, w, em))
  {
    var f, c := ScoreMass(x, n, w, em), AddEnd(w, Alpha(x, n, w, em, |em| - 1));
    forall i: nat | i < n
      ensures SumEnding(n, |em|, f, [i]) == Exp(x, c[i])
    {
      EndingSum(x, n, w, em, |em| - 1, [i]);
    }
    WholeSum(x, n, |em|, f, c);
  }

  /** The negative log-likelihood of any tag sequence of the row is never negative. */
  lemma LossIsNonNegative(x: ExpLog, n: nat, w: Weights, em: Emissions, y: Tagging)
    requires Laws(x) && Shaped(n, w, em) && IsTagging(n, y) && |y| == |em|
    ensures Score(n, w, em, y) <= LogPartition(x, n, w, em)
  {
    PartitionIsSumOverTaggings(x, n, w, em);
    SumAtLeastTerm(n, |em|, ScoreMass(x, n, w, em), y, []);
    ExpReflectsOrder(x, Score(n, w, em, y), LogPartition(x, n, w, em));
  }
}
