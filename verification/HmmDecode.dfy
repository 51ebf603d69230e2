/** The Viterbi decoder of the hidden Markov tagger. */
module HmmDecode {
  import opened LogChain
  import LinearChain

  datatype Model = Model(
    states: seq<string>,
    emissions: map<string, map<string, real>>,
    transitions: map<string, real>,
    initial: map<string, real>,
    backoff: map<string, map<string, real>>,
    smoothing: real)

  /** Library calls: lower-casing, the names of the true boolean features of a word in
      dictionary order, and the natural logarithm. */
  datatype Library = Library(lower: string -> string, features: string -> seq<string>, log: real -> real)

  const FLOOR: real := 0.0000000001

  function Lower(lib: Library, word: string): string { lib.lower(word) }

  function Features(lib: Library, word: string): seq<string> { lib.features(word) }

  function Log(lib: Library, p: real): real { lib.log(p) }

  function Max(a: real, b: real): real { if b > a then b else a }

  function Get(m: map<string, real>, key: string, default: real): real {
    if key in m then m[key] else default
  }

  function WordTable(m: Model, state: string): map<string, real> {
    if state in m.emissions then m.emissions[state] else map[]
  }

  /** The largest of p and the backoff entries of the first k features. */
  function BackedOff(m: Model, state: string, p: real, feats: seq<string>, k: nat): real
    requires k <= |feats|
  {
    if k == 0 then p
    else
      var q := BackedOff(m, state, p, feats, k - 1);
      if feats[k - 1] in m.backoff then Max(q, Get(m.backoff[feats[k - 1]], state, m.smoothing)) else q
  }

  /** P(word | state): the table entry, or for a word the state's table lacks the largest of
      the smoothing and the backoff entries of the word's features. */
  function EmitProb(lib: Library, m: Model, state: string, word: string): real {
    var w := Lower(lib, word);
    var p := Get(WordTable(m, state), w, m.smoothing);
    if w in WordTable(m, state) then p
    else BackedOff(m, state, p, Features(lib, word), |Features(lib, word)|)
  }

  lemma {:induction false} BackedOffIsMax(m: Model, state: string, p: real, feats: seq<string>, k: nat)
    requires k <= |feats|
    ensures var r := BackedOff(m, state, p, feats, k);
      && p <= r
      && (forall i | 0 <= i < k && feats[i] in m.backoff :: Get(m.backoff[feats[i]], state, m.smoothing) <= r)
      && (r == p || exists i :: 0 <= i < k && feats[i] in m.backoff && r == Get(m.backoff[feats[i]], state, m.smoothing))
  {
    if k > 0 {
      BackedOffIsMax(m, state, p, feats, k - 1);
    }
  }

  function LogEmit(lib: Library, m: Model, j: nat, word: string): real
    requires j < |m.states|
  {
    Log(lib, Max(EmitProb(lib, m, m.states[j], word), FLOOR))
  }

  function LogStep(lib: Library, m: Model, i: nat, j: nat): real
    requires i < |m.states| && j < |m.states|
  {
    Log(lib, Max(Get(m.transitions, m.states[i] + "->" + m.states[j], m.smoothing), FLOOR))
  }

  /** What the decoder asks of the model: states, each with an initial probability. */
  predicate Usable(m: Model) {
    |m.states| >= 1 && forall j | 0 <= j < |m.states| :: m.states[j] in m.initial && m.initial[m.states[j]] >= 0.0
  }

  /** `np.log`, which is minus infinity at zero. */
  function LogInitial(lib: Library, m: Model, j: nat): LogScore
    requires Usable(m) && j < |m.states|
  {
    var p := m.initial[m.states[j]];
    if p == 0.0 then NegInf else Finite(Log(lib, p))
  }

  /** The log-probability of the first t + 1 words with the given states. */
  function LogProb(lib: Library, m: Model, words: seq<string>, y: Tagging, t: nat): LogScore
    requires Usable(m) && LinearChain.IsTagging(|m.states|, y) && t < |y| == |words|
  {
    if t == 0 then Add(LogInitial(lib, m, y[0]), LogEmit(lib, m, y[0], words[0]))
    else Add(Add(LogProb(lib, m, words, y, t - 1), LogStep(lib, m, y[t - 1], y[t])), LogEmit(lib, m, y[t], words[t]))
  }

  // ------------------------------------------------------ the model as a chain

  function InitialTo(lib: Library, m: Model, k: nat): (r: seq<LogScore>)
    requires Usable(m) && k <= |m.states|
    ensures |r| == k
    ensures forall j: nat {:trigger r[j]} | j < k :: r[j] == LogInitial(lib, m, j)
  {
    if k == 0 then [] else InitialTo(lib, m, k - 1) + [LogInitial(lib, m, k - 1)]
  }

  function StepRowTo(lib: Library, m: Model, j: nat, k: nat): (r: seq<real>)
    requires j < |m.states| && k <= |m.states|
    ensures |r| == k
    ensures forall i: nat {:trigger r[i]} | i < k :: r[i] == LogStep(lib, m, i, j)
  {
    if k == 0 then [] else StepRowTo(lib, m, j, k - 1) + [LogStep(lib, m, k - 1, j)]
  }

  function StepRowsTo(lib: Library, m: Model, k: nat): (r: seq<seq<real>>)
    requires k <= |m.states|
    ensures |r| == k
    ensures forall j: nat {:trigger r[j]} | j < k :: r[j] == StepRowTo(lib, m, j, |m.states|)
  {
    if k == 0 then [] else StepRowsTo(lib, m, k - 1) + [StepRowTo(lib, m, k - 1, |m.states|)]
  }

  function EmitRowTo(lib: Library, m: Model, word: string, k: nat): (r: seq<real>)
    requires k <= |m.states|
    ensures |r| == k
    ensures forall j: nat {:trigger r[j]} | j < k :: r[j] == LogEmit(lib, m, j, word)
  {
    if k == 0 then [] else EmitRowTo(lib, m, word, k - 1) + [LogEmit(lib, m, k - 1, word)]
  }

  function EmitRowsTo(lib: Library, m: Model, words: seq<string>, k: nat): (r: seq<seq<real>>)
    requires k <= |words|
    ensures |r| == k
    ensures forall t: nat {:trigger r[t]} | t < k :: r[t] == EmitRowTo(lib, m, words[t], |m.states|)
  {
    if k == 0 then [] else EmitRowsTo(lib, m, words, k - 1) + [EmitRowTo(lib, m, words[k - 1], |m.states|)]
  }

  function Chain(lib: Library, m: Model): (w: Weights)
    requires Usable(m)
    ensures |w.start| == |w.trans| == |m.states| && forall j | 0 <= j < |m.states| :: |w.trans[j]| == |m.states|
  {
    var n := |m.states|;
    Weights(InitialTo(lib, m, n), StepRowsTo(lib, m, n))
  }

  function Observed(lib: Library, m: Model, words: seq<string>): (em: Emissions)
    requires Usable(m) && |words| >= 1
    ensures |em| == |words| && Shaped(|m.states|, Chain(lib, m), em)
  {
    EmitRowsTo(lib, m, words, |words|)
  }

  lemma ChainCells(lib: Library, m: Model, words: seq<string>, t: nat, i: nat, j: nat)
    requires Usable(m) && t < |words| && i < |m.states| && j < |m.states|
    ensures Chain(lib, m).start[j] == LogInitial(lib, m, j)
    ensures Chain(lib, m).trans[j][i] == LogStep(lib, m, i, j)
    ensures Observed(lib, m, words)[t][j] == LogEmit(lib, m, j, words[t])
  {
    assert Chain(lib, m).trans[j] == StepRowTo(lib, m, j, |m.states|);
    assert Observed(lib, m, words)[t] == EmitRowTo(lib, m, words[t], |m.states|);
  }

  lemma {:induction false} LogProbIsScore(lib: Library, m: Model, words: seq<string>, y: Tagging, t: nat)
    requires Usable(m) && LinearChain.IsTagging(|m.states|, y) && t < |y| == |words|
    ensures PathScore(|m.states|, Chain(lib, m), Observed(lib, m, words), y, t) == LogProb(lib, m, words, y, t)
  {
    ChainCells(lib, m, words, t, y[0], y[t]);
    if t > 0 {
      LogProbIsScore(lib, m, words, y, t - 1);
      ChainCells(lib, m, words, t, y[t - 1], y[t]);
    }
  }

  // ---------------------------------------------------------------- decoding

  /** The state indices that the decoder's path names. */
  function DecodedStates(lib: Library, m: Model, words: seq<string>): (y: Tagging)
    requires Usable(m) && |words| >= 1
    ensures |y| == |words| && LinearChain.IsTagging(|m.states|, y)
  {
    var n, w, em, t := |m.states|, Chain(lib, m), Observed(lib, m, words), |words| - 1;
    BestPath(n, w, em, t, ArgMax(Best(n, w, em, t), n))
  }

  function Names(states: seq<string>, y: Tagging, k: nat): (r: seq<string>)
    requires LinearChain.IsTagging(|states|, y) && k <= |y|
    ensures |r| == k
    ensures forall t {:trigger r[t]} | 0 <= t < k :: r[t] == states[y[t]]
  {
    if k == 0 then [] else Names(states, y, k - 1) + [states[y[k - 1]]]
  }

  /** No sequence of states explains the words with a larger log-probability. */
  lemma DecodedIsMostProbable(lib: Library, m: Model, words: seq<string>, z: Tagging)
    requires Usable(m) && |words| >= 1 && |z| == |words| && LinearChain.IsTagging(|m.states|, z)
    ensures !Less(LogProb(lib, m, words, DecodedStates(lib, m, words), |words| - 1), LogProb(lib, m, words, z, |words| - 1))
  {
    var t := |words| - 1;
    LogProbIsScore(lib, m, words, z, t);
    LogProbIsScore(lib, m, words, DecodedStates(lib, m, words), t);
    DecodedIsBest(|m.states|, Chain(lib, m), Observed(lib, m, words), t, z);
  }

  // ---------------------------------------------------------------- the probability of a path

  function Times(a: real, b: real): real { a * b }

  predicate Below(a: real, b: real) { a < b }

  /** The laws of the natural logarithm that the results here rest on. */
  ghost predicate LogLaws(lib: Library) {
    && (forall a, b {:trigger Times(a, b)} | a > 0.0 && b > 0.0 :: Log(lib, Times(a, b)) == Log(lib, a) + Log(lib, b))
    && (forall a, b {:trigger Below(a, b)} | Below(a, b) && a > 0.0 :: Log(lib, a) < Log(lib, b))
  }

  predicate IsLargest(s: set<real>, r: real) {
    r in s && forall x | x in s :: x <= r
  }

  /** The entries of a word's features for a state. */
  function Entries(m: Model, state: string, feats: seq<string>): set<real> {
    set f | f in feats && f in m.backoff && state in m.backoff[f] :: m.backoff[f][state]
  }

  lemma BackedOffIsLargest(m: Model, state: string, feats: seq<string>)
    ensures IsLargest({m.smoothing} + Entries(m, state, feats), BackedOff(m, state, m.smoothing, feats, |feats|))
  {
    var r := BackedOff(m, state, m.smoothing, feats, |feats|);
    BackedOffIsMax(m, state, m.smoothing, feats, |feats|);
    forall x | x in Entries(m, state, feats)
      ensures x <= r
    {
      var f :| f in feats && f in m.backoff && state in m.backoff[f] && x == m.backoff[f][state];
      var i :| 0 <= i < |feats| && feats[i] == f;
    }
    if r != m.smoothing {
      var i :| 0 <= i < |feats| && feats[i] in m.backoff && r == Get(m.backoff[feats[i]], state, m.smoothing);
      assert feats[i] in feats && r in Entries(m, state, feats);
    }
  }

  /** The largest of the smoothing value and the entries of the features. */
  ghost function LargestEntry(m: Model, state: string, feats: seq<string>): (r: real)
    ensures IsLargest({m.smoothing} + Entries(m, state, feats), r)
  {
    BackedOffIsLargest(m, state, feats);
    var r :| IsLargest({m.smoothing} + Entries(m, state, feats), r);
    r
  }

  /** The probability of a word in a state: its entry in the state's table, or for a word
      that is not there the largest of the smoothing value and the entries of its features. */
  ghost function WordProb(lib: Library, m: Model, state: string, word: string): real {
    if state in m.emissions && Lower(lib, word) in m.emissions[state] then m.emissions[state][Lower(lib, word)]
    else LargestEntry(m, state, Features(lib, word))
  }

  /** The probability of a step between two states, under the key `from->to`. */
  function StepProb(m: Model, from: string, to: string): real {
    if from + "->" + to in m.transitions then m.transitions[from + "->" + to] else m.smoothing
  }

  function Floored(p: real): real { if p < FLOOR then FLOOR else p }

  /** The product, over the first k + 1 words, of the initial entry of the first state, the
      probabilities of the steps between neighbours and those of the words, the last two
      raised to the floor. */
  ghost function PathProb(lib: Library, m: Model, words: seq<string>, path: seq<string>, k: nat): real
    requires k < |path| == |words| && path[0] in m.initial
  {
    var word := Floored(WordProb(lib, m, path[k], words[k]));
    if k == 0 then Times(m.initial[path[0]], word)
    else Times(Times(PathProb(lib, m, words, path, k - 1), Floored(StepProb(m, path[k - 1], path[k]))), word)
  }

  /** A word's probability does not depend on the order of its features. */
  lemma EmitIsWordProb(lib: Library, m: Model, state: string, word: string)
    ensures EmitProb(lib, m, state, word) == WordProb(lib, m, state, word)
  {
    BackedOffIsLargest(m, state, Features(lib, word));
  }

  lemma FactorsAreLogged(lib: Library, m: Model, i: nat, j: nat, word: string)
    requires i < |m.states| && j < |m.states|
    ensures LogEmit(lib, m, j, word) == Log(lib, Floored(WordProb(lib, m, m.states[j], word)))
    ensures LogStep(lib, m, i, j) == Log(lib, Floored(StepProb(m, m.states[i], m.states[j])))
  {
    EmitIsWordProb(lib, m, m.states[j], word);
  }

  /** path names the states y. */
  predicate Spells(m: Model, y: Tagging, path: seq<string>) {
    |y| == |path| && LinearChain.IsTagging(|m.states|, y) && forall t | 0 <= t < |y| :: path[t] == m.states[y[t]]
  }

  function LogOf(lib: Library, p: real): LogScore { if p == 0.0 then NegInf else Finite(Log(lib, p)) }

  lemma LogOfProduct(lib: Library, a: real, b: real)
    requires LogLaws(lib) && a >= 0.0 && b > 0.0
    ensures Times(a, b) >= 0.0 && LogOf(lib, Times(a, b)) == Add(LogOf(lib, a), Log(lib, b))
  {
    assert a > 0.0 ==> Times(a, b) > 0.0;
  }

  lemma ScoreGrows(lib: Library, p: real, step: real, word: real, a: LogScore)
    requires LogLaws(lib) && p >= 0.0 && step > 0.0 && word > 0.0 && a == LogOf(lib, p)
    ensures Times(Times(p, step), word) >= 0.0
    ensures Add(Add(a, Log(lib, step)), Log(lib, word)) == LogOf(lib, Times(Times(p, step), word))
  {
    LogOfProduct(lib, p, step);
    LogOfProduct(lib, Times(p, step), word);
  }

  /** The score the decoder maximises is the logarithm of the probability of the path. */
  lemma {:induction false} LogProbIsLog(lib: Library, m: Model, words: seq<string>, y: Tagging, path: seq<string>, k: nat)
    requires LogLaws(lib) && Usable(m) && Spells(m, y, path) && k < |path| == |words|
    ensures PathProb(lib, m, words, path, k) >= 0.0
    ensures LogProb(lib, m, words, y, k) == LogOf(lib, PathProb(lib, m, words, path, k))
  {
    var word := Floored(WordProb(lib, m, path[k], words[k]));
    if k == 0 {
      FactorsAreLogged(lib, m, y[0], y[0], words[0]);
      LogOfProduct(lib, m.initial[path[0]], word);
    } else {
      LogProbIsLog(lib, m, words, y, path, k - 1);
      FactorsAreLogged(lib, m, y[k - 1], y[k], words[k]);
      ScoreGrows(lib, PathProb(lib, m, words, path, k - 1), Floored(StepProb(m, path[k - 1], path[k])), word,
                 LogProb(lib, m, words, y, k - 1));
    }
  }

  lemma LogOfKeepsOrder(lib: Library, p: real, q: real)
    requires LogLaws(lib) && p >= 0.0 && q >= 0.0 && !Less(LogOf(lib, p), LogOf(lib, q))
    ensures q <= p
  {
    assert Below(p, q) || q <= p;
  }

  /** A path over the states of the model with one state for every word. */
  predicate IsPath(m: Model, words: seq<string>, path: seq<string>) {
    |path| == |words| && forall s | s in path :: s in m.states
  }

  /** The probability of a whole path. */
  ghost function Probability(lib: Library, m: Model, words: seq<string>, path: seq<string>): real
    requires Usable(m) && IsPath(m, words, path) && |words| >= 1
  {
    assert path[0] in path;
    PathProb(lib, m, words, path, |words| - 1)
  }

  /** A path that no other path beats. */
  ghost predicate MostProbable(lib: Library, m: Model, words: seq<string>, path: seq<string>)
    requires Usable(m) && |words| >= 1
  {
    IsPath(m, words, path)
    && forall z: seq<string> | IsPath(m, words, z) :: Probability(lib, m, words, z) <= Probability(lib, m, words, path)
  }

  lemma {:induction false} StatesOf(m: Model, path: seq<string>) returns (y: Tagging)
    requires forall s | s in path :: s in m.states
    ensures Spells(m, y, path)
  {
    y := [];
    if path != [] {
      var k := |path| - 1;
      assert path[k] in path;
      var j: nat :| j < |m.states| && m.states[j] == path[k];
      y := StatesOf(m, path[..k]);
      y := y + [j];
    }
  }

  lemma NoPathBeats(lib: Library, m: Model, words: seq<string>, y: Tagging, path: seq<string>, z: seq<string>)
    requires LogLaws(lib) && Usable(m) && |words| >= 1 && IsPath(m, words, path) && IsPath(m, words, z)
    requires y == DecodedStates(lib, m, words) && Spells(m, y, path)
    ensures Probability(lib, m, words, z) <= Probability(lib, m, words, path)
  {
    var t := |words| - 1;
    assert z[0] in z && path[0] in path;
    var x := StatesOf(m, z);
    LogProbIsLog(lib, m, words, y, path, t);
    LogProbIsLog(lib, m, words, x, z, t);
    DecodedIsMostProbable(lib, m, words, x);
    LogOfKeepsOrder(lib, PathProb(lib, m, words, path, t), PathProb(lib, m, words, z, t));
  }

  lemma NamesSpell(m: Model, words: seq<string>, y: Tagging)
    requires |y| == |words| && LinearChain.IsTagging(|m.states|, y)
    ensures Spells(m, y, Names(m.states, y, |y|)) && IsPath(m, words, Names(m.states, y, |y|))
  {
  }

  /** The names of the decoded states form a most probable path. */
  lemma DecodedMaximises(lib: Library, m: Model, words: seq<string>, y: Tagging, path: seq<string>)
    requires LogLaws(lib) && Usable(m) && |words| >= 1
    requires y == DecodedStates(lib, m, words) && Spells(m, y, path) && IsPath(m, words, path)
    ensures MostProbable(lib, m, words, path)
  {
    forall z: seq<string> | IsPath(m, words, z)
      ensures Probability(lib, m, words, z) <= Probability(lib, m, words, path)
    {
      NoPathBeats(lib, m, words, y, path, z);
    }
  }

  method EmissionLog(lib: Library, m: Model, j: nat, word: string) returns (logEmit: real)
    requires j < |m.states|
    ensures logEmit == LogEmit(lib, m, j, word)
  {
    var state := m.states[j];
    var wordLower := Lower(lib, word);
    var emitProb := Get(WordTable(m, state), wordLower, m.smoothing);
    if wordLower !in WordTable(m, state) {
      var feats := Features(lib, word);
      ghost var p := emitProb;
      for k := 0 to |feats|
        invariant emitProb == BackedOff(m, state, p, feats, k)
      {
        if feats[k] in m.backoff {
          emitProb := Max(emitProb, Get(m.backoff[feats[k]], state, m.smoothing));
        }
      }
    }
    logEmit := Log(lib, Max(emitProb, FLOOR));
  }

  /** The columns filled so far hold the best scores and their back-pointers. */
  ghost predicate Filled(n: nat, w: Weights, em: Emissions, viterbi: array2<LogScore>, back: array2<nat>, t: nat)
    requires Shaped(n, w, em) && t <= |em|
    requires viterbi.Length0 == back.Length0 == n && viterbi.Length1 == back.Length1 == |em|
    reads viterbi, back
  {
    forall s: nat, j: nat | s < t && j < n :: CellFilled(n, w, em, viterbi, back, s, j)
  }

  ghost predicate CellFilled(n: nat, w: Weights, em: Emissions, viterbi: array2<LogScore>, back: array2<nat>, s: nat, j: nat)
    requires Shaped(n, w, em) && s < |em| && j < n
    requires viterbi.Length0 == back.Length0 == n && viterbi.Length1 == back.Length1 == |em|
    reads viterbi, back
  {
    && viterbi[j, s] == Best(n, w, em, s)[j]
    && (s > 0 ==> back[j, s] == BackTo(Best(n, w, em, s - 1), w.trans, em[s], n)[j])
  }

  /** The inner loop over the previous state. */
  method BestPredecessor(lib: Library, m: Model, viterbi: array2<LogScore>, t: nat, j: nat, logEmit: real,
                         ghost column: seq<LogScore>, ghost row: seq<real>)
    returns (bestScore: LogScore, bestPrev: nat)
    requires j < |m.states| == |column| == |row| == viterbi.Length0 && 1 <= t < viterbi.Length1
    requires forall i: nat | i < |m.states| :: viterbi[i, t - 1] == column[i] && row[i] == LogStep(lib, m, i, j)
    ensures bestPrev == ArgBest(column, row, logEmit, |row|)
    ensures bestPrev < |row| && bestScore == Via(column, row, logEmit, bestPrev)
  {
    bestScore := NegInf;
    bestPrev := 0;
    for i := 0 to |m.states|
      invariant i == 0 ==> bestScore == NegInf && bestPrev == 0
      invariant i > 0 ==> bestPrev == ArgBest(column, row, logEmit, i)
      invariant i > 0 ==> bestScore == Via(column, row, logEmit, bestPrev)
    {
      assert viterbi[i, t - 1] == column[i];
      var transProb := Get(m.transitions, m.states[i] + "->" + m.states[j], m.smoothing);
      var score := Add(Add(viterbi[i, t - 1], Log(lib, Max(transProb, FLOOR))), logEmit);
      if Less(bestScore, score) {
        bestScore := score;
        bestPrev := i;
      }
    }
  }

  lemma NextCell(lib: Library, m: Model, words: seq<string>, t: nat, j: nat, logEmit: real)
    requires Usable(m) && 1 <= t < |words| && j < |m.states| && logEmit == LogEmit(lib, m, j, words[t])
    ensures var n, w, em := |m.states|, Chain(lib, m), Observed(lib, m, words);
      var column := Best(n, w, em, t - 1);
      var k := ArgBest(column, w.trans[j], logEmit, n);
      Best(n, w, em, t)[j] == Via(column, w.trans[j], logEmit, k) && BackTo(column, w.trans, em[t], n)[j] == k
  {
    var n, w, em := |m.states|, Chain(lib, m), Observed(lib, m, words);
    ChainCells(lib, m, words, t, 0, j);
    ColumnCell(Best(n, w, em, t - 1), w.trans, em[t], n, j);
  }

  method FillCell(lib: Library, m: Model, words: seq<string>, viterbi: array2<LogScore>, back: array2<nat>, t: nat, j: nat)
    requires Usable(m) && 1 <= t < |words| && j < |m.states|
    requires viterbi.Length0 == back.Length0 == |m.states| && viterbi.Length1 == back.Length1 == |words|
    requires Filled(|m.states|, Chain(lib, m), Observed(lib, m, words), viterbi, back, t)
    modifies viterbi, back
    ensures CellFilled(|m.states|, Chain(lib, m), Observed(lib, m, words), viterbi, back, t, j)
    ensures forall i: nat, s: nat {:trigger viterbi[i, s]} {:trigger back[i, s]} |
      i < |m.states| && s < |words| && !(i == j && s == t) ::
        viterbi[i, s] == old(viterbi[i, s]) && back[i, s] == old(back[i, s])
  {
    ghost var n, w, em := |m.states|, Chain(lib, m), Observed(lib, m, words);
    ghost var column, row := Best(n, w, em, t - 1), w.trans[j];
    var logEmit := EmissionLog(lib, m, j, words[t]);
    forall i: nat | i < n
      ensures viterbi[i, t - 1] == column[i] && row[i] == LogStep(lib, m, i, j)
    {
      ChainCells(lib, m, words, t, i, j);
      assert CellFilled(n, w, em, viterbi, back, t - 1, i);
    }
    var bestScore, bestPrev := BestPredecessor(lib, m, viterbi, t, j, logEmit, column, row);
    NextCell(lib, m, words, t, j, logEmit);
    viterbi[j, t] := bestScore;
    back[j, t] := bestPrev;
  }

  method FillColumn(lib: Library, m: Model, words: seq<string>, viterbi: array2<LogScore>, back: array2<nat>, t: nat)
    requires Usable(m) && 1 <= t < |words|
    requires viterbi.Length0 == back.Length0 == |m.states| && viterbi.Length1 == back.Length1 == |words|
    requires Filled(|m.states|, Chain(lib, m), Observed(lib, m, words), viterbi, back, t)
    modifies viterbi, back
    ensures Filled(|m.states|, Chain(lib, m), Observed(lib, m, words), viterbi, back, t + 1)
  {
    ghost var n, w, em := |m.states|, Chain(lib, m), Observed(lib, m, words);
    for j := 0 to |m.states|
      invariant forall i: nat, s: nat | i < n && (s < t || (s == t && i < j)) :: CellFilled(n, w, em, viterbi, back, s, i)
    {
      label before:
      FillCell(lib, m, words, viterbi, back, t, j);
      forall i: nat, s: nat | i < n && (s < t || (s == t && i < j + 1))
        ensures CellFilled(n, w, em, viterbi, back, s, i)
      {
        assert (s == t && i == j) || old@before(CellFilled(n, w, em, viterbi, back, s, i));
      }
    }
  }

  method Decode(lib: Library, m: Model, words: seq<string>) returns (path: seq<string>)
    requires Usable(m)
    ensures words == [] ==> path == []
    ensures words != [] ==> path == Names(m.states, DecodedStates(lib, m, words), |words|)
    ensures words != [] && LogLaws(lib) ==> MostProbable(lib, m, words, path)
  {
    if |words| == 0 {
      return [];
    }
    var n := |m.states|;
    ghost var w, em := Chain(lib, m), Observed(lib, m, words);
    var viterbi := new LogScore[n, |words|]((j, t) => NegInf);
    var back := new nat[n, |words|]((j, t) => 0);
    for j := 0 to n
      invariant forall i: nat | i < j :: CellFilled(n, w, em, viterbi, back, 0, i)
    {
      label before:
      ChainCells(lib, m, words, 0, j, j);
      var logEmit := EmissionLog(lib, m, j, words[0]);
      viterbi[j, 0] := Add(LogInitial(lib, m, j), logEmit);
      forall i: nat | i < j
        ensures CellFilled(n, w, em, viterbi, back, 0, i)
      {
        assert old@before(CellFilled(n, w, em, viterbi, back, 0, i));
      }
    }
    for t := 1 to |words|
      invariant Filled(n, w, em, viterbi, back, t)
    {
      FillColumn(lib, m, words, viterbi, back, t);
    }
    path := Backtrack(lib, m, words, viterbi, back);
    if LogLaws(lib) {
      NamesSpell(m, words, DecodedStates(lib, m, words));
      DecodedMaximises(lib, m, words, DecodedStates(lib, m, words), path);
    }
  }

  method ArgMaxLast(n: nat, viterbi: array2<LogScore>, last: nat, ghost c: seq<LogScore>) returns (best: nat)
    requires |c| == n >= 1 && viterbi.Length0 == n && last < viterbi.Length1
    requires forall j: nat | j < n :: viterbi[j, last] == c[j]
    ensures best == ArgMax(c, n) && best < n
  {
    best := 0;
    for j := 1 to n
      invariant best == ArgMax(c, j) && best < n
    {
      assert viterbi[j, last] == c[j];
      if Less(viterbi[best, last], viterbi[j, last]) {
        best := j;
      }
    }
  }

  lemma {:induction false} NamesConcat(states: seq<string>, y: Tagging, z: Tagging, k: nat)
    requires LinearChain.IsTagging(|states|, y) && LinearChain.IsTagging(|states|, z) && k <= |z|
    ensures LinearChain.IsTagging(|states|, y + z)
    ensures Names(states, y + z, |y| + k) == Names(states, y, |y|) + Names(states, z, k)
  {
    if k == 0 {
      assert forall t | 0 <= t < |y| :: Names(states, y + z, |y|)[t] == Names(states, y, |y|)[t];
    } else {
      NamesConcat(states, y, z, k - 1);
    }
  }

  /** The backtracking loop, against any history that the back-pointers spell. */
  method WalkBack(states: seq<string>, back: array2<nat>, len: nat, bestLast: nat, ghost hist: seq<seq<nat>>)
    returns (path: seq<string>)
    requires back.Length0 == |states| && back.Length1 == len == |hist| + 1 && bestLast < |states|
    requires LinearChain.IsHistory(|states|, hist)
    requires forall t: nat, j: nat | t < |hist| && j < |states| :: back[j, t + 1] == hist[t][j]
    ensures path == Names(states, LinearChain.Follow(|states|, hist, |hist|, bestLast), len)
  {
    ghost var n, y := |states|, LinearChain.Follow(|states|, hist, |hist|, bestLast);
    var reversed: seq<string> := [states[bestLast]];
    var current: nat := bestLast;
    ghost var rest: Tagging := [];
    for t := len - 1 downto 0
      invariant current < n && LinearChain.IsTagging(n, rest)
      invariant LinearChain.Follow(n, hist, t, current) + rest == y
      invariant LinearChain.Reverse(reversed) == Names(states, [current] + rest, 1 + |rest|)
    {
      assert back[current, t + 1] == hist[t][current];
      rest := [current] + rest;
      current := back[current, t + 1];
      LinearChain.ReverseSnoc(reversed, states[current]);
      NamesConcat(states, [current], rest, |rest|);
      reversed := reversed + [states[current]];
    }
    path := LinearChain.Reverse(reversed);
  }

  method Backtrack(lib: Library, m: Model, words: seq<string>, viterbi: array2<LogScore>, back: array2<nat>) returns (path: seq<string>)
    requires Usable(m) && |words| >= 1
    requires viterbi.Length0 == back.Length0 == |m.states| && viterbi.Length1 == back.Length1 == |words|
    requires Filled(|m.states|, Chain(lib, m), Observed(lib, m, words), viterbi, back, |words|)
    ensures path == Names(m.states, DecodedStates(lib, m, words), |words|)
  {
    ghost var n, w, em, last := |m.states|, Chain(lib, m), Observed(lib, m, words), |words| - 1;
    ghost var hist, c := History(n, w, em, last), Best(n, w, em, last);
    forall j: nat | j < n
      ensures viterbi[j, last] == c[j]
    {
      assert CellFilled(n, w, em, viterbi, back, last, j);
    }
    forall t: nat, j: nat | t < last && j < n
      ensures back[j, t + 1] == hist[t][j]
    {
      HistoryCell(n, w, em, last, t);
      assert CellFilled(n, w, em, viterbi, back, t + 1, j);
    }
    var bestLast := ArgMaxLast(|m.states|, viterbi, |words| - 1, c);
    path := WalkBack(m.states, back, |words|, bestLast, hist);
  }
}
