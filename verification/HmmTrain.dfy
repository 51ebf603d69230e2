/** Training the compact HMM parameters: smoothed counts turned into probability tables.
    Every count is the number of the places it is about, and every table entry the share of
    its count, with the smoothing and the floor of the script. */
module HmmTrain {

  // ---------------------------------------------------------------- normalising

  function Sum(v: seq<real>, m: nat): real
    requires m <= |v|
  {
    if m == 0 then 0.0 else Sum(v, m - 1) + v[m - 1]
  }

  predicate Positive(v: seq<real>) {
    forall i | 0 <= i < |v| :: v[i] > 0.0
  }

  lemma {:induction false} SumPositive(v: seq<real>, m: nat)
    requires m <= |v| && Positive(v)
    ensures Sum(v, m) >= 0.0 && (m >= 1 ==> Sum(v, m) > 0.0)
  {
    if m > 0 {
      SumPositive(v, m - 1);
    }
  }

  function Divide(v: seq<real>, s: real): (r: seq<real>)
    requires s != 0.0
    ensures |r| == |v|
    ensures forall i {:trigger r[i]} | 0 <= i < |v| :: r[i] == v[i] / s
  {
    if v == [] then [] else Divide(v[..|v| - 1], s) + [v[|v| - 1] / s]
  }

  function Normalize(v: seq<real>): (r: seq<real>)
    ensures |r| == |v|
  {
    var s := Sum(v, |v|);
    if s <= 0.0 then v else Divide(v, s)
  }

  lemma DivideAdds(a: real, b: real, s: real)
    requires s != 0.0
    ensures (a + b) / s == a / s + b / s
  {
  }

  lemma {:induction false} SumOfDivided(v: seq<real>, s: real, m: nat)
    requires s != 0.0 && m <= |v|
    ensures Sum(Divide(v, s), m) == Sum(v, m) / s
  {
    if m > 0 {
      SumOfDivided(v, s, m - 1);
      DivideAdds(Sum(v, m - 1), v[m - 1], s);
    }
  }

  predicate Distribution(v: seq<real>) {
    Positive(v) && Sum(v, |v|) == 1.0
  }

  lemma QuotientIsOne(a: real, d: real)
    requires d > 0.0
    ensures a / d == 1.0 <==> a == d
  {
  }

  lemma QuotientBelowOne(a: real, d: real)
    requires 0.0 < a < d
    ensures 0.0 < a / d < 1.0
  {
    var q := a / d;
    assert q * d == a;
    if q >= 1.0 {
    }
  }

  /** Positive weights normalise to a strictly positive distribution. */
  lemma NormalizeIsDistribution(v: seq<real>)
    requires Positive(v) && |v| >= 1
    ensures Distribution(Normalize(v))
  {
    var s := Sum(v, |v|);
    SumPositive(v, |v|);
    SumOfDivided(v, s, |v|);
    QuotientIsOne(s, s);
    forall i | 0 <= i < |v|
      ensures Normalize(v)[i] > 0.0
    {
    }
  }

  // ---------------------------------------------------------------- label indices

  /** `idx.get(tag, 0)` for `idx = {l: i for i, l in enumerate(labels)}`. */
  function IndexOf(labels: seq<string>, tag: string, m: nat): (i: nat)
    requires m <= |labels|
    ensures i < m || i == 0
  {
    if m == 0 then 0
    else if labels[m - 1] == tag then m - 1
    else IndexOf(labels, tag, m - 1)
  }

  function Idx(labels: seq<string>, tag: string): (i: nat)
    ensures |labels| >= 1 ==> i < |labels|
  {
    IndexOf(labels, tag, |labels|)
  }

  lemma {:induction false} IndexOfIsLast(labels: seq<string>, tag: string, m: nat)
    requires m <= |labels|
    ensures var i := IndexOf(labels, tag, m);
      if exists k :: 0 <= k < m && labels[k] == tag
      then labels[i] == tag && forall k | i < k < m :: labels[k] != tag
      else i == 0
  {
    if m > 0 && labels[m - 1] != tag {
      IndexOfIsLast(labels, tag, m - 1);
    }
  }

  // ---------------------------------------------------------------- transitions

  /** How many of the first k sequences start in state i. */
  function InitCount(labels: seq<string>, seqs: seq<seq<string>>, k: nat, i: nat): nat
    requires k <= |seqs|
  {
    if k == 0 then 0
    else InitCount(labels, seqs, k - 1, i)
         + if seqs[k - 1] != [] && Idx(labels, seqs[k - 1][0]) == i then 1 else 0
  }

  /** How many of the first m steps of one sequence go from state i to state j. */
  function StepsIn(labels: seq<string>, s: seq<string>, m: nat, i: nat, j: nat): nat
    requires m == 0 || m < |s|
  {
    if m == 0 then 0
    else StepsIn(labels, s, m - 1, i, j)
         + if Idx(labels, s[m - 1]) == i && Idx(labels, s[m]) == j then 1 else 0
  }

  function Steps(s: seq<string>): nat { if s == [] then 0 else |s| - 1 }

  function StepCount(labels: seq<string>, seqs: seq<seq<string>>, k: nat, i: nat, j: nat): nat
    requires k <= |seqs|
  {
    if k == 0 then 0
    else StepCount(labels, seqs, k - 1, i, j) + StepsIn(labels, seqs[k - 1], Steps(seqs[k - 1]), i, j)
  }

  /** The smoothed counts before normalisation. */
  function InitRow(labels: seq<string>, seqs: seq<seq<string>>, smoothing: real, m: nat): (r: seq<real>)
    ensures |r| == m
    ensures forall i: nat {:trigger r[i]} | i < m :: r[i] == smoothing + InitCount(labels, seqs, |seqs|, i) as real
  {
    if m == 0 then []
    else InitRow(labels, seqs, smoothing, m - 1) + [smoothing + InitCount(labels, seqs, |seqs|, m - 1) as real]
  }

  function StepRow(labels: seq<string>, seqs: seq<seq<string>>, smoothing: real, i: nat, m: nat): (r: seq<real>)
    ensures |r| == m
    ensures forall j: nat {:trigger r[j]} | j < m :: r[j] == smoothing + StepCount(labels, seqs, |seqs|, i, j) as real
  {
    if m == 0 then []
    else StepRow(labels, seqs, smoothing, i, m - 1) + [smoothing + StepCount(labels, seqs, |seqs|, i, m - 1) as real]
  }

  method TrainInitialAndTransitions(seqs: seq<seq<string>>, labels: seq<string>, smoothing: real)
    returns (init: seq<real>, trans: seq<seq<real>>)
    requires labels == [] ==> forall k | 0 <= k < |seqs| :: seqs[k] == []
    ensures init == Normalize(InitRow(labels, seqs, smoothing, |labels|))
    ensures |trans| == |labels|
    ensures forall i | 0 <= i < |labels| :: trans[i] == Normalize(StepRow(labels, seqs, smoothing, i, |labels|))
  {
    var n := |labels|;
    var initCounts, steps := CountSequences(seqs, labels, smoothing);
    assert initCounts[..] == InitRow(labels, seqs, smoothing, n);
    init := Normalize(initCounts[..]);
    trans := [];
    for i := 0 to n
      modifies {}
      invariant |trans| == i
      invariant forall r | 0 <= r < i :: trans[r] == Normalize(StepRow(labels, seqs, smoothing, r, n))
    {
      var row := ReadRow(labels, seqs, smoothing, steps, i);
      trans := trans + [Normalize(row)];
    }
  }

  method ReadRow(labels: seq<string>, ghost seqs: seq<seq<string>>, ghost smoothing: real, steps: array2<real>, i: nat)
    returns (row: seq<real>)
    requires steps.Length0 == steps.Length1 == |labels| && i < |labels|
    requires forall j: nat | j < |labels| :: steps[i, j] == smoothing + StepCount(labels, seqs, |seqs|, i, j) as real
    ensures row == StepRow(labels, seqs, smoothing, i, |labels|)
  {
    row := [];
    for j := 0 to |labels|
      invariant row == StepRow(labels, seqs, smoothing, i, j)
    {
      row := row + [steps[i, j]];
    }
  }

  /** The counting loops, from the smoothing value up. */
  method CountSequences(seqs: seq<seq<string>>, labels: seq<string>, smoothing: real)
    returns (initCounts: array<real>, steps: array2<real>)
    requires labels == [] ==> forall k | 0 <= k < |seqs| :: seqs[k] == []
    ensures fresh(initCounts) && fresh(steps)
    ensures initCounts.Length == steps.Length0 == steps.Length1 == |labels|
    ensures forall i: nat | i < |labels| :: initCounts[i] == smoothing + InitCount(labels, seqs, |seqs|, i) as real
    ensures forall i: nat, j: nat | i < |labels| && j < |labels| ::
      steps[i, j] == smoothing + StepCount(labels, seqs, |seqs|, i, j) as real
  {
    var n := |labels|;
    initCounts := new real[n](i => smoothing);
    steps := new real[n, n]((i, j) => smoothing);
    for k := 0 to |seqs|
      invariant forall i: nat | i < n :: initCounts[i] == smoothing + InitCount(labels, seqs, k, i) as real
      invariant forall i: nat, j: nat | i < n && j < n :: steps[i, j] == smoothing + StepCount(labels, seqs, k, i, j) as real
    {
      var s := seqs[k];
      if s != [] {
        var first := Idx(labels, s[0]);
        initCounts[first] := initCounts[first] + 1.0;
        CountSteps(labels, seqs, k, smoothing, steps);
      }
    }
  }

  method CountSteps(labels: seq<string>, seqs: seq<seq<string>>, k: nat, smoothing: real, steps: array2<real>)
    requires |labels| >= 1 && steps.Length0 == steps.Length1 == |labels| && k < |seqs| && seqs[k] != []
    requires forall i: nat, j: nat | i < |labels| && j < |labels| ::
      steps[i, j] == smoothing + StepCount(labels, seqs, k, i, j) as real
    modifies steps
    ensures forall i: nat, j: nat | i < |labels| && j < |labels| ::
      steps[i, j] == smoothing + StepCount(labels, seqs, k + 1, i, j) as real
  {
    var s := seqs[k];
    for m := 1 to |s|
      invariant forall i: nat, j: nat | i < |labels| && j < |labels| ::
        steps[i, j] == smoothing + (StepCount(labels, seqs, k, i, j) + StepsIn(labels, s, m - 1, i, j)) as real
    {
      var ia, ib := Idx(labels, s[m - 1]), Idx(labels, s[m]);
      steps[ia, ib] := steps[ia, ib] + 1.0;
    }
  }

  /** With positive smoothing the initial vector and every transition row are strictly
      positive and sum to one, whatever the data. */
  lemma TablesAreDistributions(seqs: seq<seq<string>>, labels: seq<string>, smoothing: real, i: nat)
    requires |labels| >= 1 && smoothing > 0.0
    ensures Distribution(Normalize(InitRow(labels, seqs, smoothing, |labels|)))
    ensures Distribution(Normalize(StepRow(labels, seqs, smoothing, i, |labels|)))
  {
    NormalizeIsDistribution(InitRow(labels, seqs, smoothing, |labels|));
    NormalizeIsDistribution(StepRow(labels, seqs, smoothing, i, |labels|));
  }

  // ---------------------------------------------------------------- word features

  /** Character classes, as library functions. */
  datatype Library = Library(isUpper: string -> bool, isDigit: string -> bool)

  const LEN_BUCKETS: seq<string> := ["len:1", "len:2", "len:3", "len:4_5", "len:6_8", "len:9p"]

  const BOOL_FEATS: seq<string> := ["is_capitalized", "is_all_caps", "is_digit", "has_digit", "has_hyphen", "has_dot"]

  /** The position of a word's length bucket in LEN_BUCKETS. */
  function Bucket(word: string): (b: nat)
    ensures b < |LEN_BUCKETS|
  {
    var n := |word|;
    if n <= 1 then 0 else if n == 2 then 1 else if n == 3 then 2
    else if 4 <= n <= 5 then 3 else if 6 <= n <= 8 then 4 else 5
  }

  /** Whether a word has the f-th boolean feature. */
  predicate Has(lib: Library, word: string, f: nat) {
    if f == 0 then word != "" && lib.isUpper(word[..1])
    else if f == 1 then lib.isUpper(word) && |word| > 1
    else if f == 2 then lib.isDigit(word)
    else if f == 3 then exists i :: 0 <= i < |word| && lib.isDigit([word[i]])
    else if f == 4 then '-' in word
    else f == 5 && '.' in word
  }

  /** `word_features`: the bucket, then the present features, as positions in the two lists. */
  method WordFeatures(lib: Library, word: string) returns (bucket: nat, feats: seq<nat>)
    ensures bucket == Bucket(word)
    ensures feats == FeatsTo(lib, word, |BOOL_FEATS|)
  {
    bucket := Bucket(word);
    feats := [];
    for f := 0 to |BOOL_FEATS|
      invariant feats == FeatsTo(lib, word, f)
    {
      if Has(lib, word, f) {
        feats := feats + [f];
      }
    }
  }

  function FeatsTo(lib: Library, word: string, m: nat): (r: seq<nat>)
    ensures forall k | 0 <= k < |r| :: r[k] < m
  {
    if m == 0 then [] else FeatsTo(lib, word, m - 1) + (if Has(lib, word, m - 1) then [m - 1] else [])
  }

  function Occurrences(xs: seq<nat>, k: nat, f: nat): nat
    requires k <= |xs|
  {
    if k == 0 then 0 else Occurrences(xs, k - 1, f) + if xs[k - 1] == f then 1 else 0
  }

  lemma {:induction false} OccurrencesOnPrefix(xs: seq<nat>, ys: seq<nat>, k: nat, f: nat)
    requires k <= |xs|
    ensures Occurrences(xs + ys, k, f) == Occurrences(xs, k, f)
  {
    if k > 0 {
      OccurrencesOnPrefix(xs, ys, k - 1, f);
    }
  }

  /** A feature is listed once if the word has it and never otherwise. */
  lemma {:induction false} FeatureListedOnce(lib: Library, word: string, m: nat, f: nat)
    ensures var r := FeatsTo(lib, word, m);
      Occurrences(r, |r|, f) == if f < m && Has(lib, word, f) then 1 else 0
  {
    if m > 0 {
      FeatureListedOnce(lib, word, m - 1, f);
      var r := FeatsTo(lib, word, m - 1);
      OccurrencesOnPrefix(r, [m - 1], |r|, f);
      assert r + [] == r;
      assert FeatsTo(lib, word, m) == if Has(lib, word, m - 1) then r + [m - 1] else r;
    }
  }

  // ---------------------------------------------------------------- backoff tables

  type Token = (string, string)

  function Min(a: nat, b: nat): nat { if a < b then a else b }

  /** `zip(tokens, tags)` of the first m positions. */
  function Zip(tokens: seq<string>, tags: seq<string>, m: nat): (r: seq<Token>)
    requires m <= |tokens| && m <= |tags|
    ensures |r| == m
  {
    if m == 0 then [] else Zip(tokens, tags, m - 1) + [(tokens[m - 1], tags[m - 1])]
  }

  function Flat(sentences: seq<(seq<string>, seq<string>)>, k: nat): seq<Token>
    requires k <= |sentences|
  {
    if k == 0 then []
    else
      var (tokens, tags) := sentences[k - 1];
      Flat(sentences, k - 1) + Zip(tokens, tags, Min(|tokens|, |tags|))
  }

  function StateCount(labels: seq<string>, data: seq<Token>, i: nat): nat {
    if data == [] then 0
    else
      var m := |data| - 1;
      StateCount(labels, data[..m], i) + if Idx(labels, data[m].1) == i then 1 else 0
  }

  function LenCount(labels: seq<string>, data: seq<Token>, b: nat, i: nat): nat {
    if data == [] then 0
    else
      var m := |data| - 1;
      LenCount(labels, data[..m], b, i) + if Idx(labels, data[m].1) == i && Bucket(data[m].0) == b then 1 else 0
  }

  function BoolCount(lib: Library, labels: seq<string>, data: seq<Token>, f: nat, i: nat): nat {
    if data == [] then 0
    else
      var m := |data| - 1;
      BoolCount(lib, labels, data[..m], f, i) + if Idx(labels, data[m].1) == i && Has(lib, data[m].0, f) then 1 else 0
  }

  function BucketTotal(labels: seq<string>, data: seq<Token>, i: nat, m: nat): nat {
    if m == 0 then 0 else BucketTotal(labels, data, i, m - 1) + LenCount(labels, data, m - 1, i)
  }

  lemma {:induction false} BucketTotalSnoc(labels: seq<string>, data: seq<Token>, i: nat, m: nat)
    requires data != []
    ensures var d := |data| - 1;
      BucketTotal(labels, data, i, m) == BucketTotal(labels, data[..d], i, m)
        + if Idx(labels, data[d].1) == i && Bucket(data[d].0) < m then 1 else 0
  {
    if m > 0 {
      BucketTotalSnoc(labels, data, i, m - 1);
    }
  }

  lemma {:induction false} EmptyTotal(labels: seq<string>, i: nat, m: nat)
    ensures BucketTotal(labels, [], i, m) == 0
  {
    if m > 0 {
      EmptyTotal(labels, i, m - 1);
    }
  }

  /** Every token adds one to exactly one bucket and to the count of its state. */
  lemma {:induction false} BucketsPartitionTokens(labels: seq<string>, data: seq<Token>, i: nat)
    ensures BucketTotal(labels, data, i, |LEN_BUCKETS|) == StateCount(labels, data, i)
  {
    if data == [] {
      EmptyTotal(labels, i, |LEN_BUCKETS|);
    } else {
      BucketTotalSnoc(labels, data, i, |LEN_BUCKETS|);
      BucketsPartitionTokens(labels, data[..|data| - 1], i);
    }
  }

  lemma {:induction false} BoolAtMostState(lib: Library, labels: seq<string>, data: seq<Token>, f: nat, i: nat)
    ensures BoolCount(lib, labels, data, f, i) <= StateCount(labels, data, i)
  {
    if data != [] {
      BoolAtMostState(lib, labels, data[..|data| - 1], f, i);
    }
  }

  const FLOOR: real := 0.000000000001

  function AtLeastFloor(d: real): real { if FLOOR > d then FLOOR else d }

  function LenProb(labels: seq<string>, data: seq<Token>, smoothing: real, b: nat, i: nat): real {
    (LenCount(labels, data, b, i) as real + smoothing)
      / AtLeastFloor(StateCount(labels, data, i) as real + smoothing * 6.0)
  }

  function BoolProb(lib: Library, labels: seq<string>, data: seq<Token>, smoothing: real, f: nat, i: nat): real {
    (BoolCount(lib, labels, data, f, i) as real + smoothing)
      / AtLeastFloor(StateCount(labels, data, i) as real + 2.0 * smoothing)
  }

  method TrainBackoffFeatures(lib: Library, sentences: seq<(seq<string>, seq<string>)>, labels: seq<string>, smoothing: real)
    returns (backoffLen: map<string, seq<real>>, backoffBool: map<string, seq<real>>)
    requires labels == [] ==> forall k | 0 <= k < |sentences| :: sentences[k].0 == [] || sentences[k].1 == []
    ensures var data := Flat(sentences, |sentences|);
      && (forall b: nat | b < |LEN_BUCKETS| :: LEN_BUCKETS[b] in backoffLen && |backoffLen[LEN_BUCKETS[b]]| == |labels|)
      && (forall b: nat, i: nat | b < |LEN_BUCKETS| && i < |labels| ::
            backoffLen[LEN_BUCKETS[b]][i] == LenProb(labels, data, smoothing, b, i))
      && (forall f: nat | f < |BOOL_FEATS| :: BOOL_FEATS[f] in backoffBool && |backoffBool[BOOL_FEATS[f]]| == |labels|)
      && (forall f: nat, i: nat | f < |BOOL_FEATS| && i < |labels| ::
            backoffBool[BOOL_FEATS[f]][i] == BoolProb(lib, labels, data, smoothing, f, i))
  {
    ghost var data := Flat(sentences, |sentences|);
    var stateCounts, lenCounts, boolCounts := CountAll(lib, sentences, labels);
    backoffLen := NormalizeLengths(labels, data, smoothing, stateCounts, lenCounts);
    backoffBool := NormalizeFeatures(lib, labels, data, smoothing, stateCounts, boolCounts);
  }

  method NormalizeLengths(labels: seq<string>, ghost data: seq<Token>, smoothing: real,
                          stateCounts: array<real>, lenCounts: array2<real>)
    returns (backoffLen: map<string, seq<real>>)
    requires stateCounts.Length == lenCounts.Length1 == |labels| && lenCounts.Length0 == |LEN_BUCKETS|
    requires StatesCounted(labels, data, stateCounts) && LengthsCounted(labels, data, lenCounts)
    ensures forall b: nat | b < |LEN_BUCKETS| :: LEN_BUCKETS[b] in backoffLen && |backoffLen[LEN_BUCKETS[b]]| == |labels|
    ensures forall b: nat, i: nat | b < |LEN_BUCKETS| && i < |labels| ::
      backoffLen[LEN_BUCKETS[b]][i] == LenProb(labels, data, smoothing, b, i)
  {
    var n := |labels|;
    backoffLen := map[];
    for b := 0 to |LEN_BUCKETS|
      invariant forall a: nat | a < b :: LEN_BUCKETS[a] in backoffLen && |backoffLen[LEN_BUCKETS[a]]| == n
      invariant forall a: nat, i: nat | a < b && i < n ::
        backoffLen[LEN_BUCKETS[a]][i] == LenProb(labels, data, smoothing, a, i)
    {
      var row: seq<real> := [];
      for i := 0 to n
        invariant |row| == i
        invariant forall c: nat | c < i :: row[c] == LenProb(labels, data, smoothing, b, c)
      {
        var denom := stateCounts[i] + smoothing * 6.0;
        row := row + [(lenCounts[b, i] + smoothing) / AtLeastFloor(denom)];
      }
      backoffLen := backoffLen[LEN_BUCKETS[b] := row];
    }
  }

  method NormalizeFeatures(lib: Library, labels: seq<string>, ghost data: seq<Token>, smoothing: real,
                           stateCounts: array<real>, boolCounts: array2<real>)
    returns (backoffBool: map<string, seq<real>>)
    requires stateCounts.Length == boolCounts.Length1 == |labels| && boolCounts.Length0 == |BOOL_FEATS|
    requires StatesCounted(labels, data, stateCounts) && FeaturesCounted(lib, labels, data, boolCounts)
    ensures forall f: nat | f < |BOOL_FEATS| :: BOOL_FEATS[f] in backoffBool && |backoffBool[BOOL_FEATS[f]]| == |labels|
    ensures forall f: nat, i: nat | f < |BOOL_FEATS| && i < |labels| ::
      backoffBool[BOOL_FEATS[f]][i] == BoolProb(lib, labels, data, smoothing, f, i)
  {
    var n := |labels|;
    backoffBool := map[];
    for f := 0 to |BOOL_FEATS|
      invariant forall a: nat | a < f :: BOOL_FEATS[a] in backoffBool && |backoffBool[BOOL_FEATS[a]]| == n
      invariant forall a: nat, i: nat | a < f && i < n ::
        backoffBool[BOOL_FEATS[a]][i] == BoolProb(lib, labels, data, smoothing, a, i)
    {
      var row: seq<real> := [];
      for i := 0 to n
        invariant |row| == i
        invariant forall c: nat | c < i :: row[c] == BoolProb(lib, labels, data, smoothing, f, c)
      {
        var denom := stateCounts[i] + 2.0 * smoothing;
        row := row + [(boolCounts[f, i] + smoothing) / AtLeastFloor(denom)];
      }
      backoffBool := backoffBool[BOOL_FEATS[f] := row];
    }
  }

  /** The counting loops. */
  method CountAll(lib: Library, sentences: seq<(seq<string>, seq<string>)>, labels: seq<string>)
    returns (stateCounts: array<real>, lenCounts: array2<real>, boolCounts: array2<real>)
    requires labels == [] ==> forall k | 0 <= k < |sentences| :: sentences[k].0 == [] || sentences[k].1 == []
    ensures fresh(stateCounts) && fresh(lenCounts) && fresh(boolCounts)
    ensures stateCounts.Length == lenCounts.Length1 == boolCounts.Length1 == |labels|
    ensures lenCounts.Length0 == |LEN_BUCKETS| && boolCounts.Length0 == |BOOL_FEATS|
    ensures Counted(lib, labels, Flat(sentences, |sentences|), stateCounts, lenCounts, boolCounts)
  {
    var n := |labels|;
    stateCounts := new real[n](i => 0.0);
    lenCounts := new real[|LEN_BUCKETS|, n]((b, i) => 0.0);
    boolCounts := new real[|BOOL_FEATS|, n]((f, i) => 0.0);
    for k := 0 to |sentences|
      invariant Counted(lib, labels, Flat(sentences, k), stateCounts, lenCounts, boolCounts)
    {
      var (tokens, tags) := sentences[k];
      var len := Min(|tokens|, |tags|);
      assert Flat(sentences, k) + Zip(tokens, tags, 0) == Flat(sentences, k);
      for t := 0 to len
        invariant Counted(lib, labels, Flat(sentences, k) + Zip(tokens, tags, t), stateCounts, lenCounts, boolCounts)
      {
        ghost var data := Flat(sentences, k) + Zip(tokens, tags, t);
        assert Flat(sentences, k) + Zip(tokens, tags, t + 1) == data + [(tokens[t], tags[t])];
        CountToken(lib, labels, data, tokens[t], tags[t], stateCounts, lenCounts, boolCounts);
      }
    }
  }

  ghost predicate StatesCounted(labels: seq<string>, data: seq<Token>, stateCounts: array<real>)
    requires stateCounts.Length == |labels|
    reads stateCounts
  {
    forall i: nat | i < |labels| :: stateCounts[i] == StateCount(labels, data, i) as real
  }

  ghost predicate LengthsCounted(labels: seq<string>, data: seq<Token>, lenCounts: array2<real>)
    requires lenCounts.Length0 == |LEN_BUCKETS| && lenCounts.Length1 == |labels|
    reads lenCounts
  {
    forall b: nat, i: nat | b < |LEN_BUCKETS| && i < |labels| :: lenCounts[b, i] == LenCount(labels, data, b, i) as real
  }

  ghost predicate FeaturesCounted(lib: Library, labels: seq<string>, data: seq<Token>, boolCounts: array2<real>)
    requires boolCounts.Length0 == |BOOL_FEATS| && boolCounts.Length1 == |labels|
    reads boolCounts
  {
    forall f: nat, i: nat | f < |BOOL_FEATS| && i < |labels| ::
      boolCounts[f, i] == BoolCount(lib, labels, data, f, i) as real
  }

  ghost predicate Counted(lib: Library, labels: seq<string>, data: seq<Token>,
                          stateCounts: array<real>, lenCounts: array2<real>, boolCounts: array2<real>)
    requires stateCounts.Length == lenCounts.Length1 == boolCounts.Length1 == |labels|
    requires lenCounts.Length0 == |LEN_BUCKETS| && boolCounts.Length0 == |BOOL_FEATS|
    reads stateCounts, lenCounts, boolCounts
  {
    && StatesCounted(labels, data, stateCounts)
    && LengthsCounted(labels, data, lenCounts)
    && FeaturesCounted(lib, labels, data, boolCounts)
  }

  method CountState(lib: Library, labels: seq<string>, ghost data: seq<Token>, word: string, tag: string, stateCounts: array<real>)
    requires |labels| >= 1 && stateCounts.Length == |labels| && StatesCounted(labels, data, stateCounts)
    modifies stateCounts
    ensures StatesCounted(labels, data + [(word, tag)], stateCounts)
  {
    var yi := Idx(labels, tag);
    stateCounts[yi] := stateCounts[yi] + 1.0;
    forall i: nat | i < |labels|
      ensures stateCounts[i] == StateCount(labels, data + [(word, tag)], i) as real
    {
    }
  }

  method CountLength(lib: Library, labels: seq<string>, ghost data: seq<Token>, word: string, tag: string, bucket: nat,
                     lenCounts: array2<real>)
    requires |labels| >= 1 && lenCounts.Length0 == |LEN_BUCKETS| && lenCounts.Length1 == |labels|
    requires bucket == Bucket(word) && LengthsCounted(labels, data, lenCounts)
    modifies lenCounts
    ensures LengthsCounted(labels, data + [(word, tag)], lenCounts)
  {
    var yi := Idx(labels, tag);
    lenCounts[bucket, yi] := lenCounts[bucket, yi] + 1.0;
    forall b: nat, i: nat | b < |LEN_BUCKETS| && i < |labels|
      ensures lenCounts[b, i] == LenCount(labels, data + [(word, tag)], b, i) as real
    {
    }
  }

  method CountFeatures(lib: Library, labels: seq<string>, ghost data: seq<Token>, word: string, tag: string, feats: seq<nat>,
                       boolCounts: array2<real>)
    requires |labels| >= 1 && boolCounts.Length0 == |BOOL_FEATS| && boolCounts.Length1 == |labels|
    requires feats == FeatsTo(lib, word, |BOOL_FEATS|) && FeaturesCounted(lib, labels, data, boolCounts)
    modifies boolCounts
    ensures FeaturesCounted(lib, labels, data + [(word, tag)], boolCounts)
  {
    var yi := Idx(labels, tag);
    for k := 0 to |feats|
      invariant forall f: nat, i: nat | f < |BOOL_FEATS| && i < |labels| ::
        boolCounts[f, i] == BoolCount(lib, labels, data, f, i) as real + if i == yi then Occurrences(feats, k, f) as real else 0.0
    {
      boolCounts[feats[k], yi] := boolCounts[feats[k], yi] + 1.0;
    }
    forall f: nat, i: nat | f < |BOOL_FEATS| && i < |labels|
      ensures boolCounts[f, i] == BoolCount(lib, labels, data + [(word, tag)], f, i) as real
    {
      FeatureListedOnce(lib, word, |BOOL_FEATS|, f);
    }
  }

  method CountToken(lib: Library, labels: seq<string>, ghost data: seq<Token>, word: string, tag: string,
                    stateCounts: array<real>, lenCounts: array2<real>, boolCounts: array2<real>)
    requires |labels| >= 1 && lenCounts != boolCounts
    requires stateCounts.Length == lenCounts.Length1 == boolCounts.Length1 == |labels|
    requires lenCounts.Length0 == |LEN_BUCKETS| && boolCounts.Length0 == |BOOL_FEATS|
    requires Counted(lib, labels, data, stateCounts, lenCounts, boolCounts)
    modifies stateCounts, lenCounts, boolCounts
    ensures Counted(lib, labels, data + [(word, tag)], stateCounts, lenCounts, boolCounts)
  {
    CountState(lib, labels, data, word, tag, stateCounts);
    var bucket, feats := WordFeatures(lib, word);
    CountLength(lib, labels, data, word, tag, bucket, lenCounts);
    CountFeatures(lib, labels, data, word, tag, feats, boolCounts);
  }

  /** The bucket probabilities of a state. */
  function LenColumn(labels: seq<string>, data: seq<Token>, smoothing: real, i: nat, m: nat): (r: seq<real>)
    ensures |r| == m
    ensures forall b: nat {:trigger r[b]} | b < m :: r[b] == LenProb(labels, data, smoothing, b, i)
  {
    if m == 0 then [] else LenColumn(labels, data, smoothing, i, m - 1) + [LenProb(labels, data, smoothing, m - 1, i)]
  }

  /** k times the smoothing. */
  function Smoothing(smoothing: real, k: nat): real {
    if k == 0 then 0.0 else Smoothing(smoothing, k - 1) + smoothing
  }

  lemma SixSmoothings(smoothing: real)
    ensures Smoothing(smoothing, 6) == smoothing * 6.0
  {
    assert Smoothing(smoothing, 1) == smoothing;
    assert Smoothing(smoothing, 3) == smoothing * 3.0;
    assert Smoothing(smoothing, 5) == smoothing * 5.0;
  }

  lemma {:induction false} LenColumnSum(labels: seq<string>, data: seq<Token>, smoothing: real, i: nat, m: nat, k: nat)
    requires k <= m && smoothing > 0.0
    ensures var d := AtLeastFloor(StateCount(labels, data, i) as real + smoothing * 6.0);
      Sum(LenColumn(labels, data, smoothing, i, m), k) == (BucketTotal(labels, data, i, k) as real + Smoothing(smoothing, k)) / d
  {
    var d := AtLeastFloor(StateCount(labels, data, i) as real + smoothing * 6.0);
    if k > 0 {
      LenColumnSum(labels, data, smoothing, i, m, k - 1);
      var a, c := BucketTotal(labels, data, i, k - 1) as real + Smoothing(smoothing, k - 1), LenCount(labels, data, k - 1, i) as real + smoothing;
      DivideAdds(a, c, d);
      assert LenColumn(labels, data, smoothing, i, m)[k - 1] == c / d;
      assert BucketTotal(labels, data, i, k) as real + Smoothing(smoothing, k) == a + c;
    }
  }

  /** A state's length-bucket table is strictly positive, and it is a distribution exactly
      when the floor on the denominator is inactive for that state. */
  lemma LenTableIsDistributionIff(labels: seq<string>, data: seq<Token>, smoothing: real, i: nat)
    requires smoothing > 0.0
    ensures Positive(LenColumn(labels, data, smoothing, i, |LEN_BUCKETS|))
    ensures Distribution(LenColumn(labels, data, smoothing, i, |LEN_BUCKETS|)) <==>
            StateCount(labels, data, i) as real + smoothing * 6.0 >= FLOOR
  {
    var total := StateCount(labels, data, i) as real + smoothing * 6.0;
    var d := AtLeastFloor(total);
    var column := LenColumn(labels, data, smoothing, i, 6);
    LenColumnSum(labels, data, smoothing, i, 6, 6);
    BucketsPartitionTokens(labels, data, i);
    SixSmoothings(smoothing);
    assert Sum(column, 6) == total / d;
    QuotientIsOne(total, d);
    forall b: nat | b < 6
      ensures LenProb(labels, data, smoothing, b, i) > 0.0
    {
    }
  }

  /** Every boolean feature probability lies strictly between zero and one. */
  lemma BoolProbIsProper(lib: Library, labels: seq<string>, data: seq<Token>, smoothing: real, f: nat, i: nat)
    requires smoothing > 0.0
    ensures 0.0 < BoolProb(lib, labels, data, smoothing, f, i) < 1.0
  {
    BoolAtMostState(lib, labels, data, f, i);
    QuotientBelowOne(BoolCount(lib, labels, data, f, i) as real + smoothing,
                     AtLeastFloor(StateCount(labels, data, i) as real + 2.0 * smoothing));
  }

  // ---------------------------------------------------------------- what is counted

  /** Position i stands for a tag: the last label that is the tag, or the first position for
      a tag that is no label. */
  predicate StandsFor(labels: seq<string>, tag: string, i: nat) {
    if tag in labels then i < |labels| && labels[i] == tag && tag !in labels[i + 1..] else i == 0
  }

  lemma StandsForIff(labels: seq<string>, tag: string, i: nat)
    requires labels != []
    ensures Idx(labels, tag) == i <==> StandsFor(labels, tag, i)
  {
    IndexOfIsLast(labels, tag, |labels|);
    var k := Idx(labels, tag);
    if tag in labels {
      assert forall q | k < q < |labels| :: labels[q] != tag;
      if StandsFor(labels, tag, i) {
        assert forall q | i < q < |labels| :: labels[q] == labels[i + 1..][q - i - 1];
      }
    }
  }

  /** The initial count of a state is the number of sequences whose first tag it stands for. */
  lemma {:induction false} InitCountIs(labels: seq<string>, seqs: seq<seq<string>>, m: nat, i: nat) returns (places: set<nat>)
    requires labels != [] && m <= |seqs|
    ensures forall k: nat :: k in places <==> k < m && seqs[k] != [] && StandsFor(labels, seqs[k][0], i)
    ensures InitCount(labels, seqs, m, i) == |places|
  {
    places := {};
    if m > 0 {
      places := InitCountIs(labels, seqs, m - 1, i);
      if seqs[m - 1] != [] {
        StandsForIff(labels, seqs[m - 1][0], i);
        if StandsFor(labels, seqs[m - 1][0], i) {
          places := places + {m - 1};
        }
      }
    }
  }

  /** Whether the sequence steps from state i to state j at position t. */
  predicate StepsAt(labels: seq<string>, s: seq<string>, t: nat, i: nat, j: nat) {
    t + 1 < |s| && StandsFor(labels, s[t], i) && StandsFor(labels, s[t + 1], j)
  }

  lemma {:induction false} StepsInIs(labels: seq<string>, s: seq<string>, m: nat, i: nat, j: nat) returns (places: set<nat>)
    requires labels != [] && (m == 0 || m < |s|)
    ensures forall t: nat :: t in places <==> t < m && StepsAt(labels, s, t, i, j)
    ensures StepsIn(labels, s, m, i, j) == |places|
  {
    places := {};
    if m > 0 {
      places := StepsInIs(labels, s, m - 1, i, j);
      StandsForIff(labels, s[m - 1], i);
      StandsForIff(labels, s[m], j);
      if StepsAt(labels, s, m - 1, i, j) {
        places := places + {m - 1};
      }
    }
  }

  function At(k: nat, places: set<nat>): set<(nat, nat)> { set t | t in places :: (k, t) }

  lemma {:induction false} AtSize(k: nat, places: set<nat>)
    ensures |At(k, places)| == |places|
    decreases places
  {
    if t: nat :| t in places {
      AtSize(k, places - {t});
      assert At(k, places) == At(k, places - {t}) + {(k, t)};
    }
  }

  /** The count of steps between two states is the number of places, in all sequences, where
      a tag of the first is followed by a tag of the second. */
  lemma {:induction false} StepCountIs(labels: seq<string>, seqs: seq<seq<string>>, m: nat, i: nat, j: nat)
    returns (places: set<(nat, nat)>)
    requires labels != [] && m <= |seqs|
    ensures forall k: nat, t: nat :: (k, t) in places <==> k < m && StepsAt(labels, seqs[k], t, i, j)
    ensures StepCount(labels, seqs, m, i, j) == |places|
  {
    places := {};
    if m > 0 {
      var before := StepCountIs(labels, seqs, m - 1, i, j);
      var here := StepsInIs(labels, seqs[m - 1], Steps(seqs[m - 1]), i, j);
      AtSize(m - 1, here);
      places := before + At(m - 1, here);
      assert before !! At(m - 1, here);
    }
  }

  /** The length buckets by name. */
  predicate InBucket(name: string, word: string) {
    || (name == "len:1" && |word| <= 1)
    || (name == "len:2" && |word| == 2)
    || (name == "len:3" && |word| == 3)
    || (name == "len:4_5" && 4 <= |word| <= 5)
    || (name == "len:6_8" && 6 <= |word| <= 8)
    || (name == "len:9p" && |word| >= 9)
  }

  /** The Boolean features by name. */
  predicate HasFeature(lib: Library, name: string, word: string) {
    || (name == "is_capitalized" && |word| >= 1 && lib.isUpper([word[0]]))
    || (name == "is_all_caps" && |word| >= 2 && lib.isUpper(word))
    || (name == "is_digit" && lib.isDigit(word))
    || (name == "has_digit" && exists c :: c in word && lib.isDigit([c]))
    || (name == "has_hyphen" && exists i :: 0 <= i < |word| && word[i] == '-')
    || (name == "has_dot" && exists i :: 0 <= i < |word| && word[i] == '.')
  }

  lemma BucketIff(word: string, b: nat)
    requires b < |LEN_BUCKETS|
    ensures Bucket(word) == b <==> InBucket(LEN_BUCKETS[b], word)
  {
  }

  lemma HasIff(lib: Library, word: string, f: nat)
    requires f < |BOOL_FEATS|
    ensures Has(lib, word, f) <==> HasFeature(lib, BOOL_FEATS[f], word)
  {
    assert word != "" ==> word[..1] == [word[0]];
  }

  /** Place t of the data holds a token whose tag the state stands for. */
  predicate TaggedAt(labels: seq<string>, data: seq<Token>, t: nat, i: nat) {
    t < |data| && StandsFor(labels, data[t].1, i)
  }

  /** The count of a state is the number of its tokens. */
  lemma {:induction false} StateCountIs(labels: seq<string>, data: seq<Token>, i: nat) returns (places: set<nat>)
    requires labels != []
    ensures forall t: nat :: t in places <==> TaggedAt(labels, data, t, i)
    ensures StateCount(labels, data, i) == |places|
  {
    places := {};
    if data != [] {
      var m: nat := |data| - 1;
      places := StateCountIs(labels, data[..m], i);
      StandsForIff(labels, data[m].1, i);
      if TaggedAt(labels, data, m, i) {
        places := places + {m};
      }
    }
  }

  /** The count of a bucket, the number of those of its length. */
  lemma {:induction false} LenCountIs(labels: seq<string>, data: seq<Token>, b: nat, i: nat) returns (places: set<nat>)
    requires labels != [] && b < |LEN_BUCKETS|
    ensures forall t: nat :: t in places <==> TaggedAt(labels, data, t, i) && InBucket(LEN_BUCKETS[b], data[t].0)
    ensures LenCount(labels, data, b, i) == |places|
  {
    places := {};
    if data != [] {
      var m: nat := |data| - 1;
      places := LenCountIs(labels, data[..m], b, i);
      StandsForIff(labels, data[m].1, i);
      BucketIff(data[m].0, b);
      if TaggedAt(labels, data, m, i) && Bucket(data[m].0) == b {
        places := places + {m};
      }
    }
  }

  /** The count of a feature, the number of those that have it. */
  lemma {:induction false} BoolCountIs(lib: Library, labels: seq<string>, data: seq<Token>, f: nat, i: nat) returns (places: set<nat>)
    requires labels != [] && f < |BOOL_FEATS|
    ensures forall t: nat :: t in places <==> TaggedAt(labels, data, t, i) && HasFeature(lib, BOOL_FEATS[f], data[t].0)
    ensures BoolCount(lib, labels, data, f, i) == |places|
  {
    places := {};
    if data != [] {
      var m: nat := |data| - 1;
      places := BoolCountIs(lib, labels, data[..m], f, i);
      StandsForIff(labels, data[m].1, i);
      HasIff(lib, data[m].0, f);
      if TaggedAt(labels, data, m, i) && Has(lib, data[m].0, f) {
        places := places + {m};
      }
    }
  }

  /** The data is the zipped sentences, one after the other. */
  lemma {:induction false} DataIs(sentences: seq<(seq<string>, seq<string>)>, m: nat, k: nat, t: nat)
    requires k < m <= |sentences| && t < |sentences[k].0| && t < |sentences[k].1|
    ensures |Flat(sentences, k)| + t < |Flat(sentences, m)|
    ensures Flat(sentences, m)[|Flat(sentences, k)| + t] == (sentences[k].0[t], sentences[k].1[t])
    ensures |Flat(sentences, m)| == |Flat(sentences, m - 1)| + Min(|sentences[m - 1].0|, |sentences[m - 1].1|)
  {
    if k < m - 1 {
      DataIs(sentences, m - 1, k, t);
    } else {
      ZipAt(sentences[k].0, sentences[k].1, Min(|sentences[k].0|, |sentences[k].1|), t);
    }
  }

  lemma {:induction false} ZipAt(tokens: seq<string>, tags: seq<string>, m: nat, t: nat)
    requires t < m <= |tokens| && m <= |tags|
    ensures Zip(tokens, tags, m)[t] == (tokens[t], tags[t])
  {
    if t < m - 1 {
      ZipAt(tokens, tags, m - 1, t);
    }
  }

  lemma ShareTimesWhole(a: real, s: real, q: real)
    requires s != 0.0 && q == a / s
    ensures q * s == a
  {
  }

  /** Every entry of a normalised vector is its share of a positive sum. */
  lemma NormalizeIsShare(v: seq<real>, i: nat, s: real, q: real)
    requires i < |v| && s == Sum(v, |v|) > 0.0 && q == Normalize(v)[i]
    ensures q * s == v[i]
  {
    ShareTimesWhole(v[i], s, q);
  }

  lemma Complement(p: real, d: real, n: real, m: real, smoothing: real)
    requires p * d == n + smoothing && d == m + 2.0 * smoothing
    ensures (1.0 - p) * d == m - n + smoothing
  {
    assert (1.0 - p) * d == d - p * d;
  }

  /** Among the tokens of a state, a feature's probability is the smoothed share of those that
      have it, and what is missing to one the smoothed share of those that have not. */
  lemma BoolProbIsShare(lib: Library, labels: seq<string>, data: seq<Token>, smoothing: real, f: nat, i: nat, p: real, d: real)
    requires p == BoolProb(lib, labels, data, smoothing, f, i)
    requires d == StateCount(labels, data, i) as real + 2.0 * smoothing >= FLOOR
    ensures p * d == BoolCount(lib, labels, data, f, i) as real + smoothing
    ensures (1.0 - p) * d == StateCount(labels, data, i) as real - BoolCount(lib, labels, data, f, i) as real + smoothing
  {
    ShareTimesWhole(BoolCount(lib, labels, data, f, i) as real + smoothing, d, p);
    Complement(p, d, BoolCount(lib, labels, data, f, i) as real, StateCount(labels, data, i) as real, smoothing);
  }

  /** And a bucket's probability the smoothed share of those of its length. */
  lemma LenProbIsShare(labels: seq<string>, data: seq<Token>, smoothing: real, b: nat, i: nat, p: real, d: real)
    requires p == LenProb(labels, data, smoothing, b, i)
    requires d == StateCount(labels, data, i) as real + smoothing * 6.0 >= FLOOR
    ensures p * d == LenCount(labels, data, b, i) as real + smoothing
  {
    ShareTimesWhole(LenCount(labels, data, b, i) as real + smoothing, d, p);
  }
}
