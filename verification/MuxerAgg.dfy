/** Aggregating the multiplexer's JSONL logs into one row per group. */
module MuxerAgg {
  import opened Wrappers

  /** The fields read from a parsed line; None where the field is absent or of another type. */
  datatype Record = Record(
    recordType: Option<string>, slice: Option<string>, backend: Option<string>, dataset: Option<string>,
    ok: Option<bool>, junk: Option<bool>, hardJunk: Option<bool>,
    primaryF1: Option<real>, elapsedMs: Option<nat>, costUnits: Option<nat>)

  /** Library calls: splitting into lines, trimming, JSON parsing, the language and domain
      of a dataset name, and the square root. */
  datatype Library = Library(
    lines: string -> seq<string>, trim: string -> string, parse: string -> Option<Record>,
    dataset: string -> Option<(string, string)>, sqrt: real -> real)

  function Lines(lib: Library, content: string): seq<string> { lib.lines(content) }

  function Trim(lib: Library, s: string): string { lib.trim(s) }

  function ParseJson(lib: Library, s: string): Option<Record> { lib.parse(s) }

  function Dataset(lib: Library, s: string): Option<(string, string)> { lib.dataset(s) }

  datatype Key = Key(task: string, lang: string, domain: string, backend: string)

  datatype Line = Blank | Malformed | Other | Outcome(key: Key, entry: Record)

  // ---------------------------------------------------------------- reading a line

  /** The part of a slice name before its first dot. */
  function Task(slice: string): (task: string)
    ensures '.' !in task
    ensures task == slice || task + "." <= slice
  {
    if slice == "" || slice[0] == '.' then "" else [slice[0]] + Task(slice[1..])
  }

  function KeyOf(lib: Library, v: Record): Key {
    var where := Or(Dataset(lib, Or(v.dataset, "")), ("unknown", "unknown"));
    Key(Task(Or(v.slice, "")), where.0, where.1, Or(v.backend, ""))
  }

  /** The part of a slice name before its first dot, by what it is. */
  predicate IsTask(slice: string, task: string) {
    '.' !in task && (task == slice || task + "." <= slice)
  }

  lemma TaskIsLongest(slice: string, a: string, b: string)
    requires IsTask(slice, a) && IsTask(slice, b)
    ensures |b| <= |a|
  {
    assert a == slice || (a + ".")[|a|] == slice[|a|] == '.';
    assert forall i | 0 <= i < |b| :: b[i] == slice[i] && b[i] in b;
  }

  lemma IsTaskIff(slice: string, task: string)
    ensures IsTask(slice, task) <==> task == Task(slice)
  {
    var t := Task(slice);
    if IsTask(slice, task) {
      TaskIsLongest(slice, task, t);
      TaskIsLongest(slice, t, task);
      assert t == slice[..|t|] && task == slice[..|task|];
    }
  }

  /** The language and domain of a record's dataset, unknown if it has none that is known. */
  predicate IsAbout(lib: Library, v: Record, lang: string, domain: string) {
    match Dataset(lib, if v.dataset.Some? then v.dataset.value else "")
    case Some(known) => lang == known.0 && domain == known.1
    case None => lang == "unknown" && domain == "unknown"
  }

  /** The record of an outcome line. */
  predicate LogsOutcome(lib: Library, raw: string, v: Record) {
    Trim(lib, raw) != "" && ParseJson(lib, Trim(lib, raw)) == Some(v) && v.recordType == Some("outcome")
  }

  /** A record belongs to the group of its task, language, domain and backend. */
  predicate BelongsTo(lib: Library, v: Record, task: string, lang: string, domain: string, backend: string) {
    && IsTask(if v.slice.Some? then v.slice.value else "", task)
    && IsAbout(lib, v, lang, domain)
    && backend == if v.backend.Some? then v.backend.value else ""
  }

  predicate LineBelongs(lib: Library, raw: string, key: Key) {
    && ParseJson(lib, Trim(lib, raw)).Some?
    && LogsOutcome(lib, raw, ParseJson(lib, Trim(lib, raw)).value)
    && BelongsTo(lib, ParseJson(lib, Trim(lib, raw)).value, key.task, key.lang, key.domain, key.backend)
  }

  function Classify(lib: Library, raw: string): Line {
    var t := Trim(lib, raw);
    if t == "" then Blank
    else
      match ParseJson(lib, t)
      case None => Malformed
      case Some(v) => if v.recordType == Some("outcome") then Outcome(KeyOf(lib, v), v) else Other
  }

  // ---------------------------------------------------------------- what each line adds

  datatype Counters = Counters(total: nat, parsed: nat, outcome: nat)

  datatype Moments = Moments(sum: real, sumSq: real, count: nat)

  datatype Agg = Agg(n: nat, ok: nat, junk: nat, hardJunk: nat, f1: Moments, ms: Moments, cost: Moments)

  datatype Metric = F1 | Ms | Cost

  const NOTHING := Moments(0.0, 0.0, 0)

  const EMPTY := Agg(0, 0, 0, 0, NOTHING, NOTHING, NOTHING)

  function Of(a: Agg, m: Metric): Moments {
    match m case F1 => a.f1 case Ms => a.ms case Cost => a.cost
  }

  function Reading(v: Record, m: Metric): Option<real> {
    match m
    case F1 => v.primaryF1
    case Ms => if v.elapsedMs.Some? then Some(v.elapsedMs.value as real) else None
    case Cost => if v.costUnits.Some? then Some(v.costUnits.value as real) else None
  }

  function Square(x: real): real { x * x }

  function AddReading(a: Moments, x: Option<real>): Moments {
    if x.Some? then Moments(a.sum + x.value, a.sumSq + Square(x.value), a.count + 1) else a
  }

  function One(b: bool): nat { if b then 1 else 0 }

  function AddRecord(a: Agg, v: Record): Agg {
    Agg(a.n + 1, a.ok + One(Or(v.ok, false)), a.junk + One(Or(v.junk, false)), a.hardJunk + One(Or(v.hardJunk, false)),
        AddReading(a.f1, Reading(v, F1)), AddReading(a.ms, Reading(v, Ms)), AddReading(a.cost, Reading(v, Cost)))
  }

  // ---------------------------------------------------------------- the specification

  /** What a list of lines amounts to for one key: the counters, and the group's totals. */
  datatype Tally = Tally(counters: Counters, agg: Agg)

  const START := Tally(Counters(0, 0, 0), EMPTY)

  function CountLine(c: Counters, line: Line): Counters {
    match line
    case Blank => c
    case Malformed => c.(total := c.total + 1)
    case Other => c.(total := c.total + 1, parsed := c.parsed + 1)
    case Outcome(_, _) => Counters(c.total + 1, c.parsed + 1, c.outcome + 1)
  }

  predicate InGroup(line: Line, key: Key) { line.Outcome? && line.key == key }

  /** The lines of a group are the outcome lines with its four values. */
  lemma InGroupIff(lib: Library, raw: string, key: Key)
    ensures InGroup(Classify(lib, raw), key) <==> LineBelongs(lib, raw, key)
    ensures InGroup(Classify(lib, raw), key) ==> Some(Classify(lib, raw).entry) == ParseJson(lib, Trim(lib, raw))
  {
    var v := ParseJson(lib, Trim(lib, raw));
    if v.Some? {
      IsTaskIff(Or(v.value.slice, ""), key.task);
    }
  }

  /** Two outcome lines fall into one group exactly if they agree on the task, the language
      and domain of the dataset, and the backend. */
  lemma SameGroupIff(lib: Library, raw: string, raw': string, v: Record, v': Record)
    requires LogsOutcome(lib, raw, v) && LogsOutcome(lib, raw', v')
    ensures (exists key :: InGroup(Classify(lib, raw), key) && InGroup(Classify(lib, raw'), key)) <==>
      && Task(Or(v.slice, "")) == Task(Or(v'.slice, ""))
      && Or(Dataset(lib, Or(v.dataset, "")), ("unknown", "unknown")) == Or(Dataset(lib, Or(v'.dataset, "")), ("unknown", "unknown"))
      && Or(v.backend, "") == Or(v'.backend, "")
  {
    forall key: Key
      ensures InGroup(Classify(lib, raw), key) <==> BelongsTo(lib, v, key.task, key.lang, key.domain, key.backend)
      ensures InGroup(Classify(lib, raw'), key) <==> BelongsTo(lib, v', key.task, key.lang, key.domain, key.backend)
    {
      InGroupIff(lib, raw, key);
      InGroupIff(lib, raw', key);
    }
    var where := Or(Dataset(lib, Or(v.dataset, "")), ("unknown", "unknown"));
    var key := Key(Task(Or(v.slice, "")), where.0, where.1, Or(v.backend, ""));
    forall task: string
      ensures IsTask(Or(v.slice, ""), task) <==> task == Task(Or(v.slice, ""))
      ensures IsTask(Or(v'.slice, ""), task) <==> task == Task(Or(v'.slice, ""))
    {
      IsTaskIff(Or(v.slice, ""), task);
      IsTaskIff(Or(v'.slice, ""), task);
    }
    assert InGroup(Classify(lib, raw), key);
  }

  function AddLine(t: Tally, line: Line, key: Key): Tally {
    Tally(CountLine(t.counters, line), if InGroup(line, key) then AddRecord(t.agg, line.entry) else t.agg)
  }

  function TallyOf(lib: Library, raws: seq<string>, key: Key, m: nat): Tally
    requires m <= |raws|
  {
    if m == 0 then START else AddLine(TallyOf(lib, raws, key, m - 1), Classify(lib, raws[m - 1]), key)
  }

  function Totals(lib: Library, raws: seq<string>, key: Key): Agg { TallyOf(lib, raws, key, |raws|).agg }

  /** The counters do not depend on the key. */
  function Count(lib: Library, raws: seq<string>): Counters { TallyOf(lib, raws, Key("", "", "", ""), |raws|).counters }

  lemma {:induction false} CountersIgnoreKey(lib: Library, raws: seq<string>, j: Key, k: Key, m: nat)
    requires m <= |raws|
    ensures TallyOf(lib, raws, j, m).counters == TallyOf(lib, raws, k, m).counters
  {
    if m > 0 {
      CountersIgnoreKey(lib, raws, j, k, m - 1);
    }
  }

  // ---------------------------------------------------------------- order and file split

  lemma {:induction false} TallyLocal(lib: Library, xs: seq<string>, ys: seq<string>, key: Key, m: nat)
    requires m <= |xs| && m <= |ys|
    requires forall i | 0 <= i < m :: xs[i] == ys[i]
    ensures TallyOf(lib, xs, key, m) == TallyOf(lib, ys, key, m)
  {
    if m > 0 {
      TallyLocal(lib, xs, ys, key, m - 1);
    }
  }

  function Remove(xs: seq<string>, i: nat): (r: seq<string>)
    requires i < |xs|
    ensures |r| == |xs| - 1
    ensures forall j {:trigger r[j]} | 0 <= j < |r| :: r[j] == if j < i then xs[j] else xs[j + 1]
  {
    xs[..i] + xs[i + 1..]
  }

  lemma AddLineCommutes(t: Tally, x: Line, y: Line, key: Key)
    ensures AddLine(AddLine(t, x, key), y, key) == AddLine(AddLine(t, y, key), x, key)
  {
    if InGroup(x, key) && InGroup(y, key) {
    }
  }

  /** A line may as well have come last. */
  lemma {:induction false} LineMayComeLast(lib: Library, xs: seq<string>, key: Key, i: nat, m: nat)
    requires i < m <= |xs|
    ensures TallyOf(lib, xs, key, m) == AddLine(TallyOf(lib, Remove(xs, i), key, m - 1), Classify(lib, xs[i]), key)
  {
    var ys := Remove(xs, i);
    if m == i + 1 {
      TallyLocal(lib, xs, ys, key, i);
    } else {
      LineMayComeLast(lib, xs, key, i, m - 1);
      AddLineCommutes(TallyOf(lib, ys, key, m - 2), Classify(lib, xs[i]), Classify(lib, xs[m - 1]), key);
    }
  }

  lemma RemoveFromMultiset(xs: seq<string>, i: nat)
    requires i < |xs|
    ensures multiset(xs) == multiset(Remove(xs, i)) + multiset{xs[i]}
  {
    assert xs == xs[..i] + [xs[i]] + xs[i + 1..];
  }

  lemma CancelOne(a: multiset<string>, b: multiset<string>, x: string)
    requires a + multiset{x} == b + multiset{x}
    ensures a == b
  {
    assert a == (a + multiset{x}) - multiset{x};
    assert b == (b + multiset{x}) - multiset{x};
  }

  lemma FindIn(ys: seq<string>, x: string, bag: multiset<string>) returns (i: nat)
    requires multiset(ys) == bag && x in bag
    ensures i < |ys| && ys[i] == x
  {
    assert x in ys;
    i :| 0 <= i < |ys| && ys[i] == x;
  }

  /** The counters and every group's totals depend only on which lines there are. */
  lemma {:induction false} TallyIgnoresOrder(lib: Library, xs: seq<string>, ys: seq<string>, key: Key)
    requires multiset(xs) == multiset(ys)
    ensures TallyOf(lib, xs, key, |xs|) == TallyOf(lib, ys, key, |ys|)
    decreases |xs|
  {
    if xs == [] {
      assert |multiset(ys)| == 0;
    } else {
      var n := |xs| - 1;
      var i := FindIn(ys, xs[n], multiset(xs));
      RemoveFromMultiset(xs, n);
      RemoveFromMultiset(ys, i);
      CancelOne(multiset(Remove(xs, n)), multiset(Remove(ys, i)), xs[n]);
      TallyIgnoresOrder(lib, Remove(xs, n), Remove(ys, i), key);
      LineMayComeLast(lib, xs, key, n, |xs|);
      LineMayComeLast(lib, ys, key, i, |ys|);
    }
  }

  // ---------------------------------------------------------------- the report

  /** The keys of the outcome lines. */
  function Keys(lib: Library, raws: seq<string>, m: nat): set<Key>
    requires m <= |raws|
  {
    if m == 0 then {}
    else
      var line := Classify(lib, raws[m - 1]);
      Keys(lib, raws, m - 1) + if line.Outcome? then {line.key} else {}
  }

  lemma {:induction false} KeyHasRecords(lib: Library, raws: seq<string>, key: Key, m: nat)
    requires m <= |raws|
    ensures key in Keys(lib, raws, m) <==> TallyOf(lib, raws, key, m).agg.n > 0
    ensures key !in Keys(lib, raws, m) ==> TallyOf(lib, raws, key, m).agg == EMPTY
  {
    if m > 0 {
      KeyHasRecords(lib, raws, key, m - 1);
    }
  }

  /** Mean, population standard deviation and standard error; None for no readings. */
  datatype Spread = Spread(mean: real, std: real, stderr: real)

  function Sqrt(lib: Library, x: real): real { lib.sqrt(x) }

  /** The square root is one. */
  ghost predicate Laws(lib: Library) {
    forall x: real {:trigger Sqrt(lib, x)} | x >= 0.0 :: Sqrt(lib, x) >= 0.0 && Square(Sqrt(lib, x)) == x
  }

  function Max(x: real, y: real): real { if x < y then y else x }

  function Mean(a: Moments): real
    requires a.count > 0
  {
    a.sum / a.count as real
  }

  function Variance(a: Moments): real
    requires a.count > 0
  {
    a.sumSq / a.count as real - Square(Mean(a))
  }

  /** `mean_std`, then `stderr`. */
  function SpreadOf(lib: Library, a: Moments): Option<Spread>
    requires Laws(lib)
  {
    if a.count == 0 then None
    else
      var std := Sqrt(lib, Max(Variance(a), 0.0));
      Some(Spread(Mean(a), std, std / Sqrt(lib, a.count as real)))
  }

  datatype Row = Row(n: nat, ok: nat, junk: nat, hardJunk: nat, f1: Option<Spread>, ms: Option<Spread>, cost: Option<Spread>)

  datatype Summary = Summary(counters: Counters, groups: map<Key, Row>)

  function Readings(lib: Library, raws: seq<string>, key: Key, metric: Metric, m: nat): seq<real>
    requires m <= |raws|
  {
    if m == 0 then []
    else
      var rest := Readings(lib, raws, key, metric, m - 1);
      var line := Classify(lib, raws[m - 1]);
      if InGroup(line, key) && Reading(line.entry, metric).Some? then rest + [Reading(line.entry, metric).value] else rest
  }

  function Sum(xs: seq<real>, m: nat): real
    requires m <= |xs|
  {
    if m == 0 then 0.0 else Sum(xs, m - 1) + xs[m - 1]
  }

  /** The sum of the squared distances of the first m values from c. */
  function Deviation(xs: seq<real>, c: real, m: nat): (d: real)
    requires m <= |xs|
    ensures d >= 0.0
  {
    if m == 0 then 0.0 else Deviation(xs, c, m - 1) + Square(xs[m - 1] - c)
  }

  lemma {:induction false} PrefixSums(xs: seq<real>, v: real, c: real, m: nat)
    requires m <= |xs|
    ensures Sum(xs + [v], m) == Sum(xs, m) && Deviation(xs + [v], c, m) == Deviation(xs, c, m)
  {
    if m > 0 {
      PrefixSums(xs, v, c, m - 1);
    }
  }

  /** The squared distance from c, as it appears in the running moments. */
  function Expanded(a: Moments, c: real): real {
    a.sumSq - 2.0 * c * a.sum + Square(c) * a.count as real
  }

  /** The count, sum and spread around c of a list. */
  predicate MomentsOf(a: Moments, xs: seq<real>, c: real) {
    a.count == |xs| && a.sum == Sum(xs, |xs|) && Expanded(a, c) == Deviation(xs, c, |xs|)
  }

  lemma ExpandedGrows(n: real, sum: real, sumSq: real, v: real, c: real)
    ensures sumSq + v * v - 2.0 * c * (sum + v) + Square(c) * (n + 1.0)
         == sumSq - 2.0 * c * sum + Square(c) * n + Square(v - c)
  {
    assert 2.0 * c * (sum + v) == 2.0 * c * sum + 2.0 * c * v;
    assert Square(c) * (n + 1.0) == Square(c) * n + Square(c);
  }

  lemma MomentsGrow(a: Moments, xs: seq<real>, v: real, c: real)
    requires MomentsOf(a, xs, c)
    ensures MomentsOf(AddReading(a, Some(v)), xs + [v], c)
  {
    PrefixSums(xs, v, c, |xs|);
    ExpandedGrows(a.count as real, a.sum, a.sumSq, v, c);
  }

  /** The running moments of a group are those of its readings. */
  lemma {:induction false} MomentsAreOfReadings(lib: Library, raws: seq<string>, key: Key, metric: Metric, c: real, m: nat)
    requires m <= |raws|
    ensures MomentsOf(Of(TallyOf(lib, raws, key, m).agg, metric), Readings(lib, raws, key, metric, m), c)
  {
    if m == 0 {
    } else {
      MomentsAreOfReadings(lib, raws, key, metric, c, m - 1);
      var line := Classify(lib, raws[m - 1]);
      if InGroup(line, key) && Reading(line.entry, metric).Some? {
        MomentsGrow(Of(TallyOf(lib, raws, key, m - 1).agg, metric), Readings(lib, raws, key, metric, m - 1),
                    Reading(line.entry, metric).value, c);
      }
    }
  }

  /** Moments whose mean and variance are those of a list of readings: the mean is theirs,
      the variance is their mean squared distance from it, and the running sums satisfy the
      Cauchy-Schwarz inequality. */
  ghost predicate Summarises(a: Moments, xs: seq<real>) {
    && a.count == |xs|
    && a.sum == Sum(xs, |xs|)
    && a.sum * a.sum <= a.count as real * a.sumSq
    && (a.count > 0 ==>
      && Mean(a) * a.count as real == a.sum
      && Variance(a) == Deviation(xs, Mean(a), |xs|) / a.count as real
      && Variance(a) >= 0.0)
  }

  lemma VarianceFromExpansion(a: Moments, d: real)
    requires a.count > 0 && d == Expanded(a, Mean(a)) && d >= 0.0
    ensures Mean(a) * a.count as real == a.sum
    ensures Variance(a) == d / a.count as real && Variance(a) >= 0.0
    ensures a.sum * a.sum <= a.count as real * a.sumSq
  {
  }

  lemma SummaryFromExpansion(a: Moments, xs: seq<real>, mean: real)
    requires MomentsOf(a, xs, mean)
    requires if a.count > 0 then mean == Mean(a) else a.sumSq == 0.0
    ensures Summarises(a, xs)
  {
    if a.count > 0 {
      VarianceFromExpansion(a, Deviation(xs, mean, |xs|));
    }
  }

  /** The variance is the mean squared distance of the group's readings from their mean, so
      the clamp at zero never acts. */
  lemma VarianceIsMeanSquaredDeviation(lib: Library, raws: seq<string>, key: Key, metric: Metric)
    ensures Summarises(Of(Totals(lib, raws, key), metric), Readings(lib, raws, key, metric, |raws|))
  {
    var a, xs := Of(Totals(lib, raws, key), metric), Readings(lib, raws, key, metric, |raws|);
    var mean := if a.count > 0 then Mean(a) else 0.0;
    MomentsAreOfReadings(lib, raws, key, metric, mean, |raws|);
    SummaryFromExpansion(a, xs, mean);
  }

  /** The mean of the readings, the root of their population variance, and that root over
      the root of their number. */
  ghost predicate Describes(o: Option<Spread>, xs: seq<real>) {
    match o
    case None => xs == []
    case Some(s) => |xs| > 0 && Fits(s, |xs| as real, Sum(xs, |xs|), Deviation(xs, s.mean, |xs|))
  }

  /** The fields of a spread against the number, the sum and the squared deviations of its readings. */
  predicate Fits(s: Spread, n: real, sum: real, deviation: real)
    requires n > 0.0
  {
    && s.mean * n == sum
    && Square(s.std) == deviation / n
    && Square(s.stderr) * n == Square(s.std)
  }

  lemma PlainFields(s: Spread, n: real, sum: real, v: real, deviation: real)
    requires n > 0.0 && s.mean * n == sum && v == deviation / n && Square(s.std) == v && Square(s.stderr) * n == v
    ensures Fits(s, n, sum, deviation)
  {
  }

  lemma SpreadIsPopulation(lib: Library, a: Moments, xs: seq<real>)
    requires Laws(lib) && Summarises(a, xs)
    ensures Describes(SpreadOf(lib, a), xs)
  {
    if a.count > 0 {
      PlainFields(SpreadOf(lib, a).value, |xs| as real, Sum(xs, |xs|), Variance(a), Deviation(xs, Mean(a), |xs|));
    }
  }

  // ---------------------------------------------------------------- conservation

  /** The sum of the group sizes over a set of keys. */
  ghost function Sizes(lib: Library, raws: seq<string>, keys: set<Key>, m: nat): nat
    requires m <= |raws|
  {
    if keys == {} then 0
    else
      var k :| k in keys;
      TallyOf(lib, raws, k, m).agg.n + Sizes(lib, raws, keys - {k}, m)
  }

  lemma {:induction false} SizesTakeOut(lib: Library, raws: seq<string>, keys: set<Key>, k: Key, m: nat)
    requires m <= |raws| && k in keys
    ensures Sizes(lib, raws, keys, m) == TallyOf(lib, raws, k, m).agg.n + Sizes(lib, raws, keys - {k}, m)
    decreases keys
  {
    var j :| j in keys && Sizes(lib, raws, keys, m) == TallyOf(lib, raws, j, m).agg.n + Sizes(lib, raws, keys - {j}, m);
    if j != k {
      SizesTakeOut(lib, raws, keys - {j}, k, m);
      SizesTakeOut(lib, raws, keys - {k}, j, m);
      assert keys - {j} - {k} == keys - {k} - {j};
    }
  }

  lemma {:induction false} SizesUnchanged(lib: Library, raws: seq<string>, keys: set<Key>, m: nat)
    requires 0 < m <= |raws|
    requires forall k | k in keys :: !InGroup(Classify(lib, raws[m - 1]), k)
    ensures Sizes(lib, raws, keys, m) == Sizes(lib, raws, keys, m - 1)
    decreases keys
  {
    if keys != {} {
      var k :| k in keys;
      SizesTakeOut(lib, raws, keys, k, m);
      SizesTakeOut(lib, raws, keys, k, m - 1);
      SizesUnchanged(lib, raws, keys - {k}, m);
    }
  }

  /** The group sizes add up to the outcome lines. */
  lemma {:induction false} SizesAreOutcomes(lib: Library, raws: seq<string>, keys: set<Key>, any: Key, m: nat)
    requires m <= |raws| && Keys(lib, raws, m) <= keys
    ensures Sizes(lib, raws, keys, m) == TallyOf(lib, raws, any, m).counters.outcome
  {
    if m == 0 {
      NoSizes(lib, raws, keys);
    } else {
      SizesAreOutcomes(lib, raws, keys, any, m - 1);
      var line := Classify(lib, raws[m - 1]);
      if line.Outcome? {
        SizesTakeOut(lib, raws, keys, line.key, m);
        SizesTakeOut(lib, raws, keys, line.key, m - 1);
        SizesUnchanged(lib, raws, keys - {line.key}, m);
      } else {
        SizesUnchanged(lib, raws, keys, m);
      }
    }
  }

  lemma {:induction false} NoSizes(lib: Library, raws: seq<string>, keys: set<Key>)
    ensures Sizes(lib, raws, keys, 0) == 0
    decreases keys
  {
    if keys != {} {
      var k :| k in keys;
      SizesTakeOut(lib, raws, keys, k, 0);
      NoSizes(lib, raws, keys - {k});
    }
  }

  lemma {:induction false} CountsAreBounded(lib: Library, raws: seq<string>, key: Key, m: nat)
    requires m <= |raws|
    ensures var t := TallyOf(lib, raws, key, m);
      && t.agg.n <= t.counters.outcome <= t.counters.parsed <= t.counters.total <= m
      && t.agg.ok <= t.agg.n && t.agg.junk <= t.agg.n && t.agg.hardJunk <= t.agg.n
      && t.agg.f1.count <= t.agg.n && t.agg.ms.count <= t.agg.n && t.agg.cost.count <= t.agg.n
  {
    if m > 0 {
      CountsAreBounded(lib, raws, key, m - 1);
    }
  }

  // ---------------------------------------------------------------- the run

  function RowOf(lib: Library, a: Agg): Row
    requires Laws(lib)
  {
    Row(a.n, a.ok, a.junk, a.hardJunk, SpreadOf(lib, a.f1), SpreadOf(lib, a.ms), SpreadOf(lib, a.cost))
  }

  /** The report as a function of the lines read. */
  function Report(lib: Library, raws: seq<string>): Summary
    requires Laws(lib)
  {
    Summary(Count(lib, raws), map k | k in Keys(lib, raws, |raws|) :: RowOf(lib, Totals(lib, raws, k)))
  }

  /** The lines of the first m readable files, one after the other. */
  function AllLines(lib: Library, files: seq<Result<string, string>>, m: nat): seq<string>
    requires m <= |files| && forall f | 0 <= f < m :: files[f].Ok?
  {
    if m == 0 then [] else AllLines(lib, files, m - 1) + Lines(lib, files[m - 1].value)
  }

  /** Line i of file f is read, after all lines of the files before it. */
  lemma {:induction false} LineIsRead(lib: Library, files: seq<Result<string, string>>, m: nat, f: nat, i: nat)
    requires f < m <= |files| && (forall g | 0 <= g < m :: files[g].Ok?) && i < |Lines(lib, files[f].value)|
    ensures |AllLines(lib, files, m)| == |AllLines(lib, files, m - 1)| + |Lines(lib, files[m - 1].value)|
    ensures |AllLines(lib, files, f)| + i < |AllLines(lib, files, m)|
    ensures AllLines(lib, files, m)[|AllLines(lib, files, f)| + i] == Lines(lib, files[f].value)[i]
  {
    if f < m - 1 {
      LineIsRead(lib, files, m - 1, f, i);
    }
  }

  /** The map held by the loop: the totals of exactly the keys met. */
  ghost predicate Grouped(lib: Library, raws: seq<string>, groups: map<Key, Agg>) {
    && groups.Keys == Keys(lib, raws, |raws|)
    && forall k | k in groups :: groups[k] == Totals(lib, raws, k)
  }

  lemma TallySnoc(lib: Library, raws: seq<string>, raw: string, key: Key)
    ensures TallyOf(lib, raws + [raw], key, |raws| + 1)
         == AddLine(TallyOf(lib, raws, key, |raws|), Classify(lib, raw), key)
  {
    TallyLocal(lib, raws + [raw], raws, key, |raws|);
  }

  lemma {:induction false} KeysLocal(lib: Library, xs: seq<string>, ys: seq<string>, m: nat)
    requires m <= |xs| && m <= |ys|
    requires forall i | 0 <= i < m :: xs[i] == ys[i]
    ensures Keys(lib, xs, m) == Keys(lib, ys, m)
  {
    if m > 0 {
      KeysLocal(lib, xs, ys, m - 1);
    }
  }

  lemma GroupedStep(lib: Library, raws: seq<string>, groups: map<Key, Agg>, raw: string)
    requires Grouped(lib, raws, groups)
    ensures var line := Classify(lib, raw);
      Grouped(lib, raws + [raw],
        if line.Outcome?
        then groups[line.key := AddRecord(if line.key in groups then groups[line.key] else EMPTY, line.entry)]
        else groups)
  {
    var line := Classify(lib, raw);
    KeysLocal(lib, raws + [raw], raws, |raws|);
    if line.Outcome? {
      KeyHasRecords(lib, raws, line.key, |raws|);
    }
    forall k: Key
      ensures Totals(lib, raws + [raw], k)
           == if InGroup(line, k) then AddRecord(Totals(lib, raws, k), line.entry) else Totals(lib, raws, k)
    {
      TallySnoc(lib, raws, raw, k);
    }
  }

  /** Either the error of the first unreadable file, or the report on all the lines. */
  method AggregateJsonlPaths(lib: Library, files: seq<Result<string, string>>) returns (r: Result<Summary, string>)
    requires Laws(lib)
    ensures match r
      case Err(e) => exists f :: 0 <= f < |files| && files[f] == Err(e) && forall g | 0 <= g < f :: files[g].Ok?
      case Ok(s) => (forall f | 0 <= f < |files| :: files[f].Ok?) && s == Report(lib, AllLines(lib, files, |files|))
  {
    var groups: map<Key, Agg> := map[];
    var linesTotal, linesParsed, linesOutcome := 0, 0, 0;
    for f := 0 to |files|
      invariant forall g | 0 <= g < f :: files[g].Ok?
      invariant Counters(linesTotal, linesParsed, linesOutcome) == Count(lib, AllLines(lib, files, f))
      invariant Grouped(lib, AllLines(lib, files, f), groups)
    {
      if files[f].Err? {
        return Err(files[f].error);
      }
      var lines := Lines(lib, files[f].value);
      ghost var before := AllLines(lib, files, f);
      assert before + lines[..0] == before;
      for i := 0 to |lines|
        invariant Counters(linesTotal, linesParsed, linesOutcome) == Count(lib, before + lines[..i])
        invariant Grouped(lib, before + lines[..i], groups)
      {
        ghost var seen := before + lines[..i];
        assert before + lines[..i + 1] == seen + [lines[i]];
        TallySnoc(lib, seen, lines[i], Key("", "", "", ""));
        GroupedStep(lib, seen, groups, lines[i]);
        var line := Classify(lib, lines[i]);
        if line.Blank? {
          continue;
        }
        linesTotal := linesTotal + 1;
        if line.Malformed? {
          continue;
        }
        linesParsed := linesParsed + 1;
        if line.Other? {
          continue;
        }
        linesOutcome := linesOutcome + 1;
        var a := if line.key in groups then groups[line.key] else EMPTY;
        groups := groups[line.key := AddRecord(a, line.entry)];
      }
      assert before + lines[..|lines|] == before + lines;
    }
    var rows := map k | k in groups :: RowOf(lib, groups[k]);
    r := Ok(Summary(Counters(linesTotal, linesParsed, linesOutcome), rows));
  }

  // ---------------------------------------------------------------- what a report is worth

  /** A report depends only on which lines were read, not on their order or on how they
      were split into files. */
  lemma ReportIgnoresOrderAndSplit(lib: Library, xs: seq<string>, ys: seq<string>)
    requires Laws(lib) && multiset(xs) == multiset(ys)
    ensures Report(lib, xs) == Report(lib, ys)
  {
    TallyIgnoresOrder(lib, xs, ys, Key("", "", "", ""));
    forall k: Key
      ensures Totals(lib, xs, k) == Totals(lib, ys, k)
      ensures k in Keys(lib, xs, |xs|) <==> k in Keys(lib, ys, |ys|)
    {
      TallyIgnoresOrder(lib, xs, ys, k);
      KeyHasRecords(lib, xs, k, |xs|);
      KeyHasRecords(lib, ys, k, |ys|);
    }
    assert Keys(lib, xs, |xs|) == Keys(lib, ys, |ys|);
  }

  function PrimaryF1(v: Record): Option<real> { v.primaryF1 }

  function ElapsedMs(v: Record): Option<real> {
    if v.elapsedMs.Some? then Some(v.elapsedMs.value as real) else None
  }

  function CostUnits(v: Record): Option<real> {
    if v.costUnits.Some? then Some(v.costUnits.value as real) else None
  }

  /** The values of a field in the records of a group's lines, in order. */
  function Column(lib: Library, raws: seq<string>, key: Key, field: Record -> Option<real>, m: nat): seq<real>
    requires m <= |raws|
  {
    if m == 0 then []
    else
      var rest, raw := Column(lib, raws, key, field, m - 1), raws[m - 1];
      if LineBelongs(lib, raw, key) && field(ParseJson(lib, Trim(lib, raw)).value).Some?
      then rest + [field(ParseJson(lib, Trim(lib, raw)).value).value]
      else rest
  }

  lemma {:induction false} ReadingsAreColumn(lib: Library, raws: seq<string>, key: Key, metric: Metric, field: Record -> Option<real>, m: nat)
    requires m <= |raws| && forall v: Record :: field(v) == Reading(v, metric)
    ensures Readings(lib, raws, key, metric, m) == Column(lib, raws, key, field, m)
  {
    if m > 0 {
      ReadingsAreColumn(lib, raws, key, metric, field, m - 1);
      InGroupIff(lib, raws[m - 1], key);
    }
  }

  /** Every row describes the F1 scores, the elapsed times and the costs in the records of
      its own group. */
  lemma RowsDescribeReadings(lib: Library, raws: seq<string>, k: Key)
    requires Laws(lib) && k in Report(lib, raws).groups
    ensures var row, m := Report(lib, raws).groups[k], |raws|;
      && Describes(row.f1, Column(lib, raws, k, PrimaryF1, m))
      && Describes(row.ms, Column(lib, raws, k, ElapsedMs, m))
      && Describes(row.cost, Column(lib, raws, k, CostUnits, m))
  {
    DescribeMetric(lib, raws, k, F1);
    DescribeMetric(lib, raws, k, Ms);
    DescribeMetric(lib, raws, k, Cost);
    ReadingsAreColumn(lib, raws, k, F1, PrimaryF1, |raws|);
    ReadingsAreColumn(lib, raws, k, Ms, ElapsedMs, |raws|);
    ReadingsAreColumn(lib, raws, k, Cost, CostUnits, |raws|);
  }

  lemma {:induction false} KeysAreOfLines(lib: Library, raws: seq<string>, key: Key, m: nat)
    requires m <= |raws|
    ensures key in Keys(lib, raws, m) <==> exists i :: 0 <= i < m && LineBelongs(lib, raws[i], key)
  {
    if m > 0 {
      KeysAreOfLines(lib, raws, key, m - 1);
      InGroupIff(lib, raws[m - 1], key);
    }
  }

  /** The groups reported are those that some outcome line belongs to. */
  lemma GroupsAreOfLines(lib: Library, raws: seq<string>, key: Key)
    requires Laws(lib)
    ensures key in Report(lib, raws).groups <==> exists i :: 0 <= i < |raws| && LineBelongs(lib, raws[i], key)
  {
    KeysAreOfLines(lib, raws, key, |raws|);
  }

  lemma DescribeMetric(lib: Library, raws: seq<string>, k: Key, metric: Metric)
    requires Laws(lib)
    ensures Describes(SpreadOf(lib, Of(Totals(lib, raws, k), metric)), Readings(lib, raws, k, metric, |raws|))
  {
    VarianceIsMeanSquaredDeviation(lib, raws, k, metric);
    SpreadIsPopulation(lib, Of(Totals(lib, raws, k), metric), Readings(lib, raws, k, metric, |raws|));
  }

  // ---------------------------------------------------------------- what is counted

  datatype Question = IsLine | IsJson | IsOutcome | OfGroup | IsOk | IsJunk | IsHardJunk

  /** What is asked of a line, in terms of its text and of the fields of its record. */
  predicate HoldsAt(lib: Library, raws: seq<string>, key: Key, q: Question, i: nat)
    requires i < |raws|
  {
    var text, v := Trim(lib, raws[i]), ParseJson(lib, Trim(lib, raws[i]));
    match q
    case IsLine => text != ""
    case IsJson => text != "" && v.Some?
    case IsOutcome => text != "" && v.Some? && v.value.recordType == Some("outcome")
    case OfGroup => LineBelongs(lib, raws[i], key)
    case IsOk => LineBelongs(lib, raws[i], key) && v.value.ok == Some(true)
    case IsJunk => LineBelongs(lib, raws[i], key) && v.value.junk == Some(true)
    case IsHardJunk => LineBelongs(lib, raws[i], key) && v.value.hardJunk == Some(true)
  }

  /** The answers for the first m lines. */
  function Answers(lib: Library, raws: seq<string>, key: Key, q: Question, m: nat): (r: seq<bool>)
    requires m <= |raws|
    ensures |r| == m
    ensures forall i: nat {:trigger r[i]} | i < m :: r[i] == HoldsAt(lib, raws, key, q, i)
  {
    if m == 0 then [] else Answers(lib, raws, key, q, m - 1) + [HoldsAt(lib, raws, key, q, m - 1)]
  }

  function TrueAt(flags: seq<bool>, m: nat): (r: set<nat>)
    requires m <= |flags|
    ensures forall i: nat :: i in r <==> i < m && flags[i]
  {
    if m == 0 then {} else TrueAt(flags, m - 1) + if flags[m - 1] then {m - 1} else {}
  }

  /** The positions of the lines for which the answer is yes. */
  function Positions(lib: Library, raws: seq<string>, key: Key, q: Question): set<nat> {
    TrueAt(Answers(lib, raws, key, q, |raws|), |raws|)
  }

  function HowMany(flags: seq<bool>, m: nat): nat
    requires m <= |flags|
  {
    if m == 0 then 0 else HowMany(flags, m - 1) + One(flags[m - 1])
  }

  lemma {:induction false} TrueAtSize(flags: seq<bool>, m: nat)
    requires m <= |flags|
    ensures |TrueAt(flags, m)| == HowMany(flags, m)
  {
    if m > 0 {
      TrueAtSize(flags, m - 1);
      assert m - 1 !in TrueAt(flags, m - 1);
    }
  }

  function Answer(t: Tally, q: Question): nat {
    match q
    case IsLine => t.counters.total
    case IsJson => t.counters.parsed
    case IsOutcome => t.counters.outcome
    case OfGroup => t.agg.n
    case IsOk => t.agg.ok
    case IsJunk => t.agg.junk
    case IsHardJunk => t.agg.hardJunk
  }

  lemma TallyStep(lib: Library, raws: seq<string>, key: Key, q: Question, m: nat, flag: bool)
    requires 0 < m <= |raws| && flag == HoldsAt(lib, raws, key, q, m - 1)
    ensures Answer(TallyOf(lib, raws, key, m), q) == Answer(TallyOf(lib, raws, key, m - 1), q) + One(flag)
  {
    InGroupIff(lib, raws[m - 1], key);
  }

  lemma {:induction false} TallyCountsAnswers(lib: Library, raws: seq<string>, key: Key, q: Question, flags: seq<bool>, m: nat)
    requires m <= |raws| && flags == Answers(lib, raws, key, q, |raws|)
    ensures Answer(TallyOf(lib, raws, key, m), q) == HowMany(flags, m)
  {
    if m > 0 {
      TallyCountsAnswers(lib, raws, key, q, flags, m - 1);
      TallyStep(lib, raws, key, q, m, flags[m - 1]);
    }
  }

  /** Every counter and every count of a group is the number of the lines it is about. */
  lemma CountsAreOfLines(lib: Library, raws: seq<string>, key: Key, q: Question)
    ensures Answer(TallyOf(lib, raws, key, |raws|), q) == |Positions(lib, raws, key, q)|
  {
    var flags := Answers(lib, raws, key, q, |raws|);
    TallyCountsAnswers(lib, raws, key, q, flags, |raws|);
    TrueAtSize(flags, |raws|);
  }

  /** So are the counters of the report. */
  lemma ReportCountsLines(lib: Library, raws: seq<string>, key: Key)
    requires Laws(lib)
    ensures var c := Report(lib, raws).counters;
      && c.total == |Positions(lib, raws, key, IsLine)|
      && c.parsed == |Positions(lib, raws, key, IsJson)|
      && c.outcome == |Positions(lib, raws, key, IsOutcome)|
  {
    CountersIgnoreKey(lib, raws, Key("", "", "", ""), key, |raws|);
    CountsAreOfLines(lib, raws, key, IsLine);
    CountsAreOfLines(lib, raws, key, IsJson);
    CountsAreOfLines(lib, raws, key, IsOutcome);
  }

  function RowCount(row: Row, q: Question): nat
    requires q !in {IsLine, IsJson, IsOutcome}
  {
    match q
    case OfGroup => row.n
    case IsOk => row.ok
    case IsJunk => row.junk
    case IsHardJunk => row.hardJunk
  }

  /** And the counts of every row. */
  lemma RowCountsLines(lib: Library, raws: seq<string>, key: Key, q: Question)
    requires Laws(lib) && key in Report(lib, raws).groups && q !in {IsLine, IsJson, IsOutcome}
    ensures RowCount(Report(lib, raws).groups[key], q) == |Positions(lib, raws, key, q)|
  {
    CountsAreOfLines(lib, raws, key, q);
  }

  predicate RowBounded(row: Row) {
    0 < row.n && row.ok <= row.n && row.junk <= row.n && row.hardJunk <= row.n
  }

  lemma RowIsBounded(lib: Library, raws: seq<string>, k: Key)
    requires Laws(lib) && k in Keys(lib, raws, |raws|)
    ensures RowOf(lib, Totals(lib, raws, k)).n == Totals(lib, raws, k).n
    ensures RowBounded(RowOf(lib, Totals(lib, raws, k)))
  {
    KeyHasRecords(lib, raws, k, |raws|);
    CountsAreBounded(lib, raws, k, |raws|);
  }

  /** Every outcome line is counted in exactly one group, and the counters nest. */
  lemma ReportConserves(lib: Library, raws: seq<string>)
    requires Laws(lib)
    ensures var s := Report(lib, raws);
      && Sizes(lib, raws, s.groups.Keys, |raws|) == s.counters.outcome <= s.counters.parsed <= s.counters.total <= |raws|
      && forall k | k in s.groups :: s.groups[k].n == Totals(lib, raws, k).n && RowBounded(s.groups[k])
  {
    var any := Key("", "", "", "");
    var s := Report(lib, raws);
    assert s.groups.Keys == Keys(lib, raws, |raws|);
    SizesAreOutcomes(lib, raws, s.groups.Keys, any, |raws|);
    CountsAreBounded(lib, raws, any, |raws|);
    forall k | k in s.groups
      ensures s.groups[k].n == Totals(lib, raws, k).n && RowBounded(s.groups[k])
    {
      RowIsBounded(lib, raws, k);
    }
  }
}
