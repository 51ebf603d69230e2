/** Merging evaluation results into the append-only JSONL log, one row per key. */
module JsonlMerge {
  import opened Wrappers

  /** A result row: the fields read here, the seed as printed, and the rest of the object. */
  datatype Row = Row(backend: Option<string>, dataset: Option<string>, seed: Option<string>, f1: Option<real>, rest: string)

  /** Library calls: stripping white space, JSON decoding and encoding of a line. */
  datatype Library = Library(strip: string -> string, parse: string -> Option<Row>, dump: Row -> string)

  function Strip(lib: Library, s: string): string { lib.strip(s) }

  function ParseJson(lib: Library, s: string): Option<Row> { lib.parse(s) }

  function Dump(lib: Library, r: Row): string { lib.dump(r) }

  /** The row has a line: its encoding is not blank and decodes to it. */
  predicate Encodes(lib: Library, r: Row) {
    Strip(lib, Dump(lib, r)) != "" && ParseJson(lib, Dump(lib, r)) == Some(r)
  }

  /** What a line decodes to has a line. */
  ghost predicate Laws(lib: Library) {
    forall s {:trigger ParseJson(lib, s)} | ParseJson(lib, s).Some? :: Encodes(lib, ParseJson(lib, s).value)
  }

  /** Such rows can be written out and read back. */
  predicate AllEncode(lib: Library, rows: seq<Row>) {
    forall r | r in rows :: Encodes(lib, r)
  }

  /** For any two rows there is a library that obeys the law and has lines for both. */
  lemma LawsCanBeMet(a: Row, b: Row) returns (lib: Library)
    ensures Laws(lib) && AllEncode(lib, [a, b])
  {
    lib := Library(s => s, s => if s == "a" then Some(a) else if s == "b" then Some(b) else None, r => if r == a then "a" else "b");
    assert Dump(lib, a) == "a" && (b == a || Dump(lib, b) == "b");
    assert ParseJson(lib, "a") == Some(a) && ParseJson(lib, "b") == Some(b);
  }

  function ResultKey(r: Row): string {
    Or(r.backend, "unknown") + "|" + Or(r.dataset, "unknown") + "|" + Or(r.seed, "42")
  }

  /** A row without a score counts as zero. */
  function F1(r: Row): (score: real)
    ensures r.f1.Some? ==> score == r.f1.value
    ensures r.f1.None? ==> score == 0.0
  {
    Or(r.f1, 0.0)
  }

  /** The backend and the dataset of a row hold no bar, as their names do not. */
  predicate BarFree(r: Row) {
    (r.backend.Some? ==> '|' !in r.backend.value) && (r.dataset.Some? ==> '|' !in r.dataset.value)
  }

  lemma FirstBar(a: string, b: string, c: string, d: string)
    requires '|' !in a && '|' !in c && a + "|" + b == c + "|" + d
    ensures a == c && b == d
  {
    var s := a + "|" + b;
    assert s == c + "|" + d && s[|a|] == '|' && s[|c|] == '|';
    assert forall i | 0 <= i < |a| :: s[i] == a[i] && s[i] in a;
    assert forall i | 0 <= i < |c| :: s[i] == c[i] && s[i] in c;
    assert a == s[..|a|] && c == s[..|c|] && b == s[|a| + 1..] && d == s[|c| + 1..];
  }

  /** Rows have one key exactly if they agree on backend, dataset and seed, a missing one
      counting as `unknown`, `unknown` and 42. */
  lemma SameKeyIff(r: Row, q: Row)
    requires BarFree(r) && BarFree(q)
    ensures ResultKey(r) == ResultKey(q) <==>
      && (if r.backend.Some? then r.backend.value else "unknown") == (if q.backend.Some? then q.backend.value else "unknown")
      && (if r.dataset.Some? then r.dataset.value else "unknown") == (if q.dataset.Some? then q.dataset.value else "unknown")
      && (if r.seed.Some? then r.seed.value else "42") == (if q.seed.Some? then q.seed.value else "42")
  {
    var a, b, c := Or(r.backend, "unknown"), Or(r.dataset, "unknown"), Or(r.seed, "42");
    var x, y, z := Or(q.backend, "unknown"), Or(q.dataset, "unknown"), Or(q.seed, "42");
    assert ResultKey(r) == a + "|" + (b + "|" + c) && ResultKey(q) == x + "|" + (y + "|" + z);
    if ResultKey(r) == ResultKey(q) {
      FirstBar(a, b + "|" + c, x, y + "|" + z);
      FirstBar(b, c, y, z);
    }
  }

  /** With a bar in a name, different rows can have one key. */
  lemma BarsConfuse(seed: string)
    ensures ResultKey(Row(Some("a|b"), Some("c"), Some(seed), None, "")) == ResultKey(Row(Some("a"), Some("b|c"), Some(seed), None, ""))
  {
    assert "a|b" + "|" + "c" + "|" + seed == "a" + "|" + "b|c" + "|" + seed;
  }

  // ---------------------------------------------------------------- dictionaries

  /** A dictionary that remembers the order in which its keys were first inserted. */
  datatype Dict = Dict(order: seq<string>, rows: map<string, Row>)

  const EMPTY := Dict([], map[])

  function Put(d: Dict, k: string, r: Row): Dict {
    Dict(if k in d.rows then d.order else d.order + [k], d.rows[k := r])
  }

  predicate Distinct(keys: seq<string>) {
    forall i, j | 0 <= i < j < |keys| :: keys[i] != keys[j]
  }

  /** The order lists every key once, and every row is stored under its own key. */
  ghost predicate Good(d: Dict) {
    && Distinct(d.order)
    && (forall k: string :: k in d.order <==> k in d.rows)
    && forall k | k in d.rows :: ResultKey(d.rows[k]) == k
  }

  lemma PutKeepsGood(d: Dict, r: Row)
    requires Good(d)
    ensures Good(Put(d, ResultKey(r), r))
  {
    var k := ResultKey(r);
    if k !in d.rows {
      assert k !in d.order;
      assert forall j: string :: j in d.order + [k] <==> j in d.order || j == k;
    }
  }

  /** `{result_key(r): r for r in rows}`. */
  function ByKey(rows: seq<Row>, m: nat): Dict
    requires m <= |rows|
  {
    if m == 0 then EMPTY else Put(ByKey(rows, m - 1), ResultKey(rows[m - 1]), rows[m - 1])
  }

  lemma {:induction false} ByKeyIsGood(rows: seq<Row>, m: nat)
    requires m <= |rows|
    ensures Good(ByKey(rows, m))
  {
    if m > 0 {
      ByKeyIsGood(rows, m - 1);
      PutKeepsGood(ByKey(rows, m - 1), rows[m - 1]);
    }
  }

  /** The values in insertion order. */
  function Values(d: Dict, m: nat): (r: seq<Row>)
    requires m <= |d.order| && forall k | k in d.order :: k in d.rows
    ensures |r| == m
    ensures forall i {:trigger r[i]} | 0 <= i < m :: r[i] == d.rows[d.order[i]]
  {
    if m == 0 then [] else Values(d, m - 1) + [d.rows[d.order[m - 1]]]
  }

  // ---------------------------------------------------------------- merging

  function MergeOne(d: Dict, r: Row): Dict {
    var k := ResultKey(r);
    if k in d.rows && F1(r) <= F1(d.rows[k]) then d else Put(d, k, r)
  }

  function Merge(d: Dict, news: seq<Row>, m: nat): Dict
    requires m <= |news|
  {
    if m == 0 then d else MergeOne(Merge(d, news, m - 1), news[m - 1])
  }

  lemma {:induction false} MergeIsGood(d: Dict, news: seq<Row>, m: nat)
    requires m <= |news| && Good(d)
    ensures Good(Merge(d, news, m))
    ensures d.order <= Merge(d, news, m).order
  {
    if m > 0 {
      MergeIsGood(d, news, m - 1);
      PutKeepsGood(Merge(d, news, m - 1), news[m - 1]);
    }
  }

  // ---------------------------------------------------------------- the file

  /** `load_jsonl`: a missing file is empty; blank and malformed lines are skipped. */
  method LoadJsonl(lib: Library, file: Option<seq<string>>) returns (results: seq<Row>)
    ensures results == Loaded(lib, file)
  {
    if file.None? {
      return [];
    }
    results := [];
    for i := 0 to |file.value|
      invariant results == Rows(lib, file.value, i)
    {
      if Strip(lib, file.value[i]) != "" {
        var parsed := ParseJson(lib, file.value[i]);
        if parsed.Some? {
          results := results + [parsed.value];
        }
      }
    }
  }

  function Rows(lib: Library, lines: seq<string>, m: nat): seq<Row>
    requires m <= |lines|
  {
    if m == 0 then []
    else
      var parsed := ParseJson(lib, lines[m - 1]);
      Rows(lib, lines, m - 1) + if Strip(lib, lines[m - 1]) != "" && parsed.Some? then [parsed.value] else []
  }

  /** The lines that count are those that are neither blank nor malformed. */
  predicate Counts(lib: Library, line: string) { Strip(lib, line) != "" && ParseJson(lib, line).Some? }

  /** The loaded rows are what these lines decode to, in order. */
  lemma {:induction false} RowsAreOfLines(lib: Library, lines: seq<string>, m: nat) returns (at: seq<nat>)
    requires m <= |lines|
    ensures |at| == |Rows(lib, lines, m)|
    ensures forall i | 0 <= i < m && Counts(lib, lines[i]) :: i in at
    ensures forall k {:trigger at[k]} | 0 <= k < |at| ::
      at[k] < m && Counts(lib, lines[at[k]]) && ParseJson(lib, lines[at[k]]) == Some(Rows(lib, lines, m)[k])
    ensures forall j, k | 0 <= j < k < |at| :: at[j] < at[k]
  {
    at := [];
    if m > 0 {
      at := RowsAreOfLines(lib, lines, m - 1);
      if Counts(lib, lines[m - 1]) {
        at := at + [m - 1];
      }
    }
  }

  function Loaded(lib: Library, file: Option<seq<string>>): seq<Row> {
    if file.None? then [] else Rows(lib, file.value, |file.value|)
  }

  /** What the file means to the next run: its rows by key. */
  function Index(lib: Library, file: Option<seq<string>>): Dict {
    ByKey(Loaded(lib, file), |Loaded(lib, file)|)
  }

  function DumpAll(lib: Library, rows: seq<Row>, m: nat): (r: seq<string>)
    requires m <= |rows|
    ensures |r| == m
    ensures forall i {:trigger r[i]} | 0 <= i < m :: r[i] == Dump(lib, rows[i])
  {
    if m == 0 then [] else DumpAll(lib, rows, m - 1) + [Dump(lib, rows[m - 1])]
  }

  lemma {:induction false} RowsOfDumped(lib: Library, rows: seq<Row>, m: nat, k: nat)
    requires AllEncode(lib, rows) && k <= m <= |rows|
    ensures |Rows(lib, DumpAll(lib, rows, m), k)| == k
    ensures forall i | 0 <= i < k :: Rows(lib, DumpAll(lib, rows, m), k)[i] == rows[i]
  {
    if k > 0 {
      RowsOfDumped(lib, rows, m, k - 1);
      assert DumpAll(lib, rows, m)[k - 1] == Dump(lib, rows[k - 1]);
      assert Encodes(lib, rows[k - 1]);
    }
  }

  /** The dictionary lists these keys in this order, with these rows. */
  predicate Lists(d: Dict, keys: seq<string>, rows: seq<Row>, m: nat)
    requires m <= |keys| == |rows|
  {
    && d.order == keys[..m]
    && (forall i | 0 <= i < m :: keys[i] in d.rows && d.rows[keys[i]] == rows[i])
    && forall k | k in d.rows :: k in keys[..m]
  }

  lemma ListsOneMore(d: Dict, keys: seq<string>, rows: seq<Row>, m: nat)
    requires m < |keys| == |rows| && Distinct(keys) && Lists(d, keys, rows, m)
    ensures Lists(Put(d, keys[m], rows[m]), keys, rows, m + 1)
  {
    assert keys[..m + 1] == keys[..m] + [keys[m]];
    assert keys[m] !in keys[..m];
  }

  /** Rows with distinct keys are listed by key as they come. */
  lemma {:induction false} ByKeyOfDistinct(keys: seq<string>, rows: seq<Row>, m: nat)
    requires m <= |keys| == |rows| && Distinct(keys) && forall i | 0 <= i < |rows| :: ResultKey(rows[i]) == keys[i]
    ensures Lists(ByKey(rows, m), keys, rows, m)
  {
    if m > 0 {
      ByKeyOfDistinct(keys, rows, m - 1);
      ListsOneMore(ByKey(rows, m - 1), keys, rows, m - 1);
    }
  }

  lemma ListedIsSame(d: Dict, e: Dict, values: seq<Row>)
    requires Good(d) && values == Values(d, |d.order|) && Lists(e, d.order, values, |d.order|)
    ensures e == d
  {
    assert d.order[..|d.order|] == d.order;
    assert e.rows == d.rows;
  }

  lemma ValueKeys(d: Dict, values: seq<Row>)
    requires Good(d) && values == Values(d, |d.order|)
    ensures forall i | 0 <= i < |values| :: ResultKey(values[i]) == d.order[i]
  {
  }

  /** Every stored row has a line. */
  predicate StoredEncode(lib: Library, d: Dict) {
    forall k | k in d.rows :: Encodes(lib, d.rows[k])
  }

  /** Writing a dictionary out and loading it again gives the same dictionary. */
  lemma ReloadIsSame(lib: Library, d: Dict)
    requires Good(d) && StoredEncode(lib, d)
    ensures var file := Some(DumpAll(lib, Values(d, |d.order|), |d.order|));
      Index(lib, file) == d && Loaded(lib, file) == Values(d, |d.order|)
  {
    var n := |d.order|;
    var values := Values(d, n);
    RowsOfDumped(lib, values, n, n);
    assert Rows(lib, DumpAll(lib, values, n), n) == values;
    ValueKeys(d, values);
    ByKeyOfDistinct(d.order, values, n);
    ListedIsSame(d, ByKey(values, n), values);
  }

  // ---------------------------------------------------------------- one run

  /** The rows by key after a run. */
  function Merged(lib: Library, file: Option<seq<string>>, news: seq<Row>): (d: Dict)
    ensures Good(d)
  {
    var before := Index(lib, file);
    ByKeyIsGood(Loaded(lib, file), |Loaded(lib, file)|);
    MergeIsGood(before, news, |news|);
    Merge(before, news, |news|)
  }

  /** The file after a run. */
  function Appended(lib: Library, file: Option<seq<string>>, news: seq<Row>): Option<seq<string>> {
    var d := Merged(lib, file, news);
    Some(DumpAll(lib, Values(d, |d.order|), |d.order|))
  }

  method AppendJsonl(lib: Library, file: Option<seq<string>>, news: seq<Row>)
    returns (written: Option<seq<string>>, added: nat)
    ensures written == Appended(lib, file, news)
    ensures added == |Merged(lib, file, news).order| - |Index(lib, file).order|
  {
    var existing := LoadJsonl(lib, file);
    var byKey := EMPTY;
    for i := 0 to |existing|
      invariant byKey == ByKey(existing, i)
    {
      byKey := Put(byKey, ResultKey(existing[i]), existing[i]);
    }
    ghost var before := byKey;
    added := 0;
    for i := 0 to |news|
      invariant byKey == Merge(before, news, i)
      invariant added == |byKey.order| - |before.order|
    {
      var key := ResultKey(news[i]);
      if key in byKey.rows {
        var current := byKey.rows[key];
        if F1(news[i]) > F1(current) {
          byKey := Put(byKey, key, news[i]);
        }
      } else {
        byKey := Put(byKey, key, news[i]);
        added := added + 1;
      }
    }
    assert byKey == Merged(lib, file, news);
    written := Some(DumpAll(lib, Values(byKey, |byKey.order|), |byKey.order|));
  }

  lemma {:induction false} LoadedEncode(lib: Library, lines: seq<string>, m: nat)
    requires Laws(lib) && m <= |lines|
    ensures AllEncode(lib, Rows(lib, lines, m))
  {
    if m > 0 {
      LoadedEncode(lib, lines, m - 1);
    }
  }

  lemma {:induction false} ByKeyEncodes(lib: Library, rows: seq<Row>, m: nat)
    requires AllEncode(lib, rows) && m <= |rows|
    ensures StoredEncode(lib, ByKey(rows, m))
  {
    if m > 0 {
      ByKeyEncodes(lib, rows, m - 1);
    }
  }

  lemma {:induction false} MergeEncodes(lib: Library, d: Dict, news: seq<Row>, m: nat)
    requires StoredEncode(lib, d) && AllEncode(lib, news) && m <= |news|
    ensures StoredEncode(lib, Merge(d, news, m))
  {
    if m > 0 {
      MergeEncodes(lib, d, news, m - 1);
    }
  }

  /** Whatever the file held, what a run writes can be read back. */
  lemma MergedEncodes(lib: Library, file: Option<seq<string>>, news: seq<Row>)
    requires Laws(lib) && AllEncode(lib, news)
    ensures StoredEncode(lib, Merged(lib, file, news))
  {
    if file.Some? {
      LoadedEncode(lib, file.value, |file.value|);
    }
    ByKeyEncodes(lib, Loaded(lib, file), |Loaded(lib, file)|);
    MergeEncodes(lib, Index(lib, file), news, |news|);
  }

  /** Whatever the file held, after a run it has one row per key. */
  lemma OneRowPerKey(lib: Library, file: Option<seq<string>>, news: seq<Row>)
    requires Laws(lib) && AllEncode(lib, news)
    ensures var rows := Loaded(lib, Appended(lib, file, news));
      forall i, j | 0 <= i < j < |rows| :: ResultKey(rows[i]) != ResultKey(rows[j])
    ensures Index(lib, Appended(lib, file, news)) == Merged(lib, file, news)
  {
    MergedEncodes(lib, file, news);
    ReloadIsSame(lib, Merged(lib, file, news));
  }

  // ---------------------------------------------------------------- which rows survive

  /** The F1 stored under a key, if any. */
  function Stored(d: Dict, k: string): Option<real> {
    if k in d.rows then Some(F1(d.rows[k])) else None
  }

  /** `best` is the largest of an earlier score, if any, and of the new rows under key k. */
  ghost predicate IsBest(best: Option<real>, was: Option<real>, news: seq<Row>, k: string) {
    match best
    case None => was.None? && forall r | r in news :: ResultKey(r) != k
    case Some(b) =>
      && (was.Some? ==> was.value <= b)
      && (forall r | r in news && ResultKey(r) == k :: F1(r) <= b)
      && (was == Some(b) || exists r :: r in news && ResultKey(r) == k && F1(r) == b)
  }

  lemma BestIsUnique(a: Option<real>, b: Option<real>, was: Option<real>, xs: seq<Row>, ys: seq<Row>, k: string)
    requires forall r: Row :: r in xs <==> r in ys
    requires IsBest(a, was, xs, k) && IsBest(b, was, ys, k)
    ensures a == b
  {
  }

  lemma BestGrows(best: Option<real>, was: Option<real>, news: seq<Row>, r: Row, k: string)
    requires IsBest(best, was, news, k)
    ensures IsBest(if ResultKey(r) != k then best else if best.Some? && F1(r) <= best.value then best else Some(F1(r)),
                   was, news + [r], k)
  {
    assert forall q: Row :: q in news + [r] <==> q in news || q == r;
  }

  lemma {:induction false} MergeKeepsBest(d: Dict, news: seq<Row>, k: string, m: nat)
    requires m <= |news|
    ensures IsBest(Stored(Merge(d, news, m), k), Stored(d, k), news[..m], k)
  {
    if m > 0 {
      MergeKeepsBest(d, news, k, m - 1);
      assert news[..m] == news[..m - 1] + [news[m - 1]];
      BestGrows(Stored(Merge(d, news, m - 1), k), Stored(d, k), news[..m - 1], news[m - 1], k);
    }
  }

  /** After a run each key holds the largest F1 of its earlier entry and of all its new rows. */
  lemma RunKeepsBest(lib: Library, file: Option<seq<string>>, news: seq<Row>, k: string)
    ensures IsBest(Stored(Merged(lib, file, news), k), Stored(Index(lib, file), k), news, k)
  {
    MergeKeepsBest(Index(lib, file), news, k, |news|);
    assert news[..|news|] == news;
  }

  /** How the row under key k can come about: it is the old one, kept because no new row of
      the key scores higher, or a new one that scores higher than the old. */
  ghost predicate Survives(d: Dict, news: seq<Row>, k: string, m: nat, r: Row)
    requires m <= |news|
  {
    || (k in d.rows && r == d.rows[k] && forall i | 0 <= i < m && ResultKey(news[i]) == k :: F1(news[i]) <= F1(r))
    || (exists i ::
         && 0 <= i < m && news[i] == r && ResultKey(r) == k && (k in d.rows ==> F1(d.rows[k]) < F1(r))
         && (forall j | 0 <= j < m && ResultKey(news[j]) == k :: F1(news[j]) <= F1(r))
         && forall j | 0 <= j < i && ResultKey(news[j]) == k :: F1(news[j]) < F1(r))
  }

  lemma {:induction false} RowSurvives(d: Dict, news: seq<Row>, k: string, m: nat)
    requires m <= |news| && k in Merge(d, news, m).rows
    ensures Survives(d, news, k, m, Merge(d, news, m).rows[k])
  {
    if m > 0 {
      if k in Merge(d, news, m - 1).rows {
        RowSurvives(d, news, k, m - 1);
        SurvivesNext(d, news, k, m, Merge(d, news, m - 1).rows[k]);
      } else {
        NeverSeen(d, news, k, m - 1);
      }
    }
  }

  lemma SurvivesNext(d: Dict, news: seq<Row>, k: string, m: nat, r: Row)
    requires 0 < m <= |news| && Survives(d, news, k, m - 1, r)
    ensures ResultKey(news[m - 1]) != k || F1(news[m - 1]) <= F1(r) ==> Survives(d, news, k, m, r)
    ensures ResultKey(news[m - 1]) == k && F1(news[m - 1]) > F1(r) ==> Survives(d, news, k, m, news[m - 1])
  {
  }

  lemma {:induction false} NeverSeen(d: Dict, news: seq<Row>, k: string, m: nat)
    requires m <= |news| && k !in Merge(d, news, m).rows
    ensures k !in d.rows && forall i | 0 <= i < m :: ResultKey(news[i]) != k
  {
    if m > 0 {
      NeverSeen(d, news, k, m - 1);
    }
  }

  /** After a run the row of a key is its earlier entry unless a new row scores higher, and
      then the first of the best new rows. */
  lemma RunKeepsRow(lib: Library, file: Option<seq<string>>, news: seq<Row>, k: string)
    requires k in Merged(lib, file, news).rows
    ensures Survives(Index(lib, file), news, k, |news|, Merged(lib, file, news).rows[k])
  {
    RowSurvives(Index(lib, file), news, k, |news|);
  }

  // ---------------------------------------------------------------- all rows ever seen

  /** A file's entry under a key is the last of its rows with that key. */
  ghost predicate IsLast(i: nat, rows: seq<Row>, k: string, m: nat)
    requires m <= |rows|
  {
    i < m && ResultKey(rows[i]) == k && forall j | i < j < m :: ResultKey(rows[j]) != k
  }

  lemma {:induction false} EntryIsLastRow(rows: seq<Row>, k: string, m: nat) returns (i: nat)
    requires m <= |rows|
    ensures if k in ByKey(rows, m).rows then IsLast(i, rows, k, m) && ByKey(rows, m).rows[k] == rows[i]
            else forall j | 0 <= j < m :: ResultKey(rows[j]) != k
  {
    i := 0;
    if m > 0 {
      i := EntryIsLastRow(rows, k, m - 1);
      if ResultKey(rows[m - 1]) == k {
        i := m - 1;
      }
    }
  }

  /** An old row's score is kept up with by its key's last row in the file, or by a new row. */
  ghost predicate KeptUp(lib: Library, file: Option<seq<string>>, news: seq<Row>, r: Row) {
    var k := ResultKey(r);
    || (Stored(Index(lib, file), k).Some? && F1(r) <= Stored(Index(lib, file), k).value)
    || exists q :: q in news && ResultKey(q) == k && F1(r) <= F1(q)
  }

  /** A run keeps the best of all rows of a key, those of the file and the new ones, exactly
      when no earlier duplicate in the file beats both the last one and the new rows. */
  lemma RunKeepsBestOfAllIff(lib: Library, file: Option<seq<string>>, news: seq<Row>, k: string)
    ensures IsBest(Stored(Merged(lib, file, news), k), None, Loaded(lib, file) + news, k)
       <==> forall r | r in Loaded(lib, file) && ResultKey(r) == k :: KeptUp(lib, file, news, r)
  {
    RunKeepsBest(lib, file, news, k);
    var rows := Loaded(lib, file);
    var best := Stored(Merged(lib, file, news), k);
    var i := EntryIsLastRow(rows, k, |rows|);
    assert forall r: Row :: r in rows + news <==> r in rows || r in news;
    if IsBest(best, None, rows + news, k) {
      forall r | r in rows && ResultKey(r) == k
        ensures KeptUp(lib, file, news, r)
      {
        assert F1(r) <= best.value;
      }
    }
    if forall r | r in rows && ResultKey(r) == k :: KeptUp(lib, file, news, r) {
      forall r | r in rows && ResultKey(r) == k
        ensures best.Some? && F1(r) <= best.value
      {
        assert KeptUp(lib, file, news, r);
      }
    }
  }

  /** An earlier duplicate that scores higher than the last one is lost. */
  lemma EarlierDuplicateIsLost(lib: Library, a: Row, b: Row)
    requires Encodes(lib, a) && Encodes(lib, b) && ResultKey(a) == ResultKey(b) && F1(a) > F1(b)
    ensures var file := Some([Dump(lib, a), Dump(lib, b)]);
      && Loaded(lib, file) == [a, b]
      && Stored(Merged(lib, file, []), ResultKey(a)) == Some(F1(b))
      && !IsBest(Some(F1(b)), None, [a, b], ResultKey(a))
  {
    var lines := [Dump(lib, a), Dump(lib, b)];
    assert Rows(lib, lines, 1) == [a];
    assert Rows(lib, lines, 2) == [a, b];
    assert ByKey([a, b], 1) == Dict([ResultKey(a)], map[ResultKey(a) := a]);
    assert a in [a, b];
  }

  /** With one row per key in the file, as after any run, it always does. */
  lemma RunKeepsBestOfAll(lib: Library, file: Option<seq<string>>, news: seq<Row>, k: string)
    requires var rows := Loaded(lib, file);
      forall i, j | 0 <= i < j < |rows| :: ResultKey(rows[i]) != ResultKey(rows[j])
    ensures IsBest(Stored(Merged(lib, file, news), k), None, Loaded(lib, file) + news, k)
  {
    var rows := Loaded(lib, file);
    var i := EntryIsLastRow(rows, k, |rows|);
    forall r | r in rows && ResultKey(r) == k
      ensures KeptUp(lib, file, news, r)
    {
      var j :| 0 <= j < |rows| && rows[j] == r;
      assert j == i;
    }
    RunKeepsBestOfAllIff(lib, file, news, k);
  }

  // ---------------------------------------------------------------- several runs

  lemma {:induction false} MergeAgainChangesNothing(d: Dict, news: seq<Row>, m: nat)
    requires m <= |news|
    requires forall r | r in news :: ResultKey(r) in d.rows && F1(r) <= F1(d.rows[ResultKey(r)])
    ensures Merge(d, news, m) == d
  {
    if m > 0 {
      MergeAgainChangesNothing(d, news, m - 1);
      assert news[m - 1] in news;
    }
  }

  /** A second run with the same rows leaves the file as it is and adds nothing. */
  lemma SecondRunChangesNothing(lib: Library, file: Option<seq<string>>, news: seq<Row>)
    requires Laws(lib) && AllEncode(lib, news)
    ensures var once := Appended(lib, file, news);
      Appended(lib, once, news) == once && Merged(lib, once, news) == Index(lib, once)
  {
    var d := Merged(lib, file, news);
    OneRowPerKey(lib, file, news);
    forall r | r in news
      ensures ResultKey(r) in d.rows && F1(r) <= F1(d.rows[ResultKey(r)])
    {
      RunKeepsBest(lib, file, news, ResultKey(r));
    }
    MergeAgainChangesNothing(d, news, |news|);
  }

  /** The scores after a run do not depend on the order of the new rows. */
  lemma RunIgnoresOrder(lib: Library, file: Option<seq<string>>, xs: seq<Row>, ys: seq<Row>, k: string)
    requires multiset(xs) == multiset(ys)
    ensures Stored(Merged(lib, file, xs), k) == Stored(Merged(lib, file, ys), k)
  {
    forall r: Row
      ensures r in xs <==> r in ys
    {
      assert r in xs <==> r in multiset(xs);
      assert r in ys <==> r in multiset(ys);
    }
    RunKeepsBest(lib, file, xs, k);
    RunKeepsBest(lib, file, ys, k);
    BestIsUnique(Stored(Merged(lib, file, xs), k), Stored(Merged(lib, file, ys), k), Stored(Index(lib, file), k), xs, ys, k);
  }

  function Members(keys: seq<string>, m: nat): (s: set<string>)
    requires m <= |keys|
  {
    if m == 0 then {} else Members(keys, m - 1) + {keys[m - 1]}
  }

  lemma {:induction false} MembersOf(keys: seq<string>, m: nat)
    requires m <= |keys|
    ensures forall k :: k in Members(keys, m) <==> exists i {:trigger keys[i]} :: 0 <= i < m && keys[i] == k
  {
    if m > 0 {
      MembersOf(keys, m - 1);
    }
  }

  lemma {:induction false} DistinctLength(keys: seq<string>, m: nat)
    requires m <= |keys| && Distinct(keys)
    ensures |Members(keys, m)| == m
  {
    if m > 0 {
      DistinctLength(keys, m - 1);
      MembersOf(keys, m - 1);
      assert keys[m - 1] !in Members(keys, m - 1);
    }
  }

  lemma RowsAreKeys(d: Dict)
    requires Good(d)
    ensures |d.order| == |d.rows|
  {
    DistinctLength(d.order, |d.order|);
    MembersOf(d.order, |d.order|);
    assert Members(d.order, |d.order|) == d.rows.Keys;
  }

  /** The rows added are the growth in distinct keys, in whatever order the rows come. */
  lemma AddedIsGrowthInKeys(lib: Library, file: Option<seq<string>>, xs: seq<Row>, ys: seq<Row>)
    requires multiset(xs) == multiset(ys)
    ensures |Merged(lib, file, xs).order| == |Merged(lib, file, xs).rows.Keys| == |Merged(lib, file, ys).order|
    ensures |Index(lib, file).order| == |Index(lib, file).rows.Keys|
  {
    var d, e := Merged(lib, file, xs), Merged(lib, file, ys);
    ByKeyIsGood(Loaded(lib, file), |Loaded(lib, file)|);
    RowsAreKeys(Index(lib, file));
    RowsAreKeys(d);
    RowsAreKeys(e);
    forall k: string
      ensures k in d.rows <==> k in e.rows
    {
      RunIgnoresOrder(lib, file, xs, ys, k);
    }
    assert d.rows.Keys == e.rows.Keys;
  }

  /** The F1 a file holds for a key. */
  function Score(lib: Library, file: Option<seq<string>>, k: string): Option<real> { Stored(Index(lib, file), k) }

  predicate NoWorse(before: Option<real>, after: Option<real>) {
    before.Some? ==> after.Some? && before.value <= after.value
  }

  lemma OneRunIsNoWorse(lib: Library, file: Option<seq<string>>, news: seq<Row>, k: string)
    requires Laws(lib) && AllEncode(lib, news)
    ensures NoWorse(Score(lib, file, k), Score(lib, Appended(lib, file, news), k))
  {
    OneRowPerKey(lib, file, news);
    RunKeepsBest(lib, file, news, k);
  }

  /** The files before, between and after a series of runs. */
  ghost predicate Series(lib: Library, files: seq<Option<seq<string>>>, runs: seq<seq<Row>>) {
    |files| == |runs| + 1 && forall m {:trigger runs[m]} | 0 <= m < |runs| :: files[m + 1] == Appended(lib, files[m], runs[m])
  }

  lemma {:induction false} NoWorseChains(scores: seq<Option<real>>, i: nat, j: nat)
    requires i <= j < |scores|
    requires forall m | 0 < m < |scores| :: NoWorse(scores[m - 1], scores[m])
    ensures NoWorse(scores[i], scores[j])
  {
    if i < j {
      NoWorseChains(scores, i, j - 1);
    }
  }

  /** Over any series of runs the scores a key has in the successive files never fall, and
      the key never disappears. */
  lemma ScoresNeverFall(
    lib: Library, files: seq<Option<seq<string>>>, runs: seq<seq<Row>>, k: string, scores: seq<Option<real>>, i: nat, j: nat)
    requires Laws(lib) && Series(lib, files, runs) && (forall m | 0 <= m < |runs| :: AllEncode(lib, runs[m])) && i <= j < |files| == |scores|
    requires forall m {:trigger scores[m]} | 0 <= m < |files| :: scores[m] == Score(lib, files[m], k)
    ensures NoWorse(scores[i], scores[j])
  {
    forall m | 0 < m < |scores|
      ensures NoWorse(scores[m - 1], scores[m])
    {
      OneRunIsNoWorse(lib, files[m - 1], runs[m - 1], k);
    }
    NoWorseChains(scores, i, j);
  }
}
