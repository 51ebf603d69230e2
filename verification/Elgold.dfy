/** The Elgold standoff parser: markup is stripped and offsets translated. */
module Elgold {
  import opened Wrappers

  /** A match of the annotation pattern: mention is raw[start + 2 .. bar1], the class
      raw[bar1 + 1 .. bar2] and the target raw[bar2 + 1 .. end - 2]. */
  datatype Match = Match(start: nat, bar1: nat, bar2: nat, end: nat)

  predicate IsName(c: char) { c != '|' && c != '{' && c != '}' }

  predicate IsTarget(c: char) { c != '{' && c != '}' }

  /** The end of the run of name characters from p, `[^|{}]*` read greedily. */
  function NameRun(s: string, p: nat): (q: nat)
    requires p <= |s|
    ensures p <= q <= |s|
    ensures forall i | p <= i < q :: IsName(s[i])
    ensures q < |s| ==> !IsName(s[q])
    decreases |s| - p
  {
    if p < |s| && IsName(s[p]) then NameRun(s, p + 1) else p
  }

  function TargetRun(s: string, p: nat): (q: nat)
    requires p <= |s|
    ensures p <= q <= |s|
    ensures forall i | p <= i < q :: IsTarget(s[i])
    ensures q < |s| ==> !IsTarget(s[q])
    decreases |s| - p
  {
    if p < |s| && IsTarget(s[p]) then TargetRun(s, p + 1) else p
  }

  /** The match of the pattern at position p, if there is one. */
  function MatchAt(s: string, p: nat): (m: Option<Match>)
    requires p <= |s|
    ensures m.Some? ==> m.value.start == p && IsMatch(s, m.value)
  {
    if p + 2 <= |s| && s[p] == '{' && s[p + 1] == '{' then
      var bar1 := NameRun(s, p + 2);
      if bar1 > p + 2 && bar1 < |s| && s[bar1] == '|' then
        var bar2 := NameRun(s, bar1 + 1);
        if bar2 > bar1 + 1 && bar2 < |s| && s[bar2] == '|' then
          var close := TargetRun(s, bar2 + 1);
          if close + 2 <= |s| && s[close] == '}' && s[close + 1] == '}' then
            Some(Match(p, bar1, bar2, close + 2))
          else None
        else None
      else None
    else None
  }

  /** What the pattern `\{\{([^|{}]+)\|([^|{}]+)\|([^{}]*)\}\}` means. */
  predicate IsMatch(s: string, m: Match) {
    && m.start + 2 < m.bar1 && m.bar1 + 1 < m.bar2 && m.bar2 + 3 <= m.end <= |s|
    && s[m.start] == '{' && s[m.start + 1] == '{'
    && (forall i | m.start + 2 <= i < m.bar1 :: IsName(s[i])) && s[m.bar1] == '|'
    && (forall i | m.bar1 < i < m.bar2 :: IsName(s[i])) && s[m.bar2] == '|'
    && (forall i | m.bar2 < i < m.end - 2 :: IsTarget(s[i]))
    && s[m.end - 2] == '}' && s[m.end - 1] == '}'
  }

  /** The greedy reading loses nothing: it finds the only match at its position. */
  lemma MatchAtIsComplete(s: string, m: Match)
    requires IsMatch(s, m)
    ensures MatchAt(s, m.start) == Some(m)
  {
    var bar1 := NameRun(s, m.start + 2);
    assert bar1 == m.bar1;
    var bar2 := NameRun(s, m.bar1 + 1);
    assert bar2 == m.bar2;
    var close := TargetRun(s, m.bar2 + 1);
    assert close == m.end - 2;
  }

  function Mention(s: string, m: Match): string
    requires IsMatch(s, m)
  {
    s[m.start + 2..m.bar1]
  }

  // ---------------------------------------------------------------- the two scans

  /** `finditer`: leftmost, non-overlapping. */
  function Matches(s: string, p: nat): (ms: seq<Match>)
    requires p <= |s|
    ensures forall m | m in ms :: IsMatch(s, m)
    decreases |s| - p
  {
    if p == |s| then []
    else match MatchAt(s, p)
      case Some(m) => [m] + Matches(s, m.end)
      case None => Matches(s, p + 1)
  }

  /** `sub(r"\1")`: the same scan, keeping the mention of each match. */
  function Strip(s: string, p: nat): string
    requires p <= |s|
    decreases |s| - p
  {
    if p == |s| then ""
    else match MatchAt(s, p)
      case Some(m) => Mention(s, m) + Strip(s, m.end)
      case None => [s[p]] + Strip(s, p + 1)
  }

  lemma {:induction false} StripWithoutMatch(s: string, p: nat)
    requires p <= |s| && Matches(s, p) == []
    ensures Strip(s, p) == s[p..]
    decreases |s| - p
  {
    if p < |s| {
      StripWithoutMatch(s, p + 1);
      assert s[p..] == [s[p]] + s[p + 1..];
    }
  }

  /** Strip(s, p) copies up to m, keeps its mention and goes on behind it. */
  predicate CopiesTo(s: string, p: nat, m: Match)
    requires p <= |s|
  {
    && p <= m.start && IsMatch(s, m)
    && Strip(s, p) == s[p..m.start] + Mention(s, m) + Strip(s, m.end)
  }

  lemma Regroup(c: string, x: string, y: string, z: string)
    ensures c + (x + y + z) == (c + x) + y + z
  {
  }

  lemma SliceStep(s: string, p: nat, q: nat)
    requires p < q <= |s|
    ensures s[p..q] == [s[p]] + s[p + 1..q]
  {
  }

  lemma CopyNothing(s: string, p: nat, m: Match)
    requires p < |s| && MatchAt(s, p) == Some(m)
    ensures CopiesTo(s, p, m)
  {
    assert s[p..m.start] + Mention(s, m) == Mention(s, m);
  }

  lemma CopyOneMore(s: string, p: nat, m: Match)
    requires p < |s| && MatchAt(s, p).None? && CopiesTo(s, p + 1, m)
    ensures CopiesTo(s, p, m)
  {
    SliceStep(s, p, m.start);
    Regroup([s[p]], s[p + 1..m.start], Mention(s, m), Strip(s, m.end));
  }

  /** Up to its first match a scan copies, then it keeps the mention and goes on behind. */
  lemma {:induction false} StripToFirstMatch(s: string, p: nat)
    requires p <= |s| && Matches(s, p) != []
    ensures CopiesTo(s, p, Matches(s, p)[0])
    ensures Matches(s, p)[1..] == Matches(s, Matches(s, p)[0].end)
    decreases |s| - p
  {
    if MatchAt(s, p).Some? {
      CopyNothing(s, p, MatchAt(s, p).value);
    } else {
      StripToFirstMatch(s, p + 1);
      CopyOneMore(s, p, Matches(s, p)[0]);
    }
  }

  /** The scan is leftmost: no match starts between p and the first one found. */
  lemma {:induction false} FirstMatchIsLeftmost(s: string, p: nat, m: Match)
    requires p <= m.start && IsMatch(s, m)
    ensures Matches(s, p) != [] && Matches(s, p)[0].start <= m.start
    decreases |s| - p
  {
    if p == m.start {
      MatchAtIsComplete(s, m);
    } else if MatchAt(s, p).None? {
      FirstMatchIsLeftmost(s, p + 1, m);
    }
  }

  // ---------------------------------------------------------------- parsing

  datatype Annotation = Annotation(mention: string, entityClass: string, target: string, start: int, end: int)

  datatype Document = Document(text: string, raw: string, annotations: seq<Annotation>)

  /** Unicode upper-casing and stripping, as library functions. */
  datatype Library = Library(upper: string -> string, strip: string -> string)

  /** How much markup the first k matches remove. */
  function Removed(s: string, ms: seq<Match>, k: nat): int
    requires k <= |ms| && forall m | m in ms :: IsMatch(s, m)
  {
    if k == 0 then 0
    else Removed(s, ms, k - 1) + (ms[k - 1].end - ms[k - 1].start - |Mention(s, ms[k - 1])|)
  }

  predicate Recovers(text: string, a: Annotation) {
    0 <= a.start < a.end <= |text| && text[a.start..a.end] == a.mention
  }

  function Upper(lib: Library, s: string): string { lib.upper(s) }

  function StripSpace(lib: Library, s: string): string { lib.strip(s) }

  /** Each annotation stores the text of its match; class and target go through the library. */
  function Annotate(lib: Library, s: string, m: Match, start: int): Annotation
    requires IsMatch(s, m)
  {
    var mention := s[m.start + 2..m.bar1];
    Annotation(mention, Upper(lib, s[m.bar1 + 1..m.bar2]), StripSpace(lib, s[m.bar2 + 1..m.end - 2]), start, start + |mention|)
  }

  lemma MiddlePart(c: string, x: string, y: string, z: string)
    ensures var t := c + (x + y + z);
      && t == (c + x + y) + z
      && |c| + |x| + |y| <= |t|
      && t[|c| + |x|..|c| + |x| + |y|] == y
  {
    var t := c + (x + y + z);
    assert t == (c + x + y) + z;
    assert forall i | 0 <= i < |y| :: t[|c| + |x| + i] == y[i];
  }

  /** Where the next mention lands in the stripped text. */
  lemma MentionLands(s: string, text: string, done: string, pos: nat, m: Match, start: int)
    requires pos <= |s| && CopiesTo(s, pos, m) && text == done + Strip(s, pos)
    requires start == |done| + (m.start - pos)
    ensures var end, upto := start + |Mention(s, m)|, done + s[pos..m.start] + Mention(s, m);
      && 0 <= start < end == |upto| <= |text|
      && text[start..end] == Mention(s, m)
      && text == upto + Strip(s, m.end)
  {
    MiddlePart(done, s[pos..m.start], Mention(s, m), Strip(s, m.end));
  }

  // The state of the loop before match k, as functions of k.

  function Pos(s: string, ms: seq<Match>, k: nat): nat
    requires k <= |ms|
  {
    if k == 0 then 0 else ms[k - 1].end
  }

  /** The part of the stripped text that comes from before position Pos(k). */
  function Emitted(s: string, k: nat): string
    requires k <= |Matches(s, 0)|
  {
    if k == 0 then ""
    else
      var ms := Matches(s, 0);
      var m, p := ms[k - 1], Pos(s, ms, k - 1);
      assert m in ms;
      if p <= m.start then Emitted(s, k - 1) + s[p..m.start] + Mention(s, m) else ""
  }

  predicate LoopState(s: string, k: nat) {
    var ms := Matches(s, 0);
    && k <= |ms| && Pos(s, ms, k) <= |s|
    && ms[k..] == Matches(s, Pos(s, ms, k))
    && Strip(s, 0) == Emitted(s, k) + Strip(s, Pos(s, ms, k))
    && |Emitted(s, k)| == Pos(s, ms, k) - Removed(s, ms, k)
  }

  /** Match k keeps the loop state, and its mention lies in the text exactly where the
      adjusted offset says: after everything emitted before and before everything after. */
  lemma LoopStep(s: string, k: nat)
    requires LoopState(s, k) && k < |Matches(s, 0)|
    ensures LoopState(s, k + 1)
    ensures var ms := Matches(s, 0);
      var start := ms[k].start - Removed(s, ms, k);
      var end := start + |Mention(s, ms[k])|;
      && |Emitted(s, k)| <= start < end == |Emitted(s, k + 1)| <= |Strip(s, 0)|
      && Strip(s, 0)[start..end] == Mention(s, ms[k])
  {
    var ms := Matches(s, 0);
    var m, p := ms[k], Pos(s, ms, k);
    assert ms[k..][0] == m && ms[k..][1..] == ms[k + 1..];
    StripToFirstMatch(s, p);
    MentionLands(s, Strip(s, 0), Emitted(s, k), p, m, m.start - Removed(s, ms, k));
  }

  lemma {:induction false} LoopReaches(s: string, k: nat)
    requires k <= |Matches(s, 0)|
    ensures LoopState(s, k)
  {
    if k > 0 {
      LoopReaches(s, k - 1);
      LoopStep(s, k - 1);
    }
  }

  /** The annotation the parser stores for match k. */
  function Stored(lib: Library, s: string, k: nat): Annotation
    requires k < |Matches(s, 0)|
  {
    var ms := Matches(s, 0);
    Annotate(lib, s, ms[k], ms[k].start - Removed(s, ms, k))
  }

  /** The stored offsets recover the mention from the stripped text. */
  lemma StoredRecovers(lib: Library, s: string, k: nat)
    requires k < |Matches(s, 0)|
    ensures Recovers(Strip(s, 0), Stored(lib, s, k))
    ensures |Emitted(s, k)| <= Stored(lib, s, k).start && Stored(lib, s, k).end == |Emitted(s, k + 1)|
  {
    LoopReaches(s, k);
    LoopStep(s, k);
  }

  lemma StoredSpan(lib: Library, s: string, k: nat)
    requires k < |Matches(s, 0)|
    ensures |Emitted(s, k)| <= Stored(lib, s, k).start <= Stored(lib, s, k).end == |Emitted(s, k + 1)|
  {
    StoredRecovers(lib, s, k);
  }

  lemma EmittedStep(lib: Library, s: string, k: nat, before: nat, after: nat)
    requires k < |Matches(s, 0)| && before == |Emitted(s, k)| && after == |Emitted(s, k + 1)|
    ensures before <= after
  {
    StoredSpan(lib, s, k);
  }

  lemma {:induction false} EmittedGrows(lib: Library, s: string, i: nat, j: nat, before: nat, after: nat)
    requires i <= j <= |Matches(s, 0)| && before == |Emitted(s, i)| && after == |Emitted(s, j)|
    ensures before <= after
  {
    if i < j {
      var between := |Emitted(s, j - 1)|;
      EmittedGrows(lib, s, i, j - 1, before, between);
      EmittedStep(lib, s, j - 1, between, after);
    }
  }

  /** The stored spans follow one another without overlap. */
  lemma StoredOrdered(lib: Library, s: string, i: nat, j: nat)
    requires i < j < |Matches(s, 0)|
    ensures Stored(lib, s, i).end <= Stored(lib, s, j).start
  {
    StoredSpan(lib, s, i);
    EmittedGrows(lib, s, i + 1, j, |Emitted(s, i + 1)|, |Emitted(s, j)|);
    StoredSpan(lib, s, j);
  }

  /** The text is shorter than the raw text by exactly the markup removed. */
  lemma StrippedLength(s: string)
    ensures var ms := Matches(s, 0); |Strip(s, 0)| == |s| - Removed(s, ms, |ms|)
  {
    var ms := Matches(s, 0);
    LoopReaches(s, |ms|);
    StripWithoutMatch(s, Pos(s, ms, |ms|));
  }

  // ---------------------------------------------------------------- markup read and written

  /** The markup of an annotation. */
  function Markup(mention: string, entityClass: string, target: string): string {
    "{{" + mention + "|" + entityClass + "|" + target + "}}"
  }

  predicate IsNameText(s: string) {
    s != "" && '|' !in s && '{' !in s && '}' !in s
  }

  predicate IsTargetText(s: string) {
    '{' !in s && '}' !in s
  }

  lemma MarkupOfMatch(s: string, m: Match)
    requires IsMatch(s, m)
    ensures s[m.start..m.end] == Markup(s[m.start + 2..m.bar1], s[m.bar1 + 1..m.bar2], s[m.bar2 + 1..m.end - 2])
    ensures IsNameText(s[m.start + 2..m.bar1]) && IsNameText(s[m.bar1 + 1..m.bar2]) && IsTargetText(s[m.bar2 + 1..m.end - 2])
  {
    var a, c, t := s[m.start + 2..m.bar1], s[m.bar1 + 1..m.bar2], s[m.bar2 + 1..m.end - 2];
    assert s[m.start..m.start + 2] == "{{" && s[m.end - 2..m.end] == "}}";
    assert s[m.start..m.bar1] == "{{" + a;
    assert s[m.start..m.bar1 + 1] == "{{" + a + "|";
    assert s[m.start..m.bar2] == "{{" + a + "|" + c;
    assert s[m.start..m.bar2 + 1] == "{{" + a + "|" + c + "|";
    assert s[m.start..m.end - 2] == "{{" + a + "|" + c + "|" + t;
  }

  /** The raw text of every match is the markup of what is stored for it: the class is the
      upper-cased middle part, the target the stripped last part. */
  lemma StoredMarkup(lib: Library, s: string, k: nat) returns (c: string, t: string)
    requires k < |Matches(s, 0)|
    ensures var m, a := Matches(s, 0)[k], Stored(lib, s, k);
      && m.start <= m.end <= |s| && s[m.start..m.end] == "{{" + a.mention + "|" + c + "|" + t + "}}"
      && IsNameText(a.mention) && IsNameText(c) && IsTargetText(t)
      && a.entityClass == Upper(lib, c) && a.target == StripSpace(lib, t)
  {
    var m := Matches(s, 0)[k];
    c, t := AnnotationMarkup(lib, s, m, Stored(lib, s, k));
  }

  lemma AnnotationMarkup(lib: Library, s: string, m: Match, a: Annotation) returns (c: string, t: string)
    requires IsMatch(s, m) && a == Annotate(lib, s, m, a.start)
    ensures s[m.start..m.end] == "{{" + a.mention + "|" + c + "|" + t + "}}"
    ensures IsNameText(a.mention) && IsNameText(c) && IsTargetText(t)
    ensures a.entityClass == Upper(lib, c) && a.target == StripSpace(lib, t)
  {
    MarkupOfMatch(s, m);
    c, t := s[m.bar1 + 1..m.bar2], s[m.bar2 + 1..m.end - 2];
  }

  /** Plain text and the annotation that follows it. */
  datatype Item = Item(plain: string, mention: string, entityClass: string, target: string)

  predicate Writable(it: Item) {
    '{' !in it.plain && IsNameText(it.mention) && IsNameText(it.entityClass) && IsTargetText(it.target)
  }

  predicate AllWritable(items: seq<Item>, last: string) {
    '{' !in last && forall it | it in items :: Writable(it)
  }

  /** An annotated document: items, then the rest of the plain text. */
  function Written(items: seq<Item>, last: string): string {
    if items == [] then last
    else items[0].plain + Markup(items[0].mention, items[0].entityClass, items[0].target) + Written(items[1..], last)
  }

  /** The text of the first k items without markup. */
  function TextOf(items: seq<Item>, k: nat): string
    requires k <= |items|
  {
    if k == 0 then "" else TextOf(items, k - 1) + items[k - 1].plain + items[k - 1].mention
  }

  /** What a scan from p reads up to match m and in it. */
  function Read(s: string, p: nat, m: Match): Option<Item> {
    if IsMatch(s, m) && p <= m.start
    then Some(Item(s[p..m.start], Mention(s, m), s[m.bar1 + 1..m.bar2], s[m.bar2 + 1..m.end - 2]))
    else None
  }

  lemma {:induction false} NoMatchInPlain(s: string, p: nat, q: nat, ms: seq<Match>)
    requires p <= q <= |s| && (forall i | p <= i < q :: s[i] != '{') && ms == Matches(s, q)
    ensures ms == Matches(s, p)
    decreases q - p
  {
    if p < q {
      NoMatchHere(s, q - 1);
      NoMatchInPlain(s, p, q - 1, ms);
    }
  }

  lemma NoMatchHere(s: string, p: nat)
    requires p < |s| && s[p] != '{'
    ensures Matches(s, p) == Matches(s, p + 1)
  {
    assert MatchAt(s, p).None?;
  }

  lemma Cut(s: string, q: nat, u: string, rest: string)
    requires q <= |s| && s[q..] == u + rest
    ensures q + |u| <= |s| && s[q..q + |u|] == u && s[q + |u|..] == rest
  {
    var v := s[q..];
    assert v[..|u|] == u && v[|u|..] == rest;
  }

  lemma NoneOf(s: string, i: nat, j: nat, u: string)
    requires i <= j <= |s| && s[i..j] == u
    ensures IsNameText(u) ==> forall k | i <= k < j :: IsName(s[k])
    ensures IsTargetText(u) ==> forall k | i <= k < j :: IsTarget(s[k])
    ensures '{' !in u ==> forall k | i <= k < j :: s[k] != '{'
  {
    assert forall k | i <= k < j :: s[k] == u[k - i] && s[k] in u;
  }

  lemma MarkupByParts(a: string, c: string, t: string, rest: string)
    ensures Markup(a, c, t) + rest == "{{" + (a + ("|" + (c + ("|" + (t + ("}}" + rest))))))
  {
    assert Markup(a, c, t) + rest == "{{" + a + "|" + c + "|" + (t + ("}}" + rest));
    assert "{{" + a + "|" + c + "|" + (t + ("}}" + rest)) == "{{" + a + "|" + (c + ("|" + (t + ("}}" + rest))));
  }

  lemma MarkupParts(s: string, q: nat, bar1: nat, bar2: nat, close: nat, a: string, c: string, t: string, rest: string)
    requires q <= |s| && s[q..] == Markup(a, c, t) + rest
    requires bar1 == q + 2 + |a| && bar2 == bar1 + 1 + |c| && close == bar2 + 1 + |t|
    ensures close + 2 <= |s| && s[q..q + 2] == "{{" && s[q + 2..bar1] == a && s[bar1..bar1 + 1] == "|"
    ensures s[bar1 + 1..bar2] == c && s[bar2..bar2 + 1] == "|" && s[bar2 + 1..close] == t
    ensures s[close..close + 2] == "}}" && s[close + 2..] == rest
  {
    MarkupByParts(a, c, t, rest);
    Cut(s, q, "{{", a + ("|" + (c + ("|" + (t + ("}}" + rest))))));
    Cut(s, q + 2, a, "|" + (c + ("|" + (t + ("}}" + rest)))));
    Cut(s, bar1, "|", c + ("|" + (t + ("}}" + rest))));
    Cut(s, bar1 + 1, c, "|" + (t + ("}}" + rest)));
    Cut(s, bar2, "|", t + ("}}" + rest));
    Cut(s, bar2 + 1, t, "}}" + rest);
    Cut(s, close, "}}", rest);
  }

  lemma FirstTwo(s: string, i: nat, u: string)
    requires i + |u| <= |s| && s[i..i + |u|] == u && 1 <= |u| <= 2
    ensures s[i] == u[0] && (|u| == 2 ==> s[i + 1] == u[1])
  {
    assert s[i..i + |u|][0] == s[i];
  }

  /** Markup at q is a match. */
  lemma MarkupMatches(s: string, q: nat, it: Item, rest: string) returns (m: Match)
    requires q <= |s| && Writable(it) && s[q..] == Markup(it.mention, it.entityClass, it.target) + rest
    ensures IsMatch(s, m) && m.start == q && s[m.end..] == rest && Mention(s, m) == it.mention
    ensures s[m.bar1 + 1..m.bar2] == it.entityClass && s[m.bar2 + 1..m.end - 2] == it.target
  {
    var bar1 := q + 2 + |it.mention|;
    var bar2 := bar1 + 1 + |it.entityClass|;
    var close := bar2 + 1 + |it.target|;
    MarkupParts(s, q, bar1, bar2, close, it.mention, it.entityClass, it.target, rest);
    m := PartsMatch(s, q, bar1, bar2, close, it);
  }

  lemma PartsMatch(s: string, q: nat, bar1: nat, bar2: nat, close: nat, it: Item) returns (m: Match)
    requires Writable(it) && bar1 == q + 2 + |it.mention| && bar2 == bar1 + 1 + |it.entityClass|
    requires close == bar2 + 1 + |it.target| && close + 2 <= |s|
    requires s[q..q + 2] == "{{" && s[q + 2..bar1] == it.mention && s[bar1..bar1 + 1] == "|"
    requires s[bar1 + 1..bar2] == it.entityClass && s[bar2..bar2 + 1] == "|" && s[bar2 + 1..close] == it.target
    requires s[close..close + 2] == "}}"
    ensures m == Match(q, bar1, bar2, close + 2) && IsMatch(s, m)
  {
    NoneOf(s, q + 2, bar1, it.mention);
    NoneOf(s, bar1 + 1, bar2, it.entityClass);
    NoneOf(s, bar2 + 1, close, it.target);
    FirstTwo(s, q, "{{");
    FirstTwo(s, bar1, "|");
    FirstTwo(s, bar2, "|");
    FirstTwo(s, close, "}}");
    m := Match(q, bar1, bar2, close + 2);
  }

  /** Where the scan stands before match k. */
  function From(p: nat, ms: seq<Match>, k: nat): nat
    requires k <= |ms|
  {
    if k == 0 then p else ms[k - 1].end
  }

  /** The matches of a scan from p are those of the items. */
  predicate ReadAll(s: string, p: nat, ms: seq<Match>, items: seq<Item>) {
    |ms| == |items| && forall k: nat {:trigger items[k]} | k < |items| :: Read(s, From(p, ms, k), ms[k]) == Some(items[k])
  }

  lemma ReadAt(s: string, p: nat, ms: seq<Match>, items: seq<Item>, k: nat)
    requires ReadAll(s, p, ms, items) && k < |items|
    ensures Read(s, From(p, ms, k), ms[k]) == Some(items[k])
  {
  }

  lemma ReadAllCons(s: string, p: nat, m: Match, ns: seq<Match>, it: Item, its: seq<Item>)
    requires Read(s, p, m) == Some(it) && ReadAll(s, m.end, ns, its)
    ensures ReadAll(s, p, [m] + ns, [it] + its)
  {
    var ms, items := [m] + ns, [it] + its;
    forall k: nat {:trigger items[k]} | k < |items|
      ensures Read(s, From(p, ms, k), ms[k]) == Some(items[k])
    {
      if k > 0 {
        ReadAt(s, m.end, ns, its, k - 1);
      }
    }
  }

  /** The scan of plain text and markup finds the markup first. */
  lemma ItemIsRead(s: string, p: nat, it: Item, rest: string) returns (m: Match)
    requires p <= |s| && Writable(it)
    requires s[p..] == it.plain + (Markup(it.mention, it.entityClass, it.target) + rest)
    ensures Read(s, p, m) == Some(it) && s[m.end..] == rest && Matches(s, p) == [m] + Matches(s, m.end)
  {
    var q := p + |it.plain|;
    Cut(s, p, it.plain, Markup(it.mention, it.entityClass, it.target) + rest);
    NoneOf(s, p, q, it.plain);
    NoMatchInPlain(s, p, q, Matches(s, q));
    m := MarkupMatches(s, q, it, rest);
    MatchAtIsComplete(s, m);
  }

  /** The scan of a written document finds its items one after the other. */
  lemma {:induction false} WrittenIsRead(s: string, p: nat, items: seq<Item>, last: string)
    requires p <= |s| && AllWritable(items, last) && s[p..] == Written(items, last)
    ensures ReadAll(s, p, Matches(s, p), items)
    ensures From(p, Matches(s, p), |items|) <= |s| && s[From(p, Matches(s, p), |items|)..] == last
    decreases |items|
  {
    if items == [] {
      NoneOf(s, p, |s|, last);
      NoMatchInPlain(s, p, |s|, []);
    } else {
      var it, rest := items[0], Written(items[1..], last);
      assert it in items;
      assert s[p..] == it.plain + (Markup(it.mention, it.entityClass, it.target) + rest);
      var m := ItemIsRead(s, p, it, rest);
      WrittenIsRead(s, m.end, items[1..], last);
      ReadAllCons(s, p, m, Matches(s, m.end), it, items[1..]);
      assert [it] + items[1..] == items;
      LastFrom(p, m, Matches(s, m.end));
    }
  }

  lemma LastFrom(p: nat, m: Match, ns: seq<Match>)
    ensures From(p, [m] + ns, |ns| + 1) == From(m.end, ns, |ns|)
  {
  }

  lemma EmittedNext(s: string, ms: seq<Match>, k: nat, it: Item)
    requires ms == Matches(s, 0) && k < |ms| && Read(s, From(0, ms, k), ms[k]) == Some(it)
    ensures Emitted(s, k + 1) == Emitted(s, k) + it.plain + it.mention
  {
    assert Pos(s, ms, k) == From(0, ms, k);
  }

  lemma TextNext(s: string, ms: seq<Match>, items: seq<Item>, k: nat)
    requires ms == Matches(s, 0) && k < |items| == |ms| && Read(s, From(0, ms, k), ms[k]) == Some(items[k])
    requires Emitted(s, k) == TextOf(items, k)
    ensures Emitted(s, k + 1) == TextOf(items, k + 1)
  {
    var before := TextOf(items, k);
    EmittedNext(s, ms, k, items[k]);
  }

  lemma {:induction false} EmittedIsText(s: string, ms: seq<Match>, items: seq<Item>, k: nat)
    requires ms == Matches(s, 0) && ReadAll(s, 0, ms, items) && k <= |items|
    ensures Emitted(s, k) == TextOf(items, k)
  {
    if k > 0 {
      var j: nat := k - 1;
      EmittedIsText(s, ms, items, j);
      TextNext(s, ms, items, j);
    }
  }

  lemma StoredIsItem(lib: Library, s: string, ms: seq<Match>, k: nat, it: Item, before: string)
    requires ms == Matches(s, 0) && k < |ms| && Read(s, From(0, ms, k), ms[k]) == Some(it) && before == Emitted(s, k)
    ensures var start := |before + it.plain|;
      Stored(lib, s, k) ==
        Annotation(it.mention, Upper(lib, it.entityClass), StripSpace(lib, it.target), start, start + |it.mention|)
  {
    EmittedNext(s, ms, k, it);
    StoredRecovers(lib, s, k);
  }

  lemma TextIsStripped(s: string, ms: seq<Match>, items: seq<Item>, last: string)
    requires ms == Matches(s, 0) && ReadAll(s, 0, ms, items)
    requires From(0, ms, |items|) <= |s| && s[From(0, ms, |items|)..] == last
    ensures Strip(s, 0) == TextOf(items, |items|) + last
  {
    assert Pos(s, ms, |ms|) == From(0, ms, |ms|);
    EmittedIsText(s, ms, items, |items|);
    LoopReaches(s, |ms|);
    StripWithoutMatch(s, Pos(s, ms, |ms|));
  }

  /** The annotation stored for item k. */
  function AnnotationOf(lib: Library, items: seq<Item>, k: nat): Annotation
    requires k < |items|
  {
    var start := |TextOf(items, k) + items[k].plain|;
    Annotation(items[k].mention, Upper(lib, items[k].entityClass), StripSpace(lib, items[k].target), start,
               start + |items[k].mention|)
  }

  /** Round trip: parsing a written document gives back its text and, in order and at their
      places, exactly its annotations. */
  lemma WrittenIsParsed(lib: Library, items: seq<Item>, last: string)
    requires AllWritable(items, last)
    ensures var s := Written(items, last);
      && Strip(s, 0) == TextOf(items, |items|) + last
      && |Matches(s, 0)| == |items|
      && forall k: nat | k < |items| :: Stored(lib, s, k) == AnnotationOf(lib, items, k)
  {
    var s := Written(items, last);
    var ms := Matches(s, 0);
    assert s[0..] == s;
    WrittenIsRead(s, 0, items, last);
    TextIsStripped(s, ms, items, last);
    forall k: nat | k < |items|
      ensures Stored(lib, s, k) == AnnotationOf(lib, items, k)
    {
      EmittedIsText(s, ms, items, k);
      StoredIsItem(lib, s, ms, k, items[k], TextOf(items, k));
    }
  }

  predicate AllMatch(s: string, ms: seq<Match>) {
    forall m | m in ms :: IsMatch(s, m)
  }

  function AnnotatedTo(lib: Library, s: string, ms: seq<Match>, m: nat): (stored: seq<Annotation>)
    requires m <= |ms| && AllMatch(s, ms)
    ensures |stored| == m
    ensures forall k {:trigger stored[k]} | 0 <= k < m :: stored[k] == Annotate(lib, s, ms[k], ms[k].start - Removed(s, ms, k))
  {
    if m == 0 then []
    else AnnotatedTo(lib, s, ms, m - 1) + [Annotate(lib, s, ms[m - 1], ms[m - 1].start - Removed(s, ms, m - 1))]
  }

  /** The body of the loop over the matches. */
  method ReadMatch(lib: Library, raw: string, m: Match, offsetAdjustment: int)
    returns (annotation: Annotation, removedChars: int)
    requires IsMatch(raw, m)
    ensures annotation == Annotate(lib, raw, m, m.start - offsetAdjustment)
    ensures removedChars == m.end - m.start - |Mention(raw, m)|
  {
    var mention := raw[m.start + 2..m.bar1];
    var entityClass := Upper(lib, raw[m.bar1 + 1..m.bar2]);
    var target := StripSpace(lib, raw[m.bar2 + 1..m.end - 2]);
    var plainStart := m.start - offsetAdjustment;
    var plainEnd := plainStart + |mention|;
    annotation := Annotation(mention, entityClass, target, plainStart, plainEnd);
    removedChars := (m.end - m.start) - |mention|;
  }

  lemma AnnotatedStep(lib: Library, s: string, ms: seq<Match>, k: nat)
    requires k < |ms| && AllMatch(s, ms)
    ensures ms[k] in ms && IsMatch(s, ms[k])
    ensures AnnotatedTo(lib, s, ms, k + 1)
         == AnnotatedTo(lib, s, ms, k) + [Annotate(lib, s, ms[k], ms[k].start - Removed(s, ms, k))]
    ensures Removed(s, ms, k + 1) == Removed(s, ms, k) + (ms[k].end - ms[k].start - |Mention(s, ms[k])|)
  {
  }

  /** The loop over the matches. */
  method AnnotateMatches(lib: Library, raw: string, matches: seq<Match>) returns (annotations: seq<Annotation>)
    requires AllMatch(raw, matches)
    ensures annotations == AnnotatedTo(lib, raw, matches, |matches|)
  {
    annotations := [];
    var offsetAdjustment := 0;
    for k := 0 to |matches|
      invariant offsetAdjustment == Removed(raw, matches, k)
      invariant annotations == AnnotatedTo(lib, raw, matches, k)
    {
      var m := matches[k];
      AnnotatedStep(lib, raw, matches, k);
      var annotation, removedChars := ReadMatch(lib, raw, m, offsetAdjustment);
      annotations := annotations + [annotation];
      offsetAdjustment := offsetAdjustment + removedChars;
    }
  }

  method Parse(lib: Library, raw: string) returns (doc: Document)
    ensures doc.raw == raw && doc.text == Strip(raw, 0)
    ensures |doc.annotations| == |Matches(raw, 0)|
    ensures forall k | 0 <= k < |doc.annotations| :: doc.annotations[k] == Stored(lib, raw, k)
  {
    var matches := Matches(raw, 0);
    var annotations := AnnotateMatches(lib, raw, matches);
    doc := Document(Strip(raw, 0), raw, annotations);
  }

  // ---------------------------------------------------------------- validation

  datatype Finding = UnknownClass(doc: nat, entityClass: string) | Mismatch(doc: nat, start: int, end: int, mention: string, extracted: string)

  /** Python's slice: negative bounds count from the end, and everything is clamped. */
  function Bound(n: nat, i: int): nat {
    if i + n < 0 then 0 else if i < 0 then n + i else if i > n then n else i
  }

  function Slice(s: string, i: int, j: int): string {
    var a, b := Bound(|s|, i), Bound(|s|, j);
    if a <= b then s[a..b] else ""
  }

  const CLASSES: set<string> := {
    "PERSON", "ORG", "LOC", "GPE", "FAC", "PRODUCT", "EVENT", "WORK_OF_ART", "LAW", "LANGUAGE", "NORP",
    "DISEASE", "SUBSTANCE", "SPECIE"}

  function Check(d: nat, text: string, a: Annotation): seq<Finding> {
    (if a.entityClass !in CLASSES then [UnknownClass(d, a.entityClass)] else [])
    + (var extracted := Slice(text, a.start, a.end);
       if extracted != a.mention then [Mismatch(d, a.start, a.end, a.mention, extracted)] else [])
  }

  /** Every stored offset pair recovers its mention. */
  predicate Sound(doc: Document) {
    forall i | 0 <= i < |doc.annotations| :: Recovers(doc.text, doc.annotations[i])
  }

  /** What the parser returns is sound, so validation never reports a mismatch on it. */
  lemma ParsedIsSound(lib: Library, raw: string, doc: Document)
    requires doc.text == Strip(raw, 0) && |doc.annotations| == |Matches(raw, 0)|
    requires forall k | 0 <= k < |doc.annotations| :: doc.annotations[k] == Stored(lib, raw, k)
    ensures Sound(doc)
  {
    forall k | 0 <= k < |doc.annotations|
      ensures Recovers(doc.text, doc.annotations[k])
    {
      StoredRecovers(lib, raw, k);
    }
  }

  function PerAnnotation(d: nat, doc: Document, m: nat): (r: seq<seq<Finding>>)
    requires m <= |doc.annotations|
    ensures |r| == m
    ensures forall i: nat {:trigger r[i]} | i < m :: r[i] == Check(d, doc.text, doc.annotations[i])
  {
    if m == 0 then [] else PerAnnotation(d, doc, m - 1) + [Check(d, doc.text, doc.annotations[m - 1])]
  }

  /** The first k lists of findings, one after the other. */
  function Concat(parts: seq<seq<Finding>>, k: nat): seq<Finding>
    requires k <= |parts|
  {
    if k == 0 then [] else Concat(parts, k - 1) + parts[k - 1]
  }

  /** The findings on a document, in the order of its annotations. */
  function FindingsIn(d: nat, doc: Document): seq<Finding> {
    Concat(PerAnnotation(d, doc, |doc.annotations|), |doc.annotations|)
  }

  function PerDocument(docs: seq<Document>, k: nat): (r: seq<seq<Finding>>)
    requires k <= |docs|
    ensures |r| == k
    ensures forall d: nat {:trigger r[d]} | d < k :: r[d] == FindingsIn(d, docs[d])
  {
    if k == 0 then [] else PerDocument(docs, k - 1) + [FindingsIn(k - 1, docs[k - 1])]
  }

  /** The findings on all documents, in order. */
  function Findings(docs: seq<Document>): seq<Finding> { Concat(PerDocument(docs, |docs|), |docs|) }

  /** The body of the inner loop. */
  method CheckAnnotation(d: nat, text: string, ann: Annotation, before: seq<Finding>) returns (errors: seq<Finding>)
    ensures errors == before + Check(d, text, ann)
  {
    errors := before;
    if ann.entityClass !in CLASSES {
      errors := errors + [UnknownClass(d, ann.entityClass)];
    }
    var extracted := Slice(text, ann.start, ann.end);
    if extracted != ann.mention {
      errors := errors + [Mismatch(d, ann.start, ann.end, ann.mention, extracted)];
    }
  }

  /** The inner loop. */
  method CheckDocument(d: nat, doc: Document, before: seq<Finding>) returns (errors: seq<Finding>)
    ensures errors == before + FindingsIn(d, doc)
  {
    errors := before;
    var anns := doc.annotations;
    ghost var found := PerAnnotation(d, doc, |anns|);
    for i := 0 to |anns|
      invariant errors == before + Concat(found, i)
    {
      errors := CheckAnnotation(d, doc.text, anns[i], errors);
      assert found[i] == Check(d, doc.text, anns[i]);
      Append(before, Concat(found, i), found[i]);
    }
  }

  /** All findings in the order of documents and annotations, and whether there are none. */
  method Validate(docs: seq<Document>) returns (ok: bool, errors: seq<Finding>)
    ensures errors == Findings(docs)
    ensures ok <==> errors == []
  {
    errors := [];
    ghost var parts := PerDocument(docs, |docs|);
    for d := 0 to |docs|
      invariant errors == Concat(parts, d)
    {
      errors := CheckDocument(d, docs[d], errors);
      assert parts[d] == FindingsIn(d, docs[d]);
    }
    ok := errors == [];
  }

  lemma Append(a: seq<Finding>, b: seq<Finding>, c: seq<Finding>)
    ensures (a + b) + c == a + (b + c)
  {
  }

  /** The class is known and the offsets recover the mention. */
  predicate CleanAnnotation(text: string, a: Annotation) {
    a.entityClass in CLASSES && Slice(text, a.start, a.end) == a.mention
  }

  predicate CleanTo(doc: Document, m: nat)
    requires m <= |doc.annotations|
  {
    forall i | 0 <= i < m :: CleanAnnotation(doc.text, doc.annotations[i])
  }

  lemma {:induction false} ConcatEmptyIff(parts: seq<seq<Finding>>, k: nat)
    requires k <= |parts|
    ensures Concat(parts, k) == [] <==> forall d | 0 <= d < k :: parts[d] == []
  {
    if k > 0 {
      ConcatEmptyIff(parts, k - 1);
    }
  }

  lemma NothingFoundIff(d: nat, doc: Document)
    ensures FindingsIn(d, doc) == [] <==> CleanTo(doc, |doc.annotations|)
  {
    var m := |doc.annotations|;
    var parts := PerAnnotation(d, doc, m);
    ConcatEmptyIff(parts, m);
    forall i: nat | i < m
      ensures parts[i] == [] <==> CleanAnnotation(doc.text, doc.annotations[i])
    {
    }
  }

  /** Validation accepts exactly the documents whose annotations are all clean. */
  lemma AcceptedIff(docs: seq<Document>)
    ensures Findings(docs) == [] <==> forall d: nat | d < |docs| :: CleanTo(docs[d], |docs[d].annotations|)
  {
    var parts := PerDocument(docs, |docs|);
    ConcatEmptyIff(parts, |docs|);
    forall d: nat | d < |docs|
      ensures parts[d] == [] <==> CleanTo(docs[d], |docs[d].annotations|)
    {
      NothingFoundIff(d, docs[d]);
    }
  }

  lemma {:induction false} ConcatKeeps(parts: seq<seq<Finding>>, k: nat)
    requires k <= |parts| && forall d, e | 0 <= d < k && e in parts[d] :: e.UnknownClass?
    ensures forall e | e in Concat(parts, k) :: e.UnknownClass?
  {
    if k > 0 {
      ConcatKeeps(parts, k - 1);
    }
  }

  lemma SoundHasNoMismatch(d: nat, doc: Document)
    requires Sound(doc)
    ensures forall e | e in FindingsIn(d, doc) :: e.UnknownClass?
  {
    var m := |doc.annotations|;
    var parts := PerAnnotation(d, doc, m);
    forall i: int, e: Finding | 0 <= i < m && e in parts[i]
      ensures e.UnknownClass?
    {
      assert Recovers(doc.text, doc.annotations[i]);
    }
    ConcatKeeps(parts, m);
  }

  /** On sound documents, such as the parser's, no mismatch is ever found. */
  lemma SoundDocumentsHaveNoMismatch(docs: seq<Document>)
    requires forall d | 0 <= d < |docs| :: Sound(docs[d])
    ensures forall e | e in Findings(docs) :: e.UnknownClass?
  {
    var parts := PerDocument(docs, |docs|);
    forall d: int, e: Finding | 0 <= d < |docs| && e in parts[d]
      ensures e.UnknownClass?
    {
      SoundHasNoMismatch(d, docs[d]);
    }
    ConcatKeeps(parts, |docs|);
  }

  lemma {:induction false} ConcatHolds(parts: seq<seq<Finding>>, k: nat, e: Finding)
    requires k <= |parts|
    ensures e in Concat(parts, k) <==> exists d :: 0 <= d < k && e in parts[d]
  {
    if k > 0 {
      ConcatHolds(parts, k - 1, e);
    }
  }

  /** Inside the text, Python's slice is the part between the bounds. */
  lemma SliceInBounds(s: string, i: nat, j: nat)
    requires i <= j <= |s|
    ensures Slice(s, i, j) == s[i..j]
  {
  }

  /** A negative bound counts from the end, and a bound outside the text is moved to its edge. */
  lemma SliceElsewhere(s: string, i: int, j: int)
    ensures 0 <= |s| + i && i < 0 ==> Slice(s, i, j) == Slice(s, |s| + i, j)
    ensures 0 <= |s| + j && j < 0 ==> Slice(s, i, j) == Slice(s, i, |s| + j)
    ensures |s| + i < 0 ==> Slice(s, i, j) == Slice(s, 0, j)
    ensures |s| + j < 0 || j == 0 ==> Slice(s, i, j) == ""
    ensures i >= |s| ==> Slice(s, i, j) == ""
    ensures j > |s| ==> Slice(s, i, j) == Slice(s, i, |s|)
    ensures 0 <= j < i ==> Slice(s, i, j) == ""
  {
  }

  lemma FoundInIff(d: nat, doc: Document, e: Finding)
    ensures e in FindingsIn(d, doc) <==> exists i: nat :: i < |doc.annotations| && e in Check(d, doc.text, doc.annotations[i])
  {
    var m := |doc.annotations|;
    var parts := PerAnnotation(d, doc, m);
    ConcatHolds(parts, m, e);
    assert forall i: nat | i < m :: parts[i] == Check(d, doc.text, doc.annotations[i]);
  }

  /** What is found: for every annotation of every document its class if it is not a known
      one, and its slice of the text if that is not its mention; nothing else. */
  lemma FoundIff(docs: seq<Document>, e: Finding)
    ensures e in Findings(docs) <==>
      match e
      case UnknownClass(d, c) =>
        d < |docs| && c !in CLASSES && exists i: nat :: i < |docs[d].annotations| && docs[d].annotations[i].entityClass == c
      case Mismatch(d, start, end, mention, extracted) =>
        && d < |docs| && extracted == Slice(docs[d].text, start, end) != mention
        && (exists i: nat :: i < |docs[d].annotations|
              && docs[d].annotations[i].start == start && docs[d].annotations[i].end == end
              && docs[d].annotations[i].mention == mention)
  {
    var parts := PerDocument(docs, |docs|);
    ConcatHolds(parts, |docs|, e);
    forall d: nat | d < |docs|
      ensures e in parts[d] <==> exists i: nat :: i < |docs[d].annotations| && e in Check(d, docs[d].text, docs[d].annotations[i])
    {
      FoundInIff(d, docs[d], e);
    }
  }
}
