/** Corpus roots: path normalisation and the overlap test.  Normalisation trims white space,
    turns and strips slashes and maps letters to lower case; overlap is a test on normal
    roots, proved against the paths that lie inside both. */
module Roots {
  import opened Wrappers

  datatype PathError = EmptyPath

  /** The Unicode White_Space characters, which `trim` strips. */
  predicate IsSpace(c: char) {
    || '\U{0009}' <= c <= '\U{000D}' || c == ' ' || c == '\U{0085}' || c == '\U{00A0}' || c == '\U{1680}'
    || '\U{2000}' <= c <= '\U{200A}' || c == '\U{2028}' || c == '\U{2029}' || c == '\U{202F}' || c == '\U{205F}'
    || c == '\U{3000}'
  }

  const LOWER_CASE := "abcdefghijklmnopqrstuvwxyz"

  predicate IsSeparator(c: char) { c == '/' || c == '\\' }

  /** What one character becomes: separators a slash, ASCII capitals their small letters. */
  predicate MapsTo(c: char, r: char) {
    if IsSeparator(c) then r == '/'
    else if 'A' <= c <= 'Z' then r == LOWER_CASE[(c - 'A') as nat]
    else r == c
  }

  predicate IsUpper(c: char) { 'A' <= c <= 'Z' }

  function LowerChar(c: char): (r: char)
    ensures !IsUpper(r)
    ensures IsSpace(r) == IsSpace(c) && (r == '/') == (c == '/') && (r == '\\') == (c == '\\')
  {
    if IsUpper(c) then c + 32 as char else c
  }

  function SlashChar(c: char): char {
    if c == '\\' then '/' else c
  }

  lemma CharIsMapped(c: char)
    ensures MapsTo(c, LowerChar(SlashChar(c)))
  {
    if 'A' <= c <= 'Z' {
      var k := (c - 'A') as nat;
      assert forall i: nat | i < 26 :: LOWER_CASE[i] == 'a' + i as char;
      assert LowerChar(c) == 'a' + k as char;
    }
  }

  function SlashesTo(s: string, m: nat): (r: string)
    requires m <= |s|
    ensures |r| == m
    ensures forall i {:trigger r[i]} | 0 <= i < m :: r[i] == SlashChar(s[i])
  {
    if m == 0 then "" else SlashesTo(s, m - 1) + [SlashChar(s[m - 1])]
  }

  function Slashes(s: string): string { SlashesTo(s, |s|) }

  function LowerTo(s: string, m: nat): (r: string)
    requires m <= |s|
    ensures |r| == m
    ensures forall i {:trigger r[i]} | 0 <= i < m :: r[i] == LowerChar(s[i])
  {
    if m == 0 then "" else LowerTo(s, m - 1) + [LowerChar(s[m - 1])]
  }

  function Lower(s: string): string { LowerTo(s, |s|) }

  /** The first position from i that is not white space. */
  function SkipSpace(s: string, i: nat): (j: nat)
    requires i <= |s|
    ensures i <= j <= |s| && (j < |s| ==> !IsSpace(s[j]))
    ensures forall k | i <= k < j :: IsSpace(s[k])
    decreases |s| - i
  {
    if i < |s| && IsSpace(s[i]) then SkipSpace(s, i + 1) else i
  }

  function TrimStart(s: string): string { s[SkipSpace(s, 0)..] }

  /** The least end, at most m, past which everything up to m is white space. */
  function DropSpace(s: string, m: nat): (j: nat)
    requires m <= |s|
    ensures j <= m && (j > 0 ==> !IsSpace(s[j - 1]))
    ensures forall k | j <= k < m :: IsSpace(s[k])
  {
    if m > 0 && IsSpace(s[m - 1]) then DropSpace(s, m - 1) else m
  }

  function TrimEnd(s: string): string { s[..DropSpace(s, |s|)] }

  function DropSlash(s: string, m: nat): (j: nat)
    requires m <= |s|
    ensures j <= m && (j > 0 ==> s[j - 1] != '/')
    ensures forall k | j <= k < m :: s[k] == '/'
  {
    if m > 0 && s[m - 1] == '/' then DropSlash(s, m - 1) else m
  }

  function TrimEndSlash(s: string): string { s[..DropSlash(s, |s|)] }

  function NormalizePath(path: string): Result<string, PathError> {
    var trimmed := TrimEndSlash(TrimEnd(TrimStart(Slashes(path))));
    if trimmed == "" then Err(EmptyPath) else Ok(Lower(trimmed))
  }

  /** What the output of one pass looks like. */
  predicate Normal(r: string) {
    && r != ""
    && (forall i | 0 <= i < |r| :: r[i] != '\\' && !IsUpper(r[i]))
    && !IsSpace(r[0])
    && r[|r| - 1] != '/'
  }

  predicate EndsInSpace(r: string) { r != "" && IsSpace(r[|r| - 1]) }

  lemma NormalizeIsNormal(path: string)
    ensures NormalizePath(path).Ok? ==> Normal(NormalizePath(path).value)
  {
    var s := Slashes(path);
    var a := TrimStart(s);
    var b := TrimEnd(a);
    var c := TrimEndSlash(b);
    if c != "" {
      assert forall i | 0 <= i < |c| :: c[i] == s[|s| - |a| + i];
    }
  }

  /** r is path[i..j], character by character. */
  predicate IsCore(r: string, path: string, i: nat, j: nat) {
    i <= j <= |path| && |r| == j - i && forall t {:trigger r[t]} | 0 <= t < |r| :: MapsTo(path[i + t], r[t])
  }

  /** Where one pass cuts the path: white space in front of i and from k on, separators
      between j and k, and none of it next to what is left. */
  predicate IsCut(path: string, i: nat, j: nat, k: nat) {
    && i < j <= k <= |path|
    && (forall t | 0 <= t < i :: IsSpace(path[t])) && !IsSpace(path[i])
    && (forall t | k <= t < |path| :: IsSpace(path[t])) && !IsSpace(path[k - 1])
    && (forall t | j <= t < k :: IsSeparator(path[t])) && !IsSeparator(path[j - 1])
  }

  /** What the first two trims cut off: white space. */
  lemma SpaceEdges(s: string) returns (i: nat, k: nat)
    ensures i <= k <= |s| && TrimEnd(TrimStart(s)) == s[i..k]
    ensures forall t | 0 <= t < i || k <= t < |s| :: IsSpace(s[t])
    ensures i < k ==> !IsSpace(s[i]) && !IsSpace(s[k - 1])
  {
    i := SkipSpace(s, 0);
    var a := s[i..];
    var e := DropSpace(a, |a|);
    k := i + e;
    assert forall t | i <= t < |s| :: a[t - i] == s[t];
    assert a[..e] == s[i..k];
  }

  /** And what the third does: separators. */
  lemma SlashEdge(s: string, i: nat, k: nat) returns (j: nat)
    requires i <= k <= |s|
    ensures i <= j <= k && TrimEndSlash(s[i..k]) == s[i..j]
    ensures (forall t | j <= t < k :: s[t] == '/') && (i < j ==> s[j - 1] != '/')
  {
    var b := s[i..k];
    j := i + DropSlash(b, |b|);
    assert forall t | i <= t < k :: b[t - i] == s[t];
    assert b[..j - i] == s[i..j];
  }

  lemma SlashesKeepClasses(path: string, t: nat)
    requires t < |path|
    ensures IsSpace(Slashes(path)[t]) ==> IsSpace(path[t])
    ensures Slashes(path)[t] == '/' ==> path[t] == '/' || path[t] == '\\'
  {
  }

  lemma CoreIsMapped(path: string, i: nat, j: nat)
    requires i < j <= |path|
    ensures IsCore(Lower(Slashes(path)[i..j]), path, i, j)
  {
    var r := Lower(Slashes(path)[i..j]);
    forall t {:trigger r[t]} | 0 <= t < |r|
      ensures MapsTo(path[i + t], r[t])
    {
      CharIsMapped(path[i + t]);
    }
  }

  /** One pass drops white space at both ends and then the separators at the end, and maps
      what is left character by character; a path with nothing left is rejected. */
  lemma NormalizeKeepsCore(path: string) returns (i: nat, j: nat, k: nat)
    ensures i <= j <= k <= |path|
    ensures forall t | 0 <= t < i || k <= t < |path| :: IsSpace(path[t])
    ensures forall t | j <= t < k :: path[t] == '/' || path[t] == '\\'
    ensures match NormalizePath(path)
      case Err(_) => i == j
      case Ok(r) => IsCut(path, i, j, k) && IsCore(r, path, i, j)
  {
    var s := Slashes(path);
    i, k := SpaceEdges(s);
    j := SlashEdge(s, i, k);
    if i < j {
      CoreIsMapped(path, i, j);
    }
    forall t | 0 <= t < i || k <= t < |path|
      ensures IsSpace(path[t])
    {
      SlashesKeepClasses(path, t);
    }
    forall t | j <= t < k
      ensures path[t] == '/' || path[t] == '\\'
    {
      SlashesKeepClasses(path, t);
    }
  }

  /** One pass is not always enough: its output is a fixed point exactly when it does not
      end in whitespace; otherwise the next pass shortens or rejects it. */
  lemma NormalizeAgain(r: string)
    requires Normal(r)
    ensures NormalizePath(r) == Ok(r) <==> !EndsInSpace(r)
    ensures EndsInSpace(r) ==> NormalizePath(r) == Err(EmptyPath) || |NormalizePath(r).value| < |r|
  {
    var s := Slashes(r);
    assert s == r;
    var b := TrimEnd(TrimStart(s));
    var c := TrimEndSlash(b);
    assert TrimStart(s) == r;
    if !EndsInSpace(r) {
      assert b == r && c == r;
      assert Lower(r) == r;
    }
  }

  lemma CutIsUnique(path: string, i: nat, j: nat, k: nat, i': nat, j': nat, k': nat)
    requires IsCut(path, i, j, k) && IsCut(path, i', j', k')
    ensures i == i' && j == j' && k == k'
  {
    assert !(i < i') && !(i' < i);
    assert !(k < k') && !(k' < k);
    assert !(j < j') && !(j' < j);
  }

  lemma CutIsTaken(path: string, i: nat, j: nat, k: nat)
    requires IsCut(path, i, j, k)
    ensures NormalizePath(path).Ok? && IsCore(NormalizePath(path).value, path, i, j)
  {
    var i', j', k' := NormalizeKeepsCore(path);
    if NormalizePath(path).Ok? {
      CutIsUnique(path, i, j, k, i', j', k');
    } else {
      assert false;
    }
  }

  lemma CutGives(path: string, i: nat, j: nat, k: nat, r: string)
    requires IsCut(path, i, j, k) && IsCore(r, path, i, j)
    ensures NormalizePath(path) == Ok(r)
  {
    CutIsTaken(path, i, j, k);
    assert NormalizePath(path).value == r;
  }

  /** An accepted path is settled in one pass exactly when what stands before its trailing
      separators is not white space. */
  lemma OnePassSettlesIff(path: string, i: nat, j: nat, k: nat)
    requires IsCut(path, i, j, k)
    ensures NormalizePath(path).Ok?
    ensures NormalizePath(NormalizePath(path).value) == NormalizePath(path) <==> !IsSpace(path[j - 1])
  {
    CutIsTaken(path, i, j, k);
    var r := NormalizePath(path).value;
    NormalizeIsNormal(path);
    NormalizeAgain(r);
    CoreEnd(r, path, i, j);
  }

  lemma CoreEnd(r: string, path: string, i: nat, j: nat)
    requires i < j && IsCore(r, path, i, j)
    ensures EndsInSpace(r) <==> IsSpace(path[j - 1])
  {
    CharIsMapped(path[j - 1]);
    assert MapsTo(path[j - 1], r[|r| - 1]);
  }

  /** The paths accepted are those with such a cut. */
  lemma AcceptedIffCut(path: string)
    ensures NormalizePath(path).Ok? <==> exists i: nat, j: nat, k: nat :: IsCut(path, i, j, k)
  {
    var i, j, k := NormalizeKeepsCore(path);
    forall i: nat, j: nat, k: nat | IsCut(path, i, j, k)
      ensures NormalizePath(path).Ok?
    {
      CutIsTaken(path, i, j, k);
    }
  }

  /** A path for which one pass is not enough. */
  lemma SlashAfterSpace()
    ensures NormalizePath("a /") == Ok("a ") && NormalizePath("a ") == Ok("a")
  {
    CutGives("a /", 0, 2, 3, "a ");
    CutGives("a ", 0, 1, 1, "a");
  }

  /** Passing until nothing changes. */
  function Settle(path: string, bound: nat): (o: Result<string, PathError>)
    requires NormalizePath(path).Ok? ==> |NormalizePath(path).value| <= bound
    ensures o.Ok? ==> Normal(o.value) && !EndsInSpace(o.value)
    decreases bound
  {
    var first := NormalizePath(path);
    if first.Err? then first
    else
      NormalizeIsNormal(path);
      NormalizeAgain(first.value);
      if !EndsInSpace(first.value) then first else Settle(first.value, bound - 1)
  }

  /** Another pass leaves an accepted result as it is. */
  predicate Settled(o: Result<string, PathError>) { o.Ok? ==> NormalizePath(o.value) == Ok(o.value) }

  lemma NoTrailingSpaceIsSettled(o: Result<string, PathError>)
    requires o.Ok? ==> Normal(o.value) && !EndsInSpace(o.value)
    ensures Settled(o)
  {
    if o.Ok? {
      NormalizeAgain(o.value);
    }
  }

  /** The passes end, in a rejection or in a path that another pass leaves as it is. */
  lemma SettleIsFixed(path: string, bound: nat)
    requires NormalizePath(path).Ok? ==> |NormalizePath(path).value| <= bound
    ensures Settled(Settle(path, bound))
  {
    NoTrailingSpaceIsSettled(Settle(path, bound));
  }

  // ---------------------------------------------------------------- overlap

  /** child is parent, or lies below it at a '/' boundary. */
  predicate Inside(child: string, parent: string) {
    child == parent || (parent <= child && |child| > |parent| && child[|parent|] == '/')
  }

  predicate RootsOverlap(a: string, b: string) {
    Inside(a, b) || Inside(b, a)
  }

  /** Two roots that both contain a path overlap, and conversely. */
  lemma SharedPathMeansOverlap(a: string, b: string)
    ensures RootsOverlap(a, b) <==> exists path: string :: Inside(path, a) && Inside(path, b)
  {
    forall path: string | Inside(path, a) && Inside(path, b)
      ensures RootsOverlap(a, b)
    {
      var s, l := if |a| <= |b| then a else b, if |a| <= |b| then b else a;
      assert s == path[..|s|] && l == path[..|l|];
      if |s| == |l| {
        assert s == l;
      } else {
        assert l[..|s|] == s;
        assert l[|s|] == path[|s|];
      }
    }
    if Inside(a, b) {
      assert Inside(a, a);
    } else if Inside(b, a) {
      assert Inside(b, b);
    }
  }

  // ---------------------------------------------------------------- path components

  /** The position of the first slash, or the length if there is none. */
  function FirstSlash(s: string): (k: nat)
    ensures k <= |s| && (forall i | 0 <= i < k :: s[i] != '/') && (k < |s| ==> s[k] == '/')
  {
    if s == "" || s[0] == '/' then 0 else 1 + FirstSlash(s[1..])
  }

  /** The parts of a path between its slashes. */
  function Components(s: string): (cs: seq<string>)
    ensures cs != []
    decreases |s|
  {
    var k := FirstSlash(s);
    if k == |s| then [s] else [s[..k]] + Components(s[k + 1..])
  }

  function Path(cs: seq<string>): string
    requires cs != []
  {
    if |cs| == 1 then cs[0] else cs[0] + "/" + Path(cs[1..])
  }

  lemma {:induction false} PathOfComponents(s: string)
    ensures Path(Components(s)) == s
    decreases |s|
  {
    var k := FirstSlash(s);
    if k < |s| {
      PathOfComponents(s[k + 1..]);
      assert Components(s)[1..] == Components(s[k + 1..]);
      assert s == s[..k] + "/" + s[k + 1..];
    }
  }

  lemma FirstSlashIs(s: string, k: nat)
    requires k <= |s| && (forall i | 0 <= i < k :: s[i] != '/') && (k < |s| ==> s[k] == '/')
    ensures FirstSlash(s) == k
  {
  }

  lemma FirstComponent(c: string, rest: string)
    requires '/' !in c
    ensures Components(c + "/" + rest) == [c] + Components(rest)
  {
    var s := c + "/" + rest;
    FirstSlashIs(s, |c|);
    assert s[..|c|] == c && s[|c| + 1..] == rest;
  }

  lemma {:induction false} ComponentsOfBelow(a: string, b: string)
    ensures Components(a + "/" + b) == Components(a) + Components(b)
    decreases |a|
  {
    var k := FirstSlash(a);
    if k == |a| {
      FirstComponent(a, b);
    } else {
      var c, d := a[..k], a[k + 1..];
      ComponentsOfBelow(d, b);
      BelowComponent(c, d, b);
      Rejoin(a, c, d, b);
    }
  }

  lemma BelowComponent(c: string, d: string, b: string)
    requires '/' !in c && Components(d + "/" + b) == Components(d) + Components(b)
    ensures Components(c + "/" + (d + "/" + b)) == Components(c + "/" + d) + Components(b)
  {
    FirstComponent(c, d);
    FirstComponent(c, d + "/" + b);
  }

  lemma Rejoin(a: string, c: string, d: string, b: string)
    requires |c| < |a| && c == a[..|c|] && a[|c|] == '/' && d == a[|c| + 1..]
    ensures a == c + "/" + d && a + "/" + b == c + "/" + (d + "/" + b)
  {
  }

  lemma {:induction false} PathOfMore(p: seq<string>, q: seq<string>)
    requires p != [] && q != []
    ensures Path(p + q) == Path(p) + "/" + Path(q)
  {
    if |p| == 1 {
      assert (p + q)[1..] == q;
    } else {
      assert (p + q)[1..] == p[1..] + q;
      PathOfMore(p[1..], q);
    }
  }

  lemma InsideExtends(child: string, parent: string)
    requires Inside(child, parent)
    ensures Components(parent) <= Components(child)
  {
    if child != parent {
      var rest := child[|parent| + 1..];
      assert child == parent + "/" + rest;
      ComponentsOfBelow(parent, rest);
    }
  }

  lemma ExtensionIsInside(child: string, parent: string, more: seq<string>)
    requires Components(child) == Components(parent) + more
    ensures Inside(child, parent)
  {
    PathOfComponents(parent);
    PathOfComponents(child);
    if more == [] {
      assert Components(child) == Components(parent);
    } else {
      PathOfMore(Components(parent), more);
      assert child == parent + "/" + Path(more);
    }
  }

  /** A path lies inside another exactly if its components begin with those of the other. */
  lemma InsideIffComponents(child: string, parent: string)
    ensures Inside(child, parent) <==> Components(parent) <= Components(child)
  {
    var p, c := Components(parent), Components(child);
    if Inside(child, parent) {
      InsideExtends(child, parent);
    } else if p <= c {
      assert c == p + c[|p|..];
      ExtensionIsInside(child, parent, c[|p|..]);
    }
  }
}
