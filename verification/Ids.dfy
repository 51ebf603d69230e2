/** Deterministic identifiers: the strings that are hashed, and which parts they determine.
    The parts are joined by one separator; the hash itself is a library function, and only
    the text it is applied to is modelled here. */
module Ids {
  import Decimal

  /** The separator U+001F. */
  const SEP: char := '\U{001F}'

  predicate SepFree(s: string) { SEP !in s }

  predicate IsHex(c: char) { '0' <= c <= '9' || 'a' <= c <= 'f' }

  /** The hyphenated lower-case form of a UUID. */
  predicate IsUuidText(s: string) {
    |s| == 36 && forall i | 0 <= i < 36 :: if i == 8 || i == 13 || i == 18 || i == 23 then s[i] == '-' else IsHex(s[i])
  }

  type Uuid = s: string | IsUuidText(s) witness "00000000-0000-0000-0000-000000000000"

  predicate IsContentId(s: string) {
    |s| == 64 && forall i | 0 <= i < 64 :: IsHex(s[i])
  }

  type Byte = b: nat | b < 256

  function HexChar(d: nat): (c: char)
    requires d < 16
    ensures IsHex(c)
  {
    "0123456789abcdef"[d]
  }

  function HexPair(b: Byte): (s: string)
    ensures |s| == 2 && IsHex(s[0]) && IsHex(s[1])
  {
    [HexChar(b / 16), HexChar(b % 16)]
  }

  function HexOf(bytes: seq<Byte>): (s: string)
    ensures |s| == 2 * |bytes| && forall i | 0 <= i < |s| :: IsHex(s[i])
  {
    if bytes == [] then ""
    else
      var m := |bytes| - 1;
      HexOf(bytes[..m]) + HexPair(bytes[m])
  }

  method HexLower(bytes: seq<Byte>) returns (out: string)
    ensures out == HexOf(bytes)
  {
    out := "";
    for i := 0 to |bytes|
      invariant out == HexOf(bytes[..i])
    {
      assert bytes[..i + 1][..i] == bytes[..i];
      out := out + [HexChar(bytes[i] / 16)];
      out := out + [HexChar(bytes[i] % 16)];
    }
    assert bytes[..|bytes|] == bytes;
  }

  /** The digits of byte i stand at 2i and 2i + 1, the high half first. */
  lemma {:induction false} HexAt(bytes: seq<Byte>, i: nat)
    requires i < |bytes|
    ensures HexOf(bytes)[2 * i] == "0123456789abcdef"[bytes[i] / 16] && HexOf(bytes)[2 * i + 1] == "0123456789abcdef"[bytes[i] % 16]
  {
    var m: nat := |bytes| - 1;
    if i < m {
      HexAt(bytes[..m], i);
    }
  }

  lemma HexCharInjective(d: nat, e: nat)
    requires d < 16 && e < 16 && HexChar(d) == HexChar(e)
    ensures d == e
  {
  }

  lemma LastTwo(p: string, q: string, x: Byte, y: Byte)
    requires p + HexPair(x) == q + HexPair(y)
    ensures p == q && x == y
  {
    var s := p + HexPair(x);
    assert s == q + HexPair(y);
    assert p == s[..|p|] && q == s[..|q|];
    assert s[|p|] == HexPair(x)[0] == HexPair(y)[0] && s[|p| + 1] == HexPair(x)[1] == HexPair(y)[1];
    HexCharInjective(x / 16, y / 16);
    HexCharInjective(x % 16, y % 16);
  }

  /** The hexadecimal text determines the bytes. */
  lemma {:induction false} HexInjective(a: seq<Byte>, b: seq<Byte>)
    requires HexOf(a) == HexOf(b)
    ensures a == b
  {
    assert |a| == |b|;
    if a != [] {
      var m := |a| - 1;
      var p, q := a[..m], b[..m];
      LastTwo(HexOf(p), HexOf(q), a[m], b[m]);
      HexInjective(p, q);
      assert a == p + [a[m]] && b == q + [b[m]];
    }
  }

  // ---------------------------------------------------------------- joined strings

  function Join(parts: seq<string>): string {
    if parts == [] then ""
    else if |parts| == 1 then parts[0]
    else parts[0] + [SEP] + Join(parts[1..])
  }

  lemma FirstSep(a: string, b: string, c: string, d: string)
    requires SepFree(a) && SepFree(c) && a + [SEP] + b == c + [SEP] + d
    ensures a == c && b == d
  {
    var s := a + [SEP] + b;
    assert s == c + [SEP] + d;
    assert s[|a|] == SEP && s[|c|] == SEP;
    assert forall i | 0 <= i < |a| :: s[i] == a[i] && s[i] != SEP;
    assert forall i | 0 <= i < |c| :: s[i] == c[i] && s[i] != SEP;
    assert a == s[..|a|] && c == s[..|c|];
    assert b == s[|a| + 1..] && d == s[|c| + 1..];
  }

  /** Equal joins with separator-free heads have equal heads and equal rests. */
  lemma JoinHead(p: seq<string>, q: seq<string>)
    requires |p| >= 2 && |q| >= 2 && SepFree(p[0]) && SepFree(q[0]) && Join(p) == Join(q)
    ensures p[0] == q[0] && Join(p[1..]) == Join(q[1..])
  {
    FirstSep(p[0], Join(p[1..]), q[0], Join(q[1..]));
  }

  predicate AllSepFree(p: seq<string>) {
    forall k | 0 <= k < |p| :: SepFree(p[k])
  }

  /** Joins of equally many parts, separator-free but for the last, determine the parts. */
  lemma {:induction false} JoinInjective(p: seq<string>, q: seq<string>)
    requires |p| == |q| >= 1 && Join(p) == Join(q)
    requires AllSepFree(p[..|p| - 1]) && AllSepFree(q[..|q| - 1])
    ensures p == q
  {
    if |p| > 1 {
      assert p[..|p| - 1][0] == p[0] && q[..|q| - 1][0] == q[0];
      JoinHead(p, q);
      assert p[1..][..|p| - 2] == p[..|p| - 1][1..];
      assert q[1..][..|q| - 2] == q[..|q| - 1][1..];
      JoinInjective(p[1..], q[1..]);
      assert p == [p[0]] + p[1..] && q == [q[0]] + q[1..];
    } else {
      assert p == [p[0]] && q == [q[0]];
    }
  }

  function CountSep(s: string): nat {
    if s == "" then 0 else (if s[0] == SEP then 1 else 0) + CountSep(s[1..])
  }

  lemma {:induction false} CountSepConcat(a: string, b: string)
    ensures CountSep(a + b) == CountSep(a) + CountSep(b)
  {
    if a == "" {
      assert a + b == b;
    } else {
      assert (a + b)[1..] == a[1..] + b;
      CountSepConcat(a[1..], b);
    }
  }

  lemma {:induction false} CountSepZero(s: string)
    ensures CountSep(s) == 0 <==> SepFree(s)
  {
    if s != "" {
      CountSepZero(s[1..]);
      assert s == [s[0]] + s[1..];
    }
  }

  lemma {:induction false} JoinCount(p: seq<string>)
    requires |p| >= 1
    ensures CountSep(Join(p)) >= |p| - 1
    ensures CountSep(Join(p)) == |p| - 1 <==> AllSepFree(p)
  {
    CountSepZero(p[0]);
    if |p| > 1 {
      JoinCount(p[1..]);
      CountSepConcat(p[0] + [SEP], Join(p[1..]));
      CountSepConcat(p[0], [SEP]);
      assert [SEP][1..] == "" && CountSep([SEP]) == 1;
      assert AllSepFree(p) <==> SepFree(p[0]) && AllSepFree(p[1..]) by {
        assert p == [p[0]] + p[1..];
      }
    }
  }

  /** The parts can be read back from the joined string alone. */
  ghost predicate Unambiguous(p: seq<string>) {
    forall q: seq<string> | |q| == |p| && Join(q) == Join(p) :: q == p
  }

  lemma {:induction false} AmbiguousTail(p: seq<string>, head: string)
    requires |p| >= 1 && !Unambiguous(p)
    ensures !Unambiguous([head] + p)
  {
    var q: seq<string> :| |q| == |p| && Join(q) == Join(p) && q != p;
    assert ([head] + p)[1..] == p && ([head] + q)[1..] == q;
    assert Join([head] + q) == Join([head] + p);
    assert ([head] + q)[1..] != ([head] + p)[1..];
  }

  /** A separator in the first part of two or more moves the boundary. */
  lemma SepInFirst(p: seq<string>)
    requires |p| >= 2 && !SepFree(p[0])
    ensures !Unambiguous(p)
  {
    var i :| 0 <= i < |p[0]| && p[0][i] == SEP;
    var x, y := p[0][..i], p[0][i + 1..];
    assert p[0] == x + [SEP] + y;
    var q := [x, y + [SEP] + p[1]] + p[2..];
    assert q[1..] == [y + [SEP] + p[1]] + p[2..];
    if |p| == 2 {
      assert p[1..] == [p[1]] && q[1..] == [y + [SEP] + p[1]];
      assert p[0] + [SEP] + p[1] == x + [SEP] + (y + [SEP] + p[1]);
    } else {
      var r := Join(p[2..]);
      assert p[1..][1..] == p[2..] && q[1..][1..] == p[2..];
      assert Join(p[1..]) == p[1] + [SEP] + r;
      assert Join(q[1..]) == y + [SEP] + p[1] + [SEP] + r;
      assert p[0] + [SEP] + (p[1] + [SEP] + r) == x + [SEP] + (y + [SEP] + p[1] + [SEP] + r);
    }
    assert Join(q) == Join(p) && |q| == |p|;
    assert |q[0]| < |p[0]|;
  }

  lemma SepInSecondOfTwo(p: seq<string>)
    requires |p| == 2 && !SepFree(p[1])
    ensures !Unambiguous(p)
  {
    var i :| 0 <= i < |p[1]| && p[1][i] == SEP;
    var x, y := p[1][..i], p[1][i + 1..];
    var q := [p[0] + [SEP] + x, y];
    assert p[1] == x + [SEP] + y;
    assert p[1..] == [p[1]] && q[1..] == [y];
    assert p[0] + [SEP] + (x + [SEP] + y) == p[0] + [SEP] + x + [SEP] + y;
    assert Join(q) == Join(p) && |q[0]| > |p[0]|;
  }

  lemma {:induction false} SepSomewhere(p: seq<string>)
    requires |p| >= 2 && !AllSepFree(p)
    ensures !Unambiguous(p)
  {
    if !SepFree(p[0]) {
      SepInFirst(p);
    } else if |p| == 2 {
      SepInSecondOfTwo(p);
    } else {
      var k :| 0 <= k < |p| && !SepFree(p[k]);
      assert p[1..][k - 1] == p[k];
      SepSomewhere(p[1..]);
      AmbiguousTail(p[1..], p[0]);
      assert p == [p[0]] + p[1..];
    }
  }

  /** Two or more free parts can be read back exactly when none contains the separator. */
  lemma UnambiguousIffSepFree(p: seq<string>)
    requires |p| >= 2
    ensures Unambiguous(p) <==> AllSepFree(p)
  {
    if AllSepFree(p) {
      forall q: seq<string> | |q| == |p| && Join(q) == Join(p)
        ensures q == p
      {
        JoinCount(p);
        JoinCount(q);
        JoinInjective(q, p);
      }
    } else {
      SepSomewhere(p);
    }
  }

  // ---------------------------------------------------------------- corpus ids

  datatype CorpusKey =
    | CorpusRootKey(root: string)
    | DocumentKey(corpus: Uuid, path: string, content: string)

  predicate ValidCorpusKey(x: CorpusKey) {
    x.DocumentKey? ==> IsContentId(x.content)
  }

  function CorpusParts(x: CorpusKey): (p: seq<string>)
    ensures |p| >= 2
  {
    match x
    case CorpusRootKey(root) => ["corpus", root]
    case DocumentKey(corpus, path, content) => ["document", corpus, path, content]
  }

  lemma JoinTwo(a: string, b: string)
    ensures Join([a, b]) == a + [SEP] + b
  {
    assert [a, b][1..] == [b];
  }

  lemma JoinMore(a: string, rest: seq<string>)
    requires rest != []
    ensures Join([a] + rest) == a + [SEP] + Join(rest)
  {
    assert ([a] + rest)[1..] == rest;
  }

  /** The strings hashed for a corpus and for a document in it. */
  lemma CorpusTexts(root: string, corpus: Uuid, path: string, content: string)
    ensures Join(CorpusParts(CorpusRootKey(root))) == "corpus" + [SEP] + root
    ensures Join(CorpusParts(DocumentKey(corpus, path, content)))
         == "document" + [SEP] + (corpus + [SEP] + (path + [SEP] + content))
  {
    JoinTwo("corpus", root);
    JoinTwo(path, content);
    JoinMore(corpus, [path, content]);
    JoinMore("document", [corpus, path, content]);
    assert ["document"] + [corpus, path, content] == ["document", corpus, path, content];
    assert [corpus] + [path, content] == [corpus, path, content];
  }

  lemma UuidSepFree(u: Uuid)
    ensures SepFree(u)
  {
  }

  /** Both constructors determine their parts, whatever the path contains, and never build
      the same string. */
  lemma CorpusKeysInjective(x: CorpusKey, y: CorpusKey)
    requires ValidCorpusKey(x) && ValidCorpusKey(y)
    requires Join(CorpusParts(x)) == Join(CorpusParts(y))
    ensures x == y
  {
    var p, q := CorpusParts(x), CorpusParts(y);
    assert SepFree("corpus") && SepFree("document");
    JoinHead(p, q);
    assert |"corpus"| != |"document"|;
    if x.CorpusRootKey? {
      assert p[1..] == [x.root] && q[1..] == [y.root];
    } else {
      UuidSepFree(x.corpus);
      UuidSepFree(y.corpus);
      JoinHead(p[1..], q[1..]);
      assert p[1..][1..] == [x.path, x.content] && q[1..][1..] == [y.path, y.content];
      FixedWidthTail(x.path, x.content, y.path, y.content);
    }
  }

  lemma FixedWidthTail(a: string, b: string, c: string, d: string)
    requires Join([a, b]) == Join([c, d]) && |b| == |d|
    ensures a == c && b == d
  {
    assert [a, b][1..] == [b] && [c, d][1..] == [d];
    var s := a + [SEP] + b;
    assert s == c + [SEP] + d;
    assert a == s[..|a|] && c == s[..|c|];
    assert b == s[|a| + 1..] && d == s[|c| + 1..];
  }

  // ---------------------------------------------------------------- knowledge ids

  datatype SourceKind =
    LocalFolder | MicrosoftOutlook | MicrosoftOneDrive | MicrosoftSharePoint | Gmail | GoogleDrive | Slack | Notion

  function KindText(k: SourceKind): string {
    match k
    case LocalFolder => "local_folder"
    case MicrosoftOutlook => "microsoft_outlook"
    case MicrosoftOneDrive => "microsoft_onedrive"
    case MicrosoftSharePoint => "microsoft_sharepoint"
    case Gmail => "gmail"
    case GoogleDrive => "google_drive"
    case Slack => "slack"
    case Notion => "notion"
  }

  lemma KindTextInjective(a: SourceKind, b: SourceKind)
    ensures SepFree(KindText(a))
    ensures KindText(a) == KindText(b) ==> a == b
  {
    assert KindText(a)[0] == KindText(b)[0] && |KindText(a)| == |KindText(b)| ==> a == b;
  }

  datatype KnowledgeKey =
    | SourceKey(kind: SourceKind, stableKey: string)
    | AccountKey(source: Uuid, subject: string)
    | ScopeKey(account: Uuid, providerKey: string)
    | ObjectKey(objectKind: SourceKind, accountKey: string, scopeKey: string, externalId: string)
    | PartKey(partOf: string, partKey: string)
    | RevisionKey(revisionOf: string, version: string)
    | ChunkKey(revision: Uuid, part: Uuid, index: nat)

  function Tag(x: KnowledgeKey): string {
    match x
    case SourceKey(_, _) => "source"
    case AccountKey(_, _) => "account"
    case ScopeKey(_, _) => "scope"
    case ObjectKey(_, _, _, _) => "object"
    case PartKey(_, _) => "part"
    case RevisionKey(_, _) => "revision"
    case ChunkKey(_, _, _) => "chunk"
  }

  /** The parts after the tag that come from a fixed alphabet without the separator. */
  function Fixed(x: KnowledgeKey): seq<string> {
    match x
    case SourceKey(kind, _) => [KindText(kind)]
    case AccountKey(source, _) => [source]
    case ScopeKey(account, _) => [account]
    case ObjectKey(kind, _, _, _) => [KindText(kind)]
    case PartKey(_, _) => []
    case RevisionKey(_, _) => []
    case ChunkKey(revision, part, _) => [revision, part]
  }

  /** The parts that callers choose. */
  function Free(x: KnowledgeKey): (p: seq<string>)
    ensures |p| >= 1
  {
    match x
    case SourceKey(_, key) => [key]
    case AccountKey(_, subject) => [subject]
    case ScopeKey(_, key) => [key]
    case ObjectKey(_, account, scope, external) => [account, scope, external]
    case PartKey(owner, part) => [owner, part]
    case RevisionKey(owner, version) => [owner, version]
    case ChunkKey(_, _, index) => [Decimal.Print(index)]
  }

  function Preimage(x: KnowledgeKey): string {
    Join([Tag(x)] + Fixed(x) + Free(x))
  }

  /** The string hashed for each kind of knowledge id: its word, then its parts in order. */
  lemma PreimageText(x: KnowledgeKey)
    ensures match x
      case SourceKey(kind, key) => Preimage(x) == Join(["source", KindText(kind), key])
      case AccountKey(source, subject) => Preimage(x) == Join(["account", source, subject])
      case ScopeKey(account, key) => Preimage(x) == Join(["scope", account, key])
      case ObjectKey(kind, account, scope, external) => Preimage(x) == Join(["object", KindText(kind), account, scope, external])
      case PartKey(owner, part) => Preimage(x) == Join(["part", owner, part])
      case RevisionKey(owner, version) => Preimage(x) == Join(["revision", owner, version])
      case ChunkKey(revision, part, index) => Preimage(x) == Join(["chunk", revision, part, Decimal.Print(index)])
  {
    var parts := [Tag(x)] + Fixed(x) + Free(x);
    match x
    case SourceKey(kind, key) => assert parts == ["source", KindText(kind), key];
    case AccountKey(source, subject) => assert parts == ["account", source, subject];
    case ScopeKey(account, key) => assert parts == ["scope", account, key];
    case ObjectKey(kind, account, scope, external) => assert parts == ["object", KindText(kind), account, scope, external];
    case PartKey(owner, part) => assert parts == ["part", owner, part];
    case RevisionKey(owner, version) => assert parts == ["revision", owner, version];
    case ChunkKey(revision, part, index) => assert parts == ["chunk", revision, part, Decimal.Print(index)];
  }

  lemma TagInjective(x: KnowledgeKey, y: KnowledgeKey)
    ensures SepFree(Tag(x))
    ensures Tag(x) == Tag(y) ==> |Fixed(x)| == |Fixed(y)| && |Free(x)| == |Free(y)|
    ensures Tag(x) == Tag(y) ==> (Fixed(x) == Fixed(y) && Free(x) == Free(y) <==> x == y)
  {
    assert Tag(x)[0] == Tag(y)[0] && Tag(x)[1] == Tag(y)[1] && |Tag(x)| == |Tag(y)| ==> Tag(x) == Tag(y);
    if Tag(x) == Tag(y) {
      assert x.SourceKey? == y.SourceKey? && x.AccountKey? == y.AccountKey? && x.ScopeKey? == y.ScopeKey?;
      assert x.ObjectKey? == y.ObjectKey? && x.PartKey? == y.PartKey? && x.RevisionKey? == y.RevisionKey?;
      if Fixed(x) == Fixed(y) && Free(x) == Free(y) {
        assert Free(x)[0] == Free(y)[0];
        match x
        case SourceKey(k, _) =>
          assert Fixed(x)[0] == Fixed(y)[0];
          KindTextInjective(k, y.kind);
        case ObjectKey(k, _, _, _) =>
          assert Fixed(x)[0] == Fixed(y)[0] && Free(x)[1] == Free(y)[1] && Free(x)[2] == Free(y)[2];
          KindTextInjective(k, y.objectKind);
        case AccountKey(_, _) => assert Fixed(x)[0] == Fixed(y)[0];
        case ScopeKey(_, _) => assert Fixed(x)[0] == Fixed(y)[0];
        case PartKey(_, _) => assert Free(x)[1] == Free(y)[1];
        case RevisionKey(_, _) => assert Free(x)[1] == Free(y)[1];
        case ChunkKey(_, _, i) =>
          assert Fixed(x)[0] == Fixed(y)[0] && Fixed(x)[1] == Fixed(y)[1];
          Decimal.PrintInjective(i, y.index);
      }
    }
  }

  lemma FixedSepFree(x: KnowledgeKey)
    ensures AllSepFree([Tag(x)] + Fixed(x))
  {
    TagInjective(x, x);
    match x
    case SourceKey(k, _) => KindTextInjective(k, k);
    case ObjectKey(k, _, _, _) => KindTextInjective(k, k);
    case AccountKey(u, _) => UuidSepFree(u);
    case ScopeKey(u, _) => UuidSepFree(u);
    case PartKey(_, _) =>
    case RevisionKey(_, _) =>
    case ChunkKey(u, v, _) => UuidSepFree(u); UuidSepFree(v);
  }

  /** Equal joins agree on a separator-free front of equal length and on the rest. */
  lemma {:induction false} JoinFront(a: seq<string>, b: seq<string>, p: seq<string>, q: seq<string>)
    requires |a| == |b| && AllSepFree(a) && AllSepFree(b) && |p| >= 1 && |q| >= 1
    ensures Join(a + p) == Join(b + q) <==> a == b && Join(p) == Join(q)
  {
    if a == [] {
      assert a + p == p && b + q == q;
    } else {
      assert (a + p)[1..] == a[1..] + p && (b + q)[1..] == b[1..] + q;
      JoinFront(a[1..], b[1..], p, q);
      assert a == [a[0]] + a[1..] && b == [b[0]] + b[1..];
      if Join(a + p) == Join(b + q) {
        JoinHead(a + p, b + q);
      }
    }
  }

  /** Constructors with different tags never build the same string, and the fixed parts are
      always determined: two keys collide exactly when their free parts join alike. */
  lemma CollisionIff(x: KnowledgeKey, y: KnowledgeKey)
    ensures Preimage(x) == Preimage(y) <==> Tag(x) == Tag(y) && Fixed(x) == Fixed(y) && Join(Free(x)) == Join(Free(y))
  {
    FixedSepFree(x);
    FixedSepFree(y);
    TagInjective(x, y);
    var a, b := [Tag(x)] + Fixed(x), [Tag(y)] + Fixed(y);
    assert a + Free(x) == [Tag(x)] + Fixed(x) + Free(x);
    if Tag(x) == Tag(y) {
      JoinFront(a, b, Free(x), Free(y));
      assert a == b <==> Fixed(x) == Fixed(y) by {
        assert a[1..] == Fixed(x) && b[1..] == Fixed(y);
      }
    } else if Preimage(x) == Preimage(y) {
      assert a[0] == Tag(x) && b[0] == Tag(y);
      JoinHead(a + Free(x), b + Free(y));
    }
  }

  /** The string determines every part when the free parts before the last have no separator. */
  lemma KeysInjective(x: KnowledgeKey, y: KnowledgeKey)
    requires AllSepFree(Free(x)[..|Free(x)| - 1]) && AllSepFree(Free(y)[..|Free(y)| - 1])
    requires Preimage(x) == Preimage(y)
    ensures x == y
  {
    CollisionIff(x, y);
    TagInjective(x, y);
    JoinInjective(Free(x), Free(y));
  }

  /** Source, account, scope and chunk ids have one free part, so nothing is asked of it. */
  lemma SingleFreePartInjective(x: KnowledgeKey, y: KnowledgeKey)
    requires x.SourceKey? || x.AccountKey? || x.ScopeKey? || x.ChunkKey?
    requires Preimage(x) == Preimage(y)
    ensures x == y
  {
    CollisionIff(x, y);
    TagInjective(x, y);
    KeysInjective(x, y);
  }

  /** The key with other free parts. */
  function WithFree(x: KnowledgeKey, p: seq<string>): (y: KnowledgeKey)
    requires x.ObjectKey? || x.PartKey? || x.RevisionKey?
    requires |p| == |Free(x)|
    ensures Tag(y) == Tag(x) && Fixed(y) == Fixed(x) && Free(y) == p
  {
    match x
    case ObjectKey(kind, _, _, _) => ObjectKey(kind, p[0], p[1], p[2])
    case PartKey(_, _) => PartKey(p[0], p[1])
    case RevisionKey(_, _) => RevisionKey(p[0], p[1])
  }

  /** An object, part or revision id can be traced to one key exactly when none of its free
      parts contains the separator. */
  lemma ReadableIffSepFree(x: KnowledgeKey)
    requires x.ObjectKey? || x.PartKey? || x.RevisionKey?
    ensures (forall y: KnowledgeKey | Preimage(y) == Preimage(x) :: y == x) <==> AllSepFree(Free(x))
  {
    UnambiguousIffSepFree(Free(x));
    if AllSepFree(Free(x)) {
      forall y: KnowledgeKey | Preimage(y) == Preimage(x)
        ensures y == x
      {
        CollisionIff(y, x);
        TagInjective(y, x);
      }
    } else {
      var q: seq<string> :| |q| == |Free(x)| && Join(q) == Join(Free(x)) && q != Free(x);
      CollisionIff(WithFree(x, q), x);
    }
  }
}
