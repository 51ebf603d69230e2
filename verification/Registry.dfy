/** The corpus registry: tables, steps, and what every run keeps. */
module Registry {
  import opened Wrappers
  import opened Ids
  import opened Roots
  import opened Aliases

  /** The name-based UUID and the SHA-256 text of a string, as library functions. */
  datatype Hasher = Hasher(uuid: string -> Uuid, sha256: string -> string)

  function CorpusIdOf(h: Hasher, root: string): Uuid {
    h.uuid(Join(CorpusParts(CorpusRootKey(root))))
  }

  function Sha256Hex(h: Hasher, s: string): string { h.sha256(s) }

  datatype BindingKind = KnowledgeSource | LegalFolder | LegalDocument | TabularReview

  datatype Corpus = Corpus(root: string, rawRoot: string, labelPseudo: string, profiles: string, alias: Option<string>)

  datatype BindingKey = BindingKey(corpus: Uuid, kind: BindingKind, binding: string)

  datatype DocKey = DocKey(corpus: Uuid, document: Uuid, backend: string)

  datatype Document = Document(
    sourceHash: string, relativeHash: Option<string>, relativePath: Option<string>,
    contentId: string, metadata: string)

  datatype Sync = Sync(
    freshness: string, startedAt: Option<string>, finishedAt: Option<string>,
    fileCount: Option<nat>, rootMtime: Option<string>, summary: string)

  datatype Tables = Tables(
    corpora: map<Uuid, Corpus>,
    bindings: map<BindingKey, string>,
    documents: map<DocKey, Document>,
    syncs: map<Uuid, Sync>)

  datatype Outcome = Done | EmptyRoot | Overlap(other: Uuid) | UnknownCorpus | AliasTaken

  const LEGAL := "legal"

  // ------------------------------------------------------------ what each step does

  function AliasSet(corpora: map<Uuid, Corpus>): set<string> {
    set id | id in corpora && corpora[id].alias.Some? :: corpora[id].alias.value
  }

  function WithAlias(t: Tables, id: Uuid, alias: string): Tables
    requires id in t.corpora
  {
    t.(corpora := t.corpora[id := t.corpora[id].(alias := Some(alias))])
  }

  /** Give a corpus without alias the next automatic one; the unique index may refuse it. */
  ghost function GiveAlias(t: Tables, id: Uuid): (Tables, Outcome)
    requires id in t.corpora
  {
    var alias := NextAlias(MaxSuffix(AliasSet(t.corpora)));
    if alias in AliasSet(t.corpora) then (t, AliasTaken) else (WithAlias(t, id, alias), Done)
  }

  function Label(id: Uuid): (text: string)
    ensures |text| == 19 && "corpus_" <= text && text[7..] <= id
  {
    "corpus_" + id[..12]
  }

  /** `INSERT ... ON CONFLICT(corpus_id) DO UPDATE`. */
  function Upsert(h: Hasher, t: Tables, raw: string, root: string, profiles: string): (u: Tables)
    ensures CorpusIdOf(h, root) in u.corpora
  {
    var id := CorpusIdOf(h, root);
    t.(corpora := t.corpora[id :=
      if id in t.corpora then t.corpora[id].(rawRoot := raw, profiles := profiles)
      else Corpus(root, raw, Label(id), profiles, None)])
  }

  predicate Clashes(c: Corpus, root: string) {
    c.root != root && RootsOverlap(c.root, root)
  }

  ghost predicate NoClash(t: Tables, root: string) {
    forall id | id in t.corpora :: !Clashes(t.corpora[id], root)
  }

  /** The steps of a registration once the root has been normalised. */
  ghost predicate RegistersRoot(h: Hasher, t: Tables, raw: string, root: string, profiles: string, t': Tables, o: Outcome) {
    if !NoClash(t, root) then
      t' == t && o.Overlap? && o.other in t.corpora && Clashes(t.corpora[o.other], root)
    else
      var id, u := CorpusIdOf(h, root), Upsert(h, t, raw, root, profiles);
      if u.corpora[id].alias.Some? then t' == u && o == Done else (t', o) == GiveAlias(u, id)
  }

  ghost predicate Registers(h: Hasher, t: Tables, raw: string, profiles: string, t': Tables, o: Outcome) {
    match NormalizePath(raw)
    case Err(_) => t' == t && o == EmptyRoot
    case Ok(root) => RegistersRoot(h, t, raw, root, profiles, t', o)
  }

  predicate TakenByOther(t: Tables, id: Uuid, alias: string) {
    exists b :: b in t.corpora && b != id && t.corpora[b].alias == Some(alias)
  }

  function SetAliasStep(t: Tables, id: Uuid, alias: string): (Tables, Outcome) {
    if id !in t.corpora then (t, UnknownCorpus)
    else if TakenByOther(t, id, alias) then (t, AliasTaken)
    else (WithAlias(t, id, alias), Done)
  }

  function AddBindingStep(t: Tables, key: BindingKey, metadata: string): (Tables, Outcome) {
    if key.corpus !in t.corpora then (t, UnknownCorpus)
    else (t.(bindings := t.bindings[key := metadata]), Done)
  }

  function AddDocumentStep(t: Tables, key: DocKey, row: Document): (Tables, Outcome) {
    if key.corpus !in t.corpora then (t, UnknownCorpus)
    else (t.(documents := t.documents[key := row]), Done)
  }

  function PathRow(t: Tables, key: DocKey, path: string): Document {
    if key in t.documents then t.documents[key].(relativePath := Some(path))
    else Document("", None, Some(path), "", "{}")
  }

  function RecordPathStep(t: Tables, corpus: Uuid, document: Uuid, path: string): (Tables, Outcome) {
    var key := DocKey(corpus, document, LEGAL);
    if corpus !in t.corpora then (t, UnknownCorpus)
    else (t.(documents := t.documents[key := PathRow(t, key, path)]), Done)
  }

  function SyncStep(t: Tables, id: Uuid, row: Sync): (Tables, Outcome) {
    if id !in t.corpora then (t, UnknownCorpus)
    else (t.(syncs := t.syncs[id := row]), Done)
  }

  /** `DELETE FROM corpora` with its cascades; deleting an absent corpus is no error. */
  function DeleteStep(t: Tables, id: Uuid): Tables {
    Tables(
      map a | a in t.corpora && a != id :: t.corpora[a],
      map k | k in t.bindings && k.corpus != id :: t.bindings[k],
      map k | k in t.documents && k.corpus != id :: t.documents[k],
      map a | a in t.syncs && a != id :: t.syncs[a])
  }

  /** ids lists the corpora without alias, each once: the order is that of the query. */
  ghost predicate ListsUnaliased(t: Tables, ids: seq<Uuid>) {
    && (forall i, j | 0 <= i < j < |ids| :: ids[i] != ids[j])
    && (forall id: Uuid :: id in ids <==> id in t.corpora && t.corpora[id].alias.None?)
  }

  predicate Known(t: Tables, ids: seq<Uuid>) {
    forall i {:trigger ids[i]} | 0 <= i < |ids| :: ids[i] in t.corpora
  }

  /** The update loop of the backfill from ids[i] on; it stops at the first refused alias. */
  ghost function BackfillFrom(t: Tables, ids: seq<Uuid>, i: nat): (Tables, Outcome)
    requires i <= |ids| && Known(t, ids)
    decreases |ids| - i
  {
    if i == |ids| then (t, Done)
    else
      var r := GiveAlias(t, ids[i]);
      if r.1 == Done then BackfillFrom(r.0, ids, i + 1) else r
  }

  datatype Op =
    | Register(raw: string, profiles: string)
    | SetAlias(id: Uuid, alias: string)
    | AddBinding(binding: BindingKey, metadata: string)
    | AddDocument(key: DocKey, row: Document)
    | RecordPath(corpus: Uuid, document: Uuid, path: string)
    | PutSync(syncId: Uuid, sync: Sync)
    | Delete(deleted: Uuid)
    | Reopen(order: seq<Uuid>)

  ghost predicate Step(h: Hasher, t: Tables, op: Op, t': Tables, o: Outcome) {
    match op
    case Register(raw, profiles) => Registers(h, t, raw, profiles, t', o)
    case SetAlias(id, alias) => (t', o) == SetAliasStep(t, id, alias)
    case AddBinding(key, metadata) => (t', o) == AddBindingStep(t, key, metadata)
    case AddDocument(key, row) => (t', o) == AddDocumentStep(t, key, row)
    case RecordPath(corpus, document, path) => (t', o) == RecordPathStep(t, corpus, document, path)
    case PutSync(id, row) => (t', o) == SyncStep(t, id, row)
    case Delete(id) => (t', o) == (DeleteStep(t, id), Done)
    case Reopen(order) => ListsUnaliased(t, order) && Known(t, order) && (t', o) == BackfillFrom(t, order, 0)
  }

  // ------------------------------------------------------------ what every step keeps

  ghost predicate IdsFollowRoots(h: Hasher, t: Tables) {
    forall id | id in t.corpora :: id == CorpusIdOf(h, t.corpora[id].root)
  }

  ghost predicate RootsApart(t: Tables) {
    forall a, b | a in t.corpora && b in t.corpora && a != b :: !RootsOverlap(t.corpora[a].root, t.corpora[b].root)
  }

  ghost predicate AliasesDistinct(t: Tables) {
    forall a, b | a in t.corpora && b in t.corpora && a != b && t.corpora[a].alias.Some? ::
      t.corpora[a].alias != t.corpora[b].alias
  }

  ghost predicate RefsResolve(t: Tables) {
    && (forall k | k in t.bindings :: k.corpus in t.corpora)
    && (forall k | k in t.documents :: k.corpus in t.corpora)
    && (forall id | id in t.syncs :: id in t.corpora)
  }

  ghost predicate Inv(h: Hasher, t: Tables) {
    IdsFollowRoots(h, t) && RootsApart(t) && AliasesDistinct(t) && RefsResolve(t)
  }

  ghost predicate AllAliased(t: Tables) {
    forall id | id in t.corpora :: t.corpora[id].alias.Some?
  }

  lemma WithAliasKeepsInv(h: Hasher, t: Tables, id: Uuid, alias: string)
    requires Inv(h, t) && id in t.corpora && !TakenByOther(t, id, alias)
    ensures Inv(h, WithAlias(t, id, alias))
  {
  }

  lemma GiveAliasKeepsInv(h: Hasher, t: Tables, id: Uuid)
    requires Inv(h, t) && id in t.corpora
    ensures Inv(h, GiveAlias(t, id).0)
  {
    var alias := NextAlias(MaxSuffix(AliasSet(t.corpora)));
    if alias !in AliasSet(t.corpora) {
      WithAliasKeepsInv(h, t, id, alias);
    }
  }

  /** A new id means a new root, so a root that clashes with none overlaps none. */
  lemma NoClashMeansApart(h: Hasher, t: Tables, root: string)
    requires IdsFollowRoots(h, t) && NoClash(t, root) && CorpusIdOf(h, root) !in t.corpora
    ensures forall b | b in t.corpora :: !RootsOverlap(t.corpora[b].root, root)
  {
    forall b | b in t.corpora
      ensures !RootsOverlap(t.corpora[b].root, root)
    {
      assert !Clashes(t.corpora[b], root);
      assert t.corpora[b].root != root;
    }
  }

  lemma UpsertKeepsInv(h: Hasher, t: Tables, raw: string, root: string, profiles: string)
    requires Inv(h, t) && NoClash(t, root)
    ensures Inv(h, Upsert(h, t, raw, root, profiles))
  {
    var id := CorpusIdOf(h, root);
    if id in t.corpora {
      UpsertKnownKeepsInv(h, t, raw, root, profiles);
    } else {
      var row := Corpus(root, raw, Label(id), profiles, None);
      NoClashMeansApart(h, t, root);
    }
  }

  /** No two rows have the same normalised root, as the unique index demands. */
  ghost predicate RootsDistinct(t: Tables) {
    forall a, b | a in t.corpora && b in t.corpora && a != b :: t.corpora[a].root != t.corpora[b].root
  }

  /** The insert never meets the unique index on roots: a row that holds the root has the id
      the insert uses, so the conflict clause on that id takes it. */
  lemma RootIndexNeverRefuses(h: Hasher, t: Tables, raw: string, root: string, profiles: string)
    requires Inv(h, t) && NoClash(t, root)
    ensures forall b | b in t.corpora && t.corpora[b].root == root :: b == CorpusIdOf(h, root)
    ensures RootsDistinct(t) && RootsDistinct(Upsert(h, t, raw, root, profiles))
  {
    UpsertKeepsInv(h, t, raw, root, profiles);
    assert IdsFollowRoots(h, Upsert(h, t, raw, root, profiles));
  }

  lemma UpsertKnownKeepsInv(h: Hasher, t: Tables, raw: string, root: string, profiles: string)
    requires Inv(h, t) && CorpusIdOf(h, root) in t.corpora
    ensures Inv(h, Upsert(h, t, raw, root, profiles))
  {
  }

  lemma {:induction false} BackfillKeepsInv(h: Hasher, t: Tables, ids: seq<Uuid>, i: nat)
    requires Inv(h, t) && i <= |ids| && Known(t, ids)
    ensures Inv(h, BackfillFrom(t, ids, i).0)
    decreases |ids| - i
  {
    if i < |ids| {
      GiveAliasKeepsInv(h, t, ids[i]);
      if GiveAlias(t, ids[i]).1 == Done {
        BackfillKeepsInv(h, GiveAlias(t, ids[i]).0, ids, i + 1);
      }
    }
  }

  lemma RegisterKeepsInv(h: Hasher, t: Tables, raw: string, profiles: string, t': Tables, o: Outcome)
    requires Inv(h, t) && Registers(h, t, raw, profiles, t', o)
    ensures Inv(h, t')
  {
    if NormalizePath(raw).Ok? {
      var root := NormalizePath(raw).value;
      if NoClash(t, root) {
        UpsertKeepsInv(h, t, raw, root, profiles);
        GiveAliasKeepsInv(h, Upsert(h, t, raw, root, profiles), CorpusIdOf(h, root));
      }
    }
  }

  lemma DeleteKeepsInv(h: Hasher, t: Tables, id: Uuid)
    requires Inv(h, t)
    ensures Inv(h, DeleteStep(t, id))
  {
    var d := DeleteStep(t, id);
    assert IdsFollowRoots(h, d);
    assert RootsApart(d);
    assert AliasesDistinct(d);
    assert RefsResolve(d);
  }

  lemma RowStepKeepsRefs(h: Hasher, t: Tables, op: Op, t': Tables, o: Outcome)
    requires RefsResolve(t) && Step(h, t, op, t', o)
    requires op.AddBinding? || op.AddDocument? || op.RecordPath? || op.PutSync?
    ensures RefsResolve(t') && t'.corpora == t.corpora
  {
  }

  lemma RowStepKeepsInv(h: Hasher, t: Tables, op: Op, t': Tables, o: Outcome)
    requires Inv(h, t) && Step(h, t, op, t', o)
    requires op.AddBinding? || op.AddDocument? || op.RecordPath? || op.PutSync?
    ensures Inv(h, t')
  {
    RowStepKeepsRefs(h, t, op, t', o);
  }

  lemma StepKeepsInv(h: Hasher, t: Tables, op: Op, t': Tables, o: Outcome)
    requires Inv(h, t) && Step(h, t, op, t', o)
    ensures Inv(h, t')
  {
    match op
    case Register(raw, profiles) => RegisterKeepsInv(h, t, raw, profiles, t', o);
    case SetAlias(id, alias) =>
      if id in t.corpora && !TakenByOther(t, id, alias) {
        WithAliasKeepsInv(h, t, id, alias);
      }
    case Reopen(order) => BackfillKeepsInv(h, t, order, 0);
    case Delete(id) => DeleteKeepsInv(h, t, id);
    case _ => RowStepKeepsInv(h, t, op, t', o);
  }

  /** The one state in which the automatic alias collides. */
  ghost predicate Exhausted(t: Tables) {
    MaxSuffix(AliasSet(t.corpora)) == MAX_I64 && WRAPPED in AliasSet(t.corpora)
  }

  lemma UpsertAliases(h: Hasher, t: Tables, raw: string, root: string, profiles: string)
    ensures AliasSet(Upsert(h, t, raw, root, profiles).corpora) == AliasSet(t.corpora)
  {
    var id, u := CorpusIdOf(h, root), Upsert(h, t, raw, root, profiles);
    forall a: string
      ensures a in AliasSet(u.corpora) <==> a in AliasSet(t.corpora)
    {
      if a in AliasSet(t.corpora) {
        var b :| b in t.corpora && t.corpora[b].alias == Some(a);
        assert u.corpora[b].alias == Some(a);
      }
      if a in AliasSet(u.corpora) {
        var b :| b in u.corpora && u.corpora[b].alias == Some(a);
        assert t.corpora[b].alias == Some(a);
      }
    }
  }

  /** Registering reaches the unique index only in the exhausted state, and only for a corpus
      that has no alias yet. */
  lemma RegisterHitsIndexIff(h: Hasher, t: Tables, raw: string, root: string, profiles: string, t': Tables, o: Outcome)
    requires RegistersRoot(h, t, raw, root, profiles, t', o)
    ensures o == AliasTaken <==>
            && NoClash(t, root)
            && (CorpusIdOf(h, root) in t.corpora ==> t.corpora[CorpusIdOf(h, root)].alias.None?)
            && Exhausted(t)
  {
    UpsertAliases(h, t, raw, root, profiles);
    NextAliasIsFresh(AliasSet(t.corpora));
  }

  lemma NonEmptyHasMember(order: seq<Uuid>)
    ensures order != [] ==> exists id :: id in order
  {
    if order != [] {
      assert order[0] in order;
    }
  }

  lemma NothingToBackfill(t: Tables, order: seq<Uuid>)
    requires AllAliased(t) && ListsUnaliased(t, order)
    ensures order == []
  {
    NonEmptyHasMember(order);
  }

  /** The hash tells the requested root from the registered ones. */
  ghost predicate NoCollision(h: Hasher, t: Tables, root: string) {
    CorpusIdOf(h, root) in t.corpora ==> t.corpora[CorpusIdOf(h, root)].root == root
  }

  lemma RegisterKeepsAliased(h: Hasher, t: Tables, raw: string, root: string, profiles: string, t': Tables, o: Outcome)
    requires AllAliased(t) && RegistersRoot(h, t, raw, root, profiles, t', o)
    ensures AllAliased(t') <==> o != AliasTaken
  {
    if NoClash(t, root) {
      assert CorpusIdOf(h, root) in t'.corpora;
    }
  }

  /** Every corpus keeps having an alias, except through that one refusal. */
  lemma StepKeepsAliased(h: Hasher, t: Tables, op: Op, t': Tables, o: Outcome)
    requires AllAliased(t) && Step(h, t, op, t', o)
    ensures AllAliased(t') <==> !(op.Register? && o == AliasTaken)
  {
    match op
    case Register(raw, profiles) =>
      if NormalizePath(raw).Ok? {
        RegisterKeepsAliased(h, t, raw, NormalizePath(raw).value, profiles, t', o);
      }
    case Reopen(order) => NothingToBackfill(t, order);
    case Delete(id) => assert forall b | b in t'.corpora :: t'.corpora[b] == t.corpora[b];
    case SetAlias(_, _) =>
    case AddBinding(_, _) =>
    case AddDocument(_, _) =>
    case RecordPath(_, _, _) =>
    case PutSync(_, _) =>
  }

  // ---------------------------------------------------------------- whole runs

  datatype Event = Event(op: Op, outcome: Outcome)

  /** states[i + 1] results from events[i] on states[i]. */
  ghost predicate Run(h: Hasher, states: seq<Tables>, events: seq<Event>) {
    && |states| == |events| + 1
    && forall i | 0 <= i < |events| :: Step(h, states[i], events[i].op, states[i + 1], events[i].outcome)
  }

  const EMPTY := Tables(map[], map[], map[], map[])

  lemma {:induction false} RunKeepsInv(h: Hasher, states: seq<Tables>, events: seq<Event>, i: nat)
    requires Run(h, states, events) && Inv(h, states[0]) && i <= |events|
    ensures Inv(h, states[i])
  {
    if i > 0 {
      RunKeepsInv(h, states, events, i - 1);
      StepKeepsInv(h, states[i - 1], events[i - 1].op, states[i], events[i - 1].outcome);
    }
  }

  /** Until a user alias drives the numbers to the 64-bit maximum, every corpus has an alias
      after every step. */
  lemma {:induction false} RunKeepsAliased(h: Hasher, states: seq<Tables>, events: seq<Event>, i: nat)
    requires Run(h, states, events) && AllAliased(states[0]) && i <= |events|
    requires forall k | 0 <= k < i :: !Exhausted(states[k])
    ensures AllAliased(states[i])
  {
    if i > 0 {
      RunKeepsAliased(h, states, events, i - 1);
      var op, o := events[i - 1].op, events[i - 1].outcome;
      assert Step(h, states[i - 1], op, states[i], o);
      StepKeepsAliased(h, states[i - 1], op, states[i], o);
      if op.Register? && NormalizePath(op.raw).Ok? {
        RegisterHitsIndexIff(h, states[i - 1], op.raw, NormalizePath(op.raw).value, op.profiles, states[i], o);
      }
    }
  }

  /** In every state reachable from the empty registry a path lies inside at most one root. */
  lemma UniqueOwner(h: Hasher, states: seq<Tables>, events: seq<Event>, i: nat, path: string, a: Uuid, b: Uuid)
    requires Run(h, states, events) && states[0] == EMPTY && i <= |events|
    requires a in states[i].corpora && Inside(path, states[i].corpora[a].root)
    requires b in states[i].corpora && Inside(path, states[i].corpora[b].root)
    ensures a == b
  {
    RunKeepsInv(h, states, events, i);
    SharedPathMeansOverlap(states[i].corpora[a].root, states[i].corpora[b].root);
  }

  lemma RunExtends(h: Hasher, states: seq<Tables>, events: seq<Event>, t: Tables, t': Tables, e: Event)
    requires Run(h, states, events) && states[|events|] == t && Step(h, t, e.op, t', e.outcome)
    ensures Run(h, states + [t'], events + [e])
  {
    var longer, more := states + [t'], events + [e];
    forall i | 0 <= i < |more|
      ensures Step(h, longer[i], more[i].op, longer[i + 1], more[i].outcome)
    {
      var s, u, v := if i < |events| then states[i] else t, if i < |events| then states[i + 1] else t', if i < |events| then events[i] else e;
      assert longer[i] == s && longer[i + 1] == u && more[i] == v;
      assert Step(h, s, v.op, u, v.outcome) <==> true;
    }
  }

  lemma TakesOneMore<T>(xs: seq<T>, ys: seq<T>, m: nat)
    requires 0 < m <= |ys|
    ensures xs + ys[..m] == xs + ys[..m - 1] + [ys[m - 1]]
  {
    assert ys[..m] == ys[..m - 1] + [ys[m - 1]];
  }

  /** A run goes on with a run from its last state. */
  lemma {:induction false} RunGoesOn(h: Hasher, states: seq<Tables>, events: seq<Event>, rest: seq<Tables>, more: seq<Event>, m: nat)
    requires Run(h, states, events) && Run(h, [states[|events|]] + rest, more) && m <= |more| == |rest|
    ensures Run(h, states + rest[..m], events + more[..m])
  {
    if m == 0 {
      assert states + rest[..0] == states && events + more[..0] == events;
    } else {
      var tail := [states[|events|]] + rest;
      RunGoesOn(h, states, events, rest, more, m - 1);
      assert (states + rest[..m - 1])[|events| + m - 1] == tail[m - 1];
      var s, u, e := tail[m - 1], rest[m - 1], more[m - 1];
      assert u == tail[m];
      assert Step(h, s, e.op, u, e.outcome) <==> true;
      RunExtends(h, states + rest[..m - 1], events + more[..m - 1], s, u, e);
      TakesOneMore(states, rest, m);
      TakesOneMore(events, more, m);
    }
  }

  lemma RunOfTwo(h: Hasher, t: Tables, u: Tables, v: Tables, a: Event, b: Event)
    requires Step(h, t, a.op, u, a.outcome) && Step(h, u, b.op, v, b.outcome)
    ensures Run(h, [t, u, v], [a, b])
  {
    RunExtends(h, [t], [], t, u, a);
    RunExtends(h, [t, u], [a], u, v, b);
    assert [t] + [u] == [t, u] && [t, u] + [v] == [t, u, v] && [] + [a] == [a] && [a] + [b] == [a, b];
  }

  lemma RunOfThree(h: Hasher, t: Tables, u: Tables, v: Tables, w: Tables, a: Event, b: Event, c: Event)
    requires Step(h, t, a.op, u, a.outcome) && Step(h, u, b.op, v, b.outcome) && Step(h, v, c.op, w, c.outcome)
    ensures Run(h, [t, u, v, w], [a, b, c])
  {
    RunOfTwo(h, t, u, v, a, b);
    RunExtends(h, [t, u, v], [a, b], v, w, c);
    assert [t, u, v] + [w] == [t, u, v, w] && [a, b] + [c] == [a, b, c];
  }

  /** Runs of two, three and two steps, one after the other. */
  lemma RunOfSeven(h: Hasher, s: seq<Tables>, e: seq<Event>,
                   t0: Tables, t1: Tables, t2: Tables, t3: Tables, t4: Tables, t5: Tables, t6: Tables, t7: Tables,
                   e0: Event, e1: Event, e2: Event, e3: Event, e4: Event, e5: Event, e6: Event)
    requires s == [t0, t1, t2, t3, t4, t5, t6, t7] && e == [e0, e1, e2, e3, e4, e5, e6]
    requires Run(h, [t0, t1, t2], [e0, e1]) && Run(h, [t2, t3, t4, t5], [e2, e3, e4]) && Run(h, [t5, t6, t7], [e5, e6])
    ensures Run(h, s, e) && s[0] == t0 && s[3] == t3 && s[4] == t4 && s[6] == t6 && s[7] == t7 && e[3] == e3 && e[6] == e6
  {
    assert [t2] + [t3, t4, t5] == [t2, t3, t4, t5] && [t5] + [t6, t7] == [t5, t6, t7];
    RunJoins(h, [t0, t1, t2], [e0, e1], [t3, t4, t5], [e2, e3, e4]);
    assert [t0, t1, t2] + [t3, t4, t5] == [t0, t1, t2, t3, t4, t5] && [e0, e1] + [e2, e3, e4] == [e0, e1, e2, e3, e4];
    RunJoins(h, [t0, t1, t2, t3, t4, t5], [e0, e1, e2, e3, e4], [t6, t7], [e5, e6]);
    assert s == [t0, t1, t2, t3, t4, t5] + [t6, t7] && e == [e0, e1, e2, e3, e4] + [e5, e6];
  }

  lemma RunJoins(h: Hasher, states: seq<Tables>, events: seq<Event>, rest: seq<Tables>, more: seq<Event>)
    requires Run(h, states, events) && Run(h, [states[|events|]] + rest, more) && |more| == |rest|
    ensures Run(h, states + rest, events + more)
  {
    RunGoesOn(h, states, events, rest, more, |rest|);
    assert rest[..|rest|] == rest && more[..|rest|] == more;
  }

  // ------------------------------------------------------------ registration

  /** A registration that succeeds leaves the root registered under its id exactly when the
      hash does not confuse it with another registered root; a root known before keeps its
      alias, and nothing else changes. */
  lemma RegisterEffect(h: Hasher, t: Tables, raw: string, root: string, profiles: string, t': Tables)
    requires RegistersRoot(h, t, raw, root, profiles, t', Done)
    ensures var id := CorpusIdOf(h, root);
            && t'.corpora.Keys == t.corpora.Keys + {id}
            && (t'.corpora[id].root == root <==> NoCollision(h, t, root))
            && t'.corpora[id].alias.Some?
            && (id in t.corpora && t.corpora[id].alias.Some? ==> t'.corpora[id].alias == t.corpora[id].alias)
            && (forall b | b in t.corpora && b != id :: t'.corpora[b] == t.corpora[b])
            && t'.bindings == t.bindings && t'.documents == t.documents && t'.syncs == t.syncs
  {
    var id, u := CorpusIdOf(h, root), Upsert(h, t, raw, root, profiles);
    assert t'.corpora.Keys == u.corpora.Keys;
  }

  /** It writes the raw root and the profiles, keeps an alias the corpus had, and otherwise
      gives it the one after the largest number in use. */
  lemma RegisterWrites(h: Hasher, t: Tables, raw: string, root: string, profiles: string, t': Tables)
    requires RegistersRoot(h, t, raw, root, profiles, t', Done)
    ensures var id := CorpusIdOf(h, root);
            && id in t'.corpora && t'.corpora[id].rawRoot == raw && t'.corpora[id].profiles == profiles
            && t'.corpora[id].alias ==
                 if id in t.corpora && t.corpora[id].alias.Some? then t.corpora[id].alias
                 else Some(NextAlias(MaxSuffix(AliasSet(t.corpora))))
  {
    UpsertAliases(h, t, raw, root, profiles);
  }

  /** What a registration answers: an empty path is refused, then an overlap with any other
      root, then a corpus that needs an alias when there is none left. */
  lemma RegisterAnswers(h: Hasher, t: Tables, raw: string, profiles: string, t': Tables, o: Outcome)
    requires Step(h, t, Register(raw, profiles), t', o)
    ensures o == EmptyRoot <==> NormalizePath(raw).Err?
    ensures NormalizePath(raw).Ok? ==>
      var root := NormalizePath(raw).value;
      && (o.Overlap? <==> exists b :: b in t.corpora && t.corpora[b].root != root && RootsOverlap(t.corpora[b].root, root))
      && (o.Overlap? ==> t' == t && o.other in t.corpora && t.corpora[o.other].root != root
                         && RootsOverlap(t.corpora[o.other].root, root))
      && (o == Done || o.Overlap? || o == AliasTaken)
  {
    if NormalizePath(raw).Ok? && !o.Overlap? {
      forall b | b in t.corpora
        ensures t.corpora[b].root == NormalizePath(raw).value || !RootsOverlap(t.corpora[b].root, NormalizePath(raw).value)
      {
        assert !Clashes(t.corpora[b], NormalizePath(raw).value);
      }
    }
  }

  /** So it succeeds exactly if no other root overlaps and an alias is there or not needed. */
  lemma RegisterDoneIff(h: Hasher, t: Tables, raw: string, root: string, profiles: string, t': Tables, o: Outcome)
    requires NormalizePath(raw) == Ok(root) && Step(h, t, Register(raw, profiles), t', o)
    ensures var id := CorpusIdOf(h, root);
      o == Done <==>
      && (forall b | b in t.corpora :: t.corpora[b].root == root || !RootsOverlap(t.corpora[b].root, root))
      && ((id in t.corpora && t.corpora[id].alias.Some?) || !Exhausted(t))
  {
    RegisterAnswers(h, t, raw, profiles, t', o);
    RegisterHitsIndexIff(h, t, raw, root, profiles, t', o);
  }

  /** A root that is registered under an alias can be registered again at any time: nothing
      but the raw root and the profiles of its row change. */
  lemma RegisteredIsDone(h: Hasher, t: Tables, raw: string, root: string, profiles: string, t': Tables, o: Outcome)
    requires Inv(h, t) && NormalizePath(raw) == Ok(root) && Step(h, t, Register(raw, profiles), t', o)
    requires CorpusIdOf(h, root) in t.corpora && t.corpora[CorpusIdOf(h, root)].root == root
    requires t.corpora[CorpusIdOf(h, root)].alias.Some?
    ensures var id := CorpusIdOf(h, root);
      o == Done && t' == t.(corpora := t.corpora[id := t.corpora[id].(rawRoot := raw, profiles := profiles)])
  {
    var id := CorpusIdOf(h, root);
    forall b | b in t.corpora
      ensures t.corpora[b].root == root || !RootsOverlap(t.corpora[b].root, root)
    {
      assert b == id || !RootsOverlap(t.corpora[b].root, t.corpora[id].root);
    }
    RegisterDoneIff(h, t, raw, root, profiles, t', o);
  }

  /** Registering a root a second time succeeds whenever the first time did, keeps its alias
      and every other row, and refreshes the raw root and the profiles. */
  lemma RegisterAgain(h: Hasher, t: Tables, raw: string, root: string, profiles: string, t': Tables,
                      raw': string, profiles': string, t'': Tables, o: Outcome)
    requires Inv(h, t) && NoCollision(h, t, root) && NormalizePath(raw) == Ok(root) == NormalizePath(raw')
    requires Step(h, t, Register(raw, profiles), t', Done) && Step(h, t', Register(raw', profiles'), t'', o)
    ensures var id := CorpusIdOf(h, root);
      && o == Done && id in t'.corpora
      && t'' == t'.(corpora := t'.corpora[id := t'.corpora[id].(rawRoot := raw', profiles := profiles')])
  {
    RegisterKeepsInv(h, t, raw, profiles, t', Done);
    RegisterEffect(h, t, raw, root, profiles, t');
    RegisteredIsDone(h, t', raw', root, profiles', t'', o);
  }

  lemma RestrictWithoutRefs(t: Tables, id: Uuid)
    requires RefsResolve(t) && id !in t.corpora
    ensures var d := DeleteStep(t, id);
            d.bindings == t.bindings && d.documents == t.documents && d.syncs == t.syncs
  {
  }

  /** Deleting a freshly registered corpus undoes the registration. */
  lemma DeleteUndoesRegister(h: Hasher, t: Tables, raw: string, root: string, profiles: string, t': Tables)
    requires RefsResolve(t) && RegistersRoot(h, t, raw, root, profiles, t', Done)
    requires CorpusIdOf(h, root) !in t.corpora
    ensures DeleteStep(t', CorpusIdOf(h, root)) == t
  {
    RegisterEffect(h, t, raw, root, profiles, t');
    var id := CorpusIdOf(h, root);
    RestrictWithoutRefs(t, id);
    DeleteIgnoresOwnRow(t, t', id);
  }

  lemma DeleteIgnoresOwnRow(t: Tables, t': Tables, id: Uuid)
    requires RefsResolve(t) && id !in t.corpora
    requires t'.corpora.Keys == t.corpora.Keys + {id} && forall b | b in t.corpora :: t'.corpora[b] == t.corpora[b]
    requires t'.bindings == t.bindings && t'.documents == t.documents && t'.syncs == t.syncs
    ensures DeleteStep(t', id) == t
  {
    RestrictWithoutRefs(t, id);
    assert DeleteStep(t', id).corpora == t.corpora;
    assert DeleteStep(t', id) == DeleteStep(t, id).(corpora := t.corpora);
  }

  /** Deletion leaves no row of any table that refers to the corpus. */
  lemma DeleteRemovesAll(t: Tables, id: Uuid)
    ensures var d := DeleteStep(t, id);
            && d.corpora.Keys == t.corpora.Keys - {id} && id !in d.syncs
            && (forall k | k in d.bindings :: k.corpus != id)
            && (forall k | k in d.documents :: k.corpus != id)
  {
    assert DeleteStep(t, id).corpora.Keys == t.corpora.Keys - {id};
  }

  /** Deletion keeps every other row as it was. */
  lemma DeleteKeepsOthers(t: Tables, id: Uuid)
    ensures var d := DeleteStep(t, id);
            && (forall a | a in t.corpora && a != id :: a in d.corpora && d.corpora[a] == t.corpora[a])
            && (forall a | a in t.syncs && a != id :: a in d.syncs && d.syncs[a] == t.syncs[a])
            && (forall k | k in t.bindings && k.corpus != id :: k in d.bindings && d.bindings[k] == t.bindings[k])
            && (forall k | k in t.documents && k.corpus != id :: k in d.documents && d.documents[k] == t.documents[k])
  {
  }

  // ---------------------------------------------------------------- backfill

  lemma WithAliasSet(t: Tables, id: Uuid, alias: string)
    requires id in t.corpora && t.corpora[id].alias.None?
    ensures AliasSet(WithAlias(t, id, alias).corpora) == AliasSet(t.corpora) + {alias}
  {
    var u := WithAlias(t, id, alias);
    forall a: string
      ensures a in AliasSet(u.corpora) <==> a in AliasSet(t.corpora) + {alias}
    {
      if a in AliasSet(t.corpora) {
        var b :| b in t.corpora && t.corpora[b].alias == Some(a);
        assert u.corpora[b].alias == Some(a);
      }
      assert u.corpora[id].alias == Some(alias);
      if a in AliasSet(u.corpora) {
        var b :| b in u.corpora && u.corpora[b].alias == Some(a);
        assert b == id || t.corpora[b].alias == Some(a);
      }
    }
  }

  ghost function Largest(t: Tables): (m: nat)
    ensures m <= MAX_I64
  {
    MaxSuffix(AliasSet(t.corpora))
  }

  ghost function Places(t: Tables): nat { Room(AliasSet(t.corpora)) }

  lemma WithAliasRenames(t: Tables, id: Uuid, alias: string)
    requires id in t.corpora
    ensures Renamed(t, id, alias, WithAlias(t, id, alias))
  {
  }

  /** One backfilled row, while there is a place for it. */
  lemma BackfillOne(t: Tables, id: Uuid) returns (u: Tables)
    requires id in t.corpora && t.corpora[id].alias.None? && Places(t) > 0
    ensures GiveAlias(t, id) == (u, Done) && Renamed(t, id, NextAlias(Largest(t)), u)
    ensures Places(u) == Places(t) - 1 && Largest(u) == if Largest(t) < MAX_I64 then Largest(t) + 1 else Largest(t)
  {
    var name := NextAlias(Largest(t));
    u := WithAlias(t, id, name);
    WithAliasRenames(t, id, name);
    TakingUsesRoom(AliasSet(t.corpora));
    WithAliasSet(t, id, name);
  }

  /** id is not among ids[i..e]. */
  predicate Spared(ids: seq<Uuid>, i: nat, e: nat, id: Uuid)
    requires e <= |ids|
  {
    forall k {:trigger ids[k]} | i <= k < e :: ids[k] != id
  }

  /** r is t with the corpora ids[i..e] given consecutive aliases, that of ids[0] being the
      one after number m. */
  predicate Named(t: Tables, ids: seq<Uuid>, i: nat, e: nat, m: nat, r: Tables)
    requires Known(t, ids) && e <= |ids| && m + e <= MAX_I64 + 1
  {
    && r.corpora.Keys == t.corpora.Keys
    && (forall k {:trigger ids[k]} | i <= k < e :: r.corpora[ids[k]] == t.corpora[ids[k]].(alias := Some(NextAlias(m + k))))
    && (forall id | id in t.corpora && Spared(ids, i, e, id) :: r.corpora[id] == t.corpora[id])
    && r.bindings == t.bindings && r.documents == t.documents && r.syncs == t.syncs
  }

  /** Distinct corpora, those from ids[i] on without alias. */
  predicate Pending(t: Tables, ids: seq<Uuid>, i: nat) {
    && Known(t, ids)
    && (forall j, k | 0 <= j < k < |ids| :: ids[j] != ids[k])
    && forall k {:trigger ids[k]} | i <= k < |ids| :: t.corpora[ids[k]].alias.None?
  }

  /** u is t with one alias written. */
  predicate Renamed(t: Tables, id: Uuid, name: string, u: Tables) {
    && id in t.corpora && u.corpora.Keys == t.corpora.Keys
    && u.corpora[id] == t.corpora[id].(alias := Some(name))
    && (forall b {:trigger u.corpora[b]} | b in t.corpora && b != id :: u.corpora[b] == t.corpora[b])
    && u.bindings == t.bindings && u.documents == t.documents && u.syncs == t.syncs
  }

  lemma NamedStep(t: Tables, u: Tables, ids: seq<Uuid>, i: nat, e: nat, m: nat, r: Tables)
    requires i < e <= |ids| && m + e <= MAX_I64 + 1 && Pending(t, ids, i)
    requires Renamed(t, ids[i], NextAlias(m + i), u) && Known(u, ids) && Named(u, ids, i + 1, e, m, r)
    ensures Named(t, ids, i, e, m, r)
  {
    forall k {:trigger ids[k]} | i <= k < e
      ensures r.corpora[ids[k]] == t.corpora[ids[k]].(alias := Some(NextAlias(m + k)))
    {
      if k == i {
        assert Spared(ids, i + 1, e, ids[i]);
      }
    }
    forall id | id in t.corpora && Spared(ids, i, e, id)
      ensures r.corpora[id] == t.corpora[id]
    {
      assert ids[i] != id && Spared(ids, i + 1, e, id);
    }
  }

  /** The backfill from ids[i] on has places for the rows up to ids[e] and no further, and
      its numbers go on from m. */
  ghost predicate Reaches(t: Tables, ids: seq<Uuid>, i: nat, e: nat, m: nat) {
    && i <= e <= |ids| && Pending(t, ids, i) && m + e <= MAX_I64 + 1
    && e - i <= Places(t) && (e == |ids| || e - i == Places(t))
    && (i < e ==> Largest(t) == m + i)
  }

  lemma ReachesNext(t: Tables, u: Tables, ids: seq<Uuid>, i: nat, e: nat, m: nat)
    requires Reaches(t, ids, i, e, m) && i < e && Pending(u, ids, i + 1)
    requires Places(u) == Places(t) - 1 && Largest(u) == if Largest(t) < MAX_I64 then Largest(t) + 1 else Largest(t)
    ensures Reaches(u, ids, i + 1, e, m)
  {
  }

  lemma BackfillFirst(t: Tables, ids: seq<Uuid>, i: nat, e: nat, m: nat) returns (u: Tables)
    requires Reaches(t, ids, i, e, m) && i < e
    ensures Renamed(t, ids[i], NextAlias(m + i), u) && Reaches(u, ids, i + 1, e, m)
    ensures BackfillFrom(t, ids, i) == BackfillFrom(u, ids, i + 1)
  {
    u := BackfillOne(t, ids[i]);
    ReachesNext(t, u, ids, i, e, m);
  }

  /** What a backfill from ids[i] on comes to when it reaches ids[e]. */
  ghost predicate BackfillIs(t: Tables, ids: seq<Uuid>, i: nat, e: nat, m: nat, r: Tables)
    requires i <= e <= |ids| && m + e <= MAX_I64 + 1 && Known(t, ids)
  {
    BackfillFrom(t, ids, i) == (r, if e == |ids| then Done else AliasTaken) && Named(t, ids, i, e, m, r)
  }

  lemma BackfillEnds(t: Tables, ids: seq<Uuid>, e: nat, m: nat)
    requires Reaches(t, ids, e, e, m)
    ensures BackfillIs(t, ids, e, e, m, t)
  {
    if e < |ids| {
    }
  }

  lemma BackfillStep(t: Tables, u: Tables, ids: seq<Uuid>, i: nat, e: nat, m: nat, r: Tables)
    requires i < e && Known(t, ids) && Reaches(t, ids, i, e, m) && Reaches(u, ids, i + 1, e, m)
    requires Renamed(t, ids[i], NextAlias(m + i), u) && BackfillFrom(t, ids, i) == BackfillFrom(u, ids, i + 1)
    requires BackfillIs(u, ids, i + 1, e, m, r)
    ensures BackfillIs(t, ids, i, e, m, r)
  {
    NamedStep(t, u, ids, i, e, m, r);
  }

  /** The backfill numbers its rows consecutively after the largest number in use as far as
      there are places, touches nothing else, and is refused exactly when a row is left. */
  lemma {:induction false} BackfillNumbers(t: Tables, ids: seq<Uuid>, i: nat, e: nat, m: nat) returns (r: Tables)
    requires Reaches(t, ids, i, e, m)
    ensures BackfillIs(t, ids, i, e, m, r)
    decreases e - i
  {
    if i == e {
      BackfillEnds(t, ids, e, m);
      r := t;
    } else {
      var u := BackfillFirst(t, ids, i, e, m);
      r := BackfillNumbers(u, ids, i + 1, e, m);
      BackfillStep(t, u, ids, i, e, m, r);
    }
  }

  function Min(a: nat, b: nat): nat { if a < b then a else b }

  /** Opening a registry: as many rows as there are places get the next numbers, in order;
      the call succeeds exactly when that is all of them. */
  lemma ReopenNumbers(h: Hasher, t: Tables, order: seq<Uuid>, t': Tables, o: Outcome)
    requires Step(h, t, Reopen(order), t', o)
    ensures var e := Min(|order|, Places(t));
      && Largest(t) + e <= MAX_I64 + 1
      && Named(t, order, 0, e, Largest(t), t')
      && o == if |order| <= Places(t) then Done else AliasTaken
  {
    assert forall id | id in order :: id in t.corpora && t.corpora[id].alias.None?;
    var e := Min(|order|, Places(t));
    var r := BackfillNumbers(t, order, 0, e, Largest(t));
  }

  /** Opening succeeds exactly when the rows without alias fit below 2^63, or just overrun it
      by the one wrapped alias while that is free. */
  lemma ReopenDoneIff(h: Hasher, t: Tables, order: seq<Uuid>, t': Tables, o: Outcome)
    requires Step(h, t, Reopen(order), t', o)
    ensures o == Done <==>
            || MaxSuffix(AliasSet(t.corpora)) + |order| <= MAX_I64
            || (MaxSuffix(AliasSet(t.corpora)) + |order| == MAX_I64 + 1 && WRAPPED !in AliasSet(t.corpora))
    ensures o != Done ==> o == AliasTaken
  {
    ReopenNumbers(h, t, order, t', o);
  }

  /** A refused opening leaves the tables as they were exactly in the exhausted state. */
  lemma RefusedReopenChangesNothingIff(h: Hasher, t: Tables, order: seq<Uuid>, t': Tables, o: Outcome)
    requires Step(h, t, Reopen(order), t', o) && o != Done
    ensures t' == t <==> Exhausted(t)
  {
    ReopenNumbers(h, t, order, t', o);
    if Places(t) == 0 {
      forall id | id in t.corpora
        ensures t'.corpora[id] == t.corpora[id]
      {
        assert Spared(order, 0, 0, id);
      }
      assert t'.corpora == t.corpora;
    } else {
      assert order[0] in order;
    }
  }

  /** Every corpus has an alias after opening exactly if opening succeeded, and then opening
      once more changes nothing. */
  lemma ReopenSettles(h: Hasher, t: Tables, order: seq<Uuid>, t': Tables, o: Outcome)
    requires Step(h, t, Reopen(order), t', o)
    ensures AllAliased(t') <==> o == Done
    ensures o == Done ==>
      forall order': seq<Uuid>, t'': Tables, o': Outcome | Step(h, t', Reopen(order'), t'', o') :: t'' == t' && o' == Done
  {
    ReopenNumbers(h, t, order, t', o);
    if o == Done {
      forall id | id in t'.corpora
        ensures t'.corpora[id].alias.Some?
      {
        if id in order {
          var i :| 0 <= i < |order| && order[i] == id;
        }
      }
      forall order': seq<Uuid>, t'': Tables, o': Outcome | Step(h, t', Reopen(order'), t'', o')
        ensures t'' == t' && o' == Done
      {
        NothingToBackfill(t', order');
      }
    } else {
      RefusedRowStaysUnaliased(h, t, order, t', o);
    }
  }

  lemma RefusedRowStaysUnaliased(h: Hasher, t: Tables, order: seq<Uuid>, t': Tables, o: Outcome)
    requires Step(h, t, Reopen(order), t', o) && o != Done
    ensures Places(t) < |order| && order[Places(t)] in t'.corpora && t'.corpora[order[Places(t)]].alias.None?
  {
    ReopenNumbers(h, t, order, t', o);
    var e := Places(t);
    assert order[e] in order;
    assert Spared(order, 0, e, order[e]);
  }

  // ---------------------------------------------------------------- refused steps

  /** The refused steps that leave something behind, told from the state before: a
      registration that the alias index will refuse and whose row is new or different, and
      an opening that can number at least one row. */
  ghost predicate LeavesTrace(h: Hasher, t: Tables, op: Op) {
    match op
    case Register(raw, profiles) =>
      NormalizePath(raw).Ok? && RegistrationLeavesTrace(h, t, raw, NormalizePath(raw).value, profiles)
    case Reopen(_) => !Exhausted(t)
    case _ => false
  }

  ghost predicate RegistrationLeavesTrace(h: Hasher, t: Tables, raw: string, root: string, profiles: string) {
    var id := CorpusIdOf(h, root);
    && NoClash(t, root) && Exhausted(t)
    && (id in t.corpora ==> t.corpora[id].alias.None? && !(t.corpora[id].rawRoot == raw && t.corpora[id].profiles == profiles))
  }

  lemma RefusedRegistrationChangesIff(h: Hasher, t: Tables, raw: string, root: string, profiles: string, t': Tables, o: Outcome)
    requires RegistersRoot(h, t, raw, root, profiles, t', o) && o != Done
    ensures t' != t <==> RegistrationLeavesTrace(h, t, raw, root, profiles)
  {
    RegisterHitsIndexIff(h, t, raw, root, profiles, t', o);
  }

  /** A refused operation changes the tables exactly if the state before says it leaves a
      trace; no other one does. */
  lemma FailureChangesNothingIff(h: Hasher, t: Tables, op: Op, t': Tables, o: Outcome)
    requires Step(h, t, op, t', o) && o != Done
    ensures t' != t <==> LeavesTrace(h, t, op)
  {
    match op
    case Register(raw, profiles) =>
      if NormalizePath(raw).Ok? {
        RefusedRegistrationChangesIff(h, t, raw, NormalizePath(raw).value, profiles, t', o);
      }
    case Reopen(order) => RefusedReopenChangesNothingIff(h, t, order, t', o);
    case _ =>
  }

  // ---------------------------------------------------------------- a run into both refusals

  const TOP := NextAlias(MAX_I64 - 1)

  /** Before the wrapped alias there is one place left, after it there is none. */
  lemma OnePlaceLeft()
    ensures Room({TOP}) == 1 && MaxSuffix({TOP}) == MAX_I64 && MaxSuffix({TOP, WRAPPED}) == MAX_I64
    ensures WRAPPED !in {TOP} && NextAlias(MAX_I64) == WRAPPED
  {
    NextAliasNumbered(MAX_I64 - 1);
    WrappedNotNumbered();
    assert TOP in {TOP} && TOP in {TOP, WRAPPED};
  }

  /** The tables with one more corpus. */
  function With(h: Hasher, t: Tables, raw: string, root: string, alias: Option<string>): Tables {
    var id := CorpusIdOf(h, root);
    t.(corpora := t.corpora[id := Corpus(root, raw, Label(id), "[]", alias)])
  }

  /** The root is new and overlaps no registered one. */
  predicate Aside(h: Hasher, t: Tables, root: string) {
    CorpusIdOf(h, root) !in t.corpora && forall id | id in t.corpora :: !RootsOverlap(t.corpora[id].root, root)
  }

  /** Roots that do not overlap and that the hash tells apart. */
  predicate Apart(h: Hasher, a: string, b: string) {
    !RootsOverlap(a, b) && CorpusIdOf(h, a) != CorpusIdOf(h, b)
  }

  lemma StaysAside(h: Hasher, t: Tables, raw: string, root: string, alias: Option<string>, other: string)
    requires Aside(h, t, other) && Apart(h, root, other)
    ensures Aside(h, With(h, t, raw, root, alias), other)
  {
  }

  function OwnAlias(alias: Option<string>): set<string> { if alias.Some? then {alias.value} else {} }

  lemma WithAliases(h: Hasher, t: Tables, raw: string, root: string, alias: Option<string>)
    requires CorpusIdOf(h, root) !in t.corpora
    ensures AliasSet(With(h, t, raw, root, alias).corpora) == AliasSet(t.corpora) + OwnAlias(alias)
  {
    var id, u := CorpusIdOf(h, root), With(h, t, raw, root, alias);
    forall a: string
      ensures a in AliasSet(u.corpora) <==> a in AliasSet(t.corpora) + OwnAlias(alias)
    {
      if a in AliasSet(t.corpora) {
        var b :| b in t.corpora && t.corpora[b].alias == Some(a);
        assert u.corpora[b].alias == Some(a);
      }
      assert u.corpora[id].alias == alias;
    }
  }

  lemma UpsertNew(h: Hasher, t: Tables, raw: string, root: string, alias: string)
    requires Aside(h, t, root)
    ensures NoClash(t, root) && Upsert(h, t, raw, root, "[]") == With(h, t, raw, root, None)
    ensures WithAlias(With(h, t, raw, root, None), CorpusIdOf(h, root), alias) == With(h, t, raw, root, Some(alias))
  {
  }

  /** A new root gets the next alias, or in the exhausted state a row without one. */
  lemma RegisterNew(h: Hasher, t: Tables, raw: string, root: string)
    requires NormalizePath(raw) == Ok(root) && Aside(h, t, root)
    ensures if Exhausted(t) then Step(h, t, Register(raw, "[]"), With(h, t, raw, root, None), AliasTaken)
            else Step(h, t, Register(raw, "[]"), With(h, t, raw, root, Some(NextAlias(Largest(t)))), Done)
  {
    var u := With(h, t, raw, root, None);
    UpsertNew(h, t, raw, root, NextAlias(Largest(t)));
    WithAliases(h, t, raw, root, None);
    assert AliasSet(u.corpora) == AliasSet(t.corpora);
    NextAliasIsFresh(AliasSet(t.corpora));
  }

  function OneCorpus(h: Hasher, raw: string, root: string, alias: string): Tables {
    With(h, EMPTY, raw, root, Some(alias))
  }

  /** Registering a corpus and renaming it to the last number. */
  lemma ReachesTop(h: Hasher, raw: string, root: string) returns (t1: Tables, t2: Tables, a: Event, b: Event)
    requires NormalizePath(raw) == Ok(root)
    ensures a == Event(Register(raw, "[]"), Done) && b == Event(SetAlias(CorpusIdOf(h, root), TOP), Done)
    ensures Run(h, [EMPTY, t1, t2], [a, b])
    ensures t2 == OneCorpus(h, raw, root, TOP) && AliasSet(t2.corpora) == {TOP}
  {
    var first := NextAlias(Largest(EMPTY));
    t1, t2 := OneCorpus(h, raw, root, first), OneCorpus(h, raw, root, TOP);
    a, b := Event(Register(raw, "[]"), Done), Event(SetAlias(CorpusIdOf(h, root), TOP), Done);
    assert AliasSet(EMPTY.corpora) == {};
    RegisterNew(h, EMPTY, raw, root);
    Renames(h, raw, root, first, TOP);
    WithAliases(h, EMPTY, raw, root, Some(TOP));
    RunOfTwo(h, EMPTY, t1, t2, a, b);
  }

  lemma Renames(h: Hasher, raw: string, root: string, first: string, alias: string)
    ensures Step(h, OneCorpus(h, raw, root, first), SetAlias(CorpusIdOf(h, root), alias), OneCorpus(h, raw, root, alias), Done)
  {
    var id := CorpusIdOf(h, root);
    assert OneCorpus(h, raw, root, alias) == WithAlias(OneCorpus(h, raw, root, first), id, alias);
  }

  /** One corpus on from the last number comes the wrapped alias, and then nothing. */
  lemma Wraps(h: Hasher, t: Tables, raw: string, root: string)
    requires NormalizePath(raw) == Ok(root) && Aside(h, t, root) && AliasSet(t.corpora) == {TOP}
    ensures Step(h, t, Register(raw, "[]"), With(h, t, raw, root, Some(WRAPPED)), Done)
    ensures Exhausted(With(h, t, raw, root, Some(WRAPPED)))
  {
    OnePlaceLeft();
    assert !Exhausted(t);
    RegisterNew(h, t, raw, root);
    ThenExhausted(h, t, raw, root);
  }

  lemma ThenExhausted(h: Hasher, t: Tables, raw: string, root: string)
    requires CorpusIdOf(h, root) !in t.corpora && AliasSet(t.corpora) == {TOP}
    ensures Exhausted(With(h, t, raw, root, Some(WRAPPED)))
  {
    WithAliases(h, t, raw, root, Some(WRAPPED));
    assert AliasSet(With(h, t, raw, root, Some(WRAPPED)).corpora) == {TOP, WRAPPED};
    OnePlaceLeft();
  }

  lemma StaysExhausted(h: Hasher, t: Tables, raw: string, root: string)
    requires NormalizePath(raw) == Ok(root) && Aside(h, t, root) && Exhausted(t)
    ensures Step(h, t, Register(raw, "[]"), With(h, t, raw, root, None), AliasTaken)
    ensures Exhausted(With(h, t, raw, root, None)) && With(h, t, raw, root, None) != t
  {
    RegisterNew(h, t, raw, root);
    WithAliases(h, t, raw, root, None);
    assert AliasSet(With(h, t, raw, root, None).corpora) == AliasSet(t.corpora);
  }

  /** Deleting the second of four corpora leaves the other three. */
  lemma DeletesSecond(h: Hasher, t: Tables, rawB: string, rootB: string, rawC: string, rootC: string, rawD: string, rootD: string)
    requires RefsResolve(t) && Aside(h, t, rootB) && Apart(h, rootB, rootC) && Apart(h, rootB, rootD)
    ensures var full := With(h, With(h, With(h, t, rawB, rootB, Some(WRAPPED)), rawC, rootC, None), rawD, rootD, None);
      DeleteStep(full, CorpusIdOf(h, rootB)) == With(h, With(h, t, rawC, rootC, None), rawD, rootD, None)
  {
    var full := With(h, With(h, With(h, t, rawB, rootB, Some(WRAPPED)), rawC, rootC, None), rawD, rootD, None);
    var left := With(h, With(h, t, rawC, rootC, None), rawD, rootD, None);
    assert DeleteStep(full, CorpusIdOf(h, rootB)).corpora == left.corpora;
    RestrictWithoutRefs(t, CorpusIdOf(h, rootB));
  }

  /** Two corpora without alias beside one at the last number: one place for two rows. */
  lemma TwoWithoutAlias(h: Hasher, t: Tables, rawC: string, rootC: string, rawD: string, rootD: string)
    requires AllAliased(t) && AliasSet(t.corpora) == {TOP}
    requires Aside(h, t, rootC) && Aside(h, t, rootD) && Apart(h, rootC, rootD)
    ensures var u, ids := With(h, With(h, t, rawC, rootC, None), rawD, rootD, None), [CorpusIdOf(h, rootC), CorpusIdOf(h, rootD)];
      Places(u) == 1 && ListsUnaliased(u, ids) && Known(u, ids)
  {
    WithAliases(h, t, rawC, rootC, None);
    WithAliases(h, With(h, t, rawC, rootC, None), rawD, rootD, None);
    assert AliasSet(With(h, With(h, t, rawC, rootC, None), rawD, rootD, None).corpora) == {TOP};
    OnePlaceLeft();
    ListsTheTwo(h, t, rawC, rootC, rawD, rootD);
  }

  lemma ListsTheTwo(h: Hasher, t: Tables, rawC: string, rootC: string, rawD: string, rootD: string)
    requires AllAliased(t) && Aside(h, t, rootC) && Aside(h, t, rootD) && Apart(h, rootC, rootD)
    ensures var u, ids := With(h, With(h, t, rawC, rootC, None), rawD, rootD, None), [CorpusIdOf(h, rootC), CorpusIdOf(h, rootD)];
      ListsUnaliased(u, ids) && Known(u, ids)
  {
  }

  /** A registry with one corpus, at the last number. */
  ghost predicate AtTop(h: Hasher, t: Tables, b: string, c: string, d: string) {
    RefsResolve(t) && AllAliased(t) && AliasSet(t.corpora) == {TOP} && Aside(h, t, b) && Aside(h, t, c) && Aside(h, t, d)
  }

  lemma OneCorpusAtTop(h: Hasher, raw: string, a: string, b: string, c: string, d: string)
    requires Apart(h, a, b) && Apart(h, a, c) && Apart(h, a, d) && AliasSet(OneCorpus(h, raw, a, TOP).corpora) == {TOP}
    ensures AtTop(h, OneCorpus(h, raw, a, TOP), b, c, d)
  {
  }

  /** Three more registrations, the last two refused. */
  lemma Overruns(h: Hasher, t: Tables, rawB: string, b: string, rawC: string, c: string, rawD: string, d: string)
    returns (t3: Tables, t4: Tables, t5: Tables, e: Event, f: Event, g: Event)
    requires NormalizePath(rawB) == Ok(b) && NormalizePath(rawC) == Ok(c) && NormalizePath(rawD) == Ok(d)
    requires AtTop(h, t, b, c, d) && Apart(h, b, c) && Apart(h, b, d) && Apart(h, c, d)
    ensures e == Event(Register(rawB, "[]"), Done) && f == Event(Register(rawC, "[]"), AliasTaken) && t4 != t3
    ensures g == Event(Register(rawD, "[]"), AliasTaken) && Run(h, [t, t3, t4, t5], [e, f, g])
    ensures DeleteStep(t5, CorpusIdOf(h, b)) == With(h, With(h, t, rawC, c, None), rawD, d, None)
  {
    t3 := With(h, t, rawB, b, Some(WRAPPED));
    t4 := With(h, t3, rawC, c, None);
    t5 := With(h, t4, rawD, d, None);
    Wraps(h, t, rawB, b);
    StaysAside(h, t, rawB, b, Some(WRAPPED), c);
    StaysExhausted(h, t3, rawC, c);
    StaysAside(h, t, rawB, b, Some(WRAPPED), d);
    StaysAside(h, t3, rawC, c, None, d);
    StaysExhausted(h, t4, rawD, d);
    DeletesSecond(h, t, rawB, b, rawC, c, rawD, d);
    e, f := Event(Register(rawB, "[]"), Done), Event(Register(rawC, "[]"), AliasTaken);
    g := Event(Register(rawD, "[]"), AliasTaken);
    RunOfThree(h, t, t3, t4, t5, e, f, g);
  }

  /** The first of them is deleted, and the opening that follows is refused. */
  lemma OpensAndFails(h: Hasher, t: Tables, t5: Tables, b: string, rawC: string, c: string, rawD: string, d: string)
    returns (t6: Tables, t7: Tables, e: Event, f: Event)
    requires AtTop(h, t, b, c, d) && Apart(h, c, d)
    requires DeleteStep(t5, CorpusIdOf(h, b)) == With(h, With(h, t, rawC, c, None), rawD, d, None)
    ensures e == Event(Delete(CorpusIdOf(h, b)), Done) && t7 != t6
    ensures f == Event(Reopen([CorpusIdOf(h, c), CorpusIdOf(h, d)]), AliasTaken) && Run(h, [t5, t6, t7], [e, f])
  {
    t6 := DeleteStep(t5, CorpusIdOf(h, b));
    TwoWithoutAlias(h, t, rawC, c, rawD, d);
    t7 := RefusedReopen(h, t6, [CorpusIdOf(h, c), CorpusIdOf(h, d)]);
    e, f := Event(Delete(CorpusIdOf(h, b)), Done), Event(Reopen([CorpusIdOf(h, c), CorpusIdOf(h, d)]), AliasTaken);
    RunOfTwo(h, t5, t6, t7, e, f);
  }

  /** From the empty registry any four roots apart lead into both refusals that change the
      tables: the registration of the third and, once the second is gone, an opening. */
  lemma RefusalsAreReached(h: Hasher, rawA: string, a: string, rawB: string, b: string, rawC: string, c: string, rawD: string, d: string)
    returns (states: seq<Tables>, events: seq<Event>)
    requires NormalizePath(rawA) == Ok(a) && NormalizePath(rawB) == Ok(b)
    requires NormalizePath(rawC) == Ok(c) && NormalizePath(rawD) == Ok(d)
    requires Apart(h, a, b) && Apart(h, a, c) && Apart(h, a, d) && Apart(h, b, c) && Apart(h, b, d) && Apart(h, c, d)
    ensures Run(h, states, events) && states[0] == EMPTY && |events| == 7
    ensures events[3] == Event(Register(rawC, "[]"), AliasTaken) && states[4] != states[3]
    ensures events[6] == Event(Reopen([CorpusIdOf(h, c), CorpusIdOf(h, d)]), AliasTaken) && states[7] != states[6]
  {
    var t1, t2, e0, e1 := ReachesTop(h, rawA, a);
    OneCorpusAtTop(h, rawA, a, b, c, d);
    var t3, t4, t5, e2, e3, e4 := Overruns(h, t2, rawB, b, rawC, c, rawD, d);
    assert e3 == Event(Register(rawC, "[]"), AliasTaken);
    var t6, t7, e5, e6 := OpensAndFails(h, t2, t5, b, rawC, c, rawD, d);
    states := [EMPTY, t1, t2, t3, t4, t5, t6, t7];
    events := [e0, e1, e2, e3, e4, e5, e6];
    RunOfSeven(h, states, events, EMPTY, t1, t2, t3, t4, t5, t6, t7, e0, e1, e2, e3, e4, e5, e6);
  }

  /** With fewer places than rows, but some, an opening is refused and changes the tables. */
  lemma RefusedReopen(h: Hasher, t: Tables, order: seq<Uuid>) returns (t': Tables)
    requires ListsUnaliased(t, order) && Known(t, order) && 0 < Places(t) < |order|
    ensures Step(h, t, Reopen(order), t', AliasTaken) && t' != t
  {
    var r := BackfillFrom(t, order, 0);
    t' := r.0;
    ReopenNumbers(h, t, order, t', r.1);
    RefusedReopenChangesNothingIff(h, t, order, t', r.1);
  }

  // ---------------------------------------------------------------- aliases and bindings found again

  /** What a lookup by alias may answer. */
  ghost predicate AliasAnswer(t: Tables, alias: string, found: Option<Uuid>) {
    match found
    case None => alias !in AliasSet(t.corpora)
    case Some(id) => id in t.corpora && t.corpora[id].alias == Some(alias)
  }

  /** After an alias has been set, looking it up gives that corpus and no other. */
  lemma AliasIsFound(h: Hasher, t: Tables, id: Uuid, alias: string, found: Option<Uuid>)
    requires Inv(h, t) && SetAliasStep(t, id, alias).1 == Done
    ensures AliasAnswer(SetAliasStep(t, id, alias).0, alias, found) <==> found == Some(id)
  {
    var u := WithAlias(t, id, alias);
    assert u.corpora[id].alias == Some(alias);
  }

  /** What a lookup of a binding's owner may answer: none and `several` tell its two errors apart. */
  ghost predicate OwnerAnswer(t: Tables, kind: BindingKind, binding: string, owner: Option<Uuid>, several: bool) {
    match owner
    case Some(id) => !several && forall b: Uuid :: BindingKey(b, kind, binding) in t.bindings <==> b == id
    case None =>
      if several
      then exists a: Uuid, b: Uuid :: a != b && BindingKey(a, kind, binding) in t.bindings && BindingKey(b, kind, binding) in t.bindings
      else forall b: Uuid :: BindingKey(b, kind, binding) !in t.bindings
  }

  /** After a binding has been added its owner is found, unless exactly when another corpus
      had the same binding. */
  lemma BoundCorpusIsFound(t: Tables, key: BindingKey, metadata: string)
    requires AddBindingStep(t, key, metadata).1 == Done
    ensures var u := AddBindingStep(t, key, metadata).0;
      OwnerAnswer(u, key.kind, key.binding, Some(key.corpus), false) <==>
      forall b: Uuid :: BindingKey(b, key.kind, key.binding) in t.bindings ==> b == key.corpus
    ensures var u := AddBindingStep(t, key, metadata).0;
      forall owner, several | OwnerAnswer(u, key.kind, key.binding, owner, several) ::
        owner == Some(key.corpus) || (owner.None? && several)
  {
    var u := AddBindingStep(t, key, metadata).0;
    assert key == BindingKey(key.corpus, key.kind, key.binding);
    assert forall b: Uuid :: BindingKey(b, key.kind, key.binding) in u.bindings <==>
      b == key.corpus || BindingKey(b, key.kind, key.binding) in t.bindings;
  }

  // ---------------------------------------------------------------- what the row operations write

  /** Renaming succeeds exactly for a known corpus and an alias no other one has, and then
      changes that alias and nothing else. */
  lemma SetAliasFrame(h: Hasher, t: Tables, id: Uuid, alias: string, t': Tables, o: Outcome)
    requires Step(h, t, SetAlias(id, alias), t', o)
    ensures o == UnknownCorpus <==> id !in t.corpora
    ensures o == Done <==> id in t.corpora && forall b | b in t.corpora && t.corpora[b].alias == Some(alias) :: b == id
    ensures o != Done ==> t' == t && (o == UnknownCorpus || o == AliasTaken)
    ensures o == Done ==>
      && t'.corpora.Keys == t.corpora.Keys && t'.corpora[id] == t.corpora[id].(alias := Some(alias))
      && (forall b | b in t.corpora && b != id :: t'.corpora[b] == t.corpora[b])
      && t'.bindings == t.bindings && t'.documents == t.documents && t'.syncs == t.syncs
  {
  }

  /** Adding a binding succeeds exactly for a known corpus, and then writes the row of its key
      and no other. */
  lemma AddBindingFrame(h: Hasher, t: Tables, key: BindingKey, metadata: string, t': Tables, o: Outcome)
    requires Step(h, t, AddBinding(key, metadata), t', o)
    ensures o == Done <==> key.corpus in t.corpora
    ensures o != Done ==> t' == t && o == UnknownCorpus
    ensures o == Done ==>
      && t'.bindings.Keys == t.bindings.Keys + {key} && t'.bindings[key] == metadata
      && (forall k | k in t.bindings && k != key :: t'.bindings[k] == t.bindings[k])
      && t'.corpora == t.corpora && t'.documents == t.documents && t'.syncs == t.syncs
  {
  }

  lemma AddDocumentFrame(h: Hasher, t: Tables, key: DocKey, row: Document, t': Tables, o: Outcome)
    requires Step(h, t, AddDocument(key, row), t', o)
    ensures o == Done <==> key.corpus in t.corpora
    ensures o != Done ==> t' == t && o == UnknownCorpus
    ensures o == Done ==>
      && t'.documents.Keys == t.documents.Keys + {key} && t'.documents[key] == row
      && (forall k | k in t.documents && k != key :: t'.documents[k] == t.documents[k])
      && t'.corpora == t.corpora && t'.bindings == t.bindings && t'.syncs == t.syncs
  {
  }

  lemma PutSyncFrame(h: Hasher, t: Tables, id: Uuid, row: Sync, t': Tables, o: Outcome)
    requires Step(h, t, PutSync(id, row), t', o)
    ensures o == Done <==> id in t.corpora
    ensures o != Done ==> t' == t && o == UnknownCorpus
    ensures o == Done ==>
      && t'.syncs.Keys == t.syncs.Keys + {id} && t'.syncs[id] == row
      && (forall k | k in t.syncs && k != id :: t'.syncs[k] == t.syncs[k])
      && t'.corpora == t.corpora && t'.bindings == t.bindings && t'.documents == t.documents
  {
  }

  // ---------------------------------------------------------------- rows over whole runs

  /** Whether an operation may change the binding under a key, by its arguments alone. */
  predicate WritesBinding(op: Op, key: BindingKey) {
    (op.AddBinding? && op.binding == key) || (op.Delete? && op.deleted == key.corpus)
  }

  predicate WritesDocument(op: Op, key: DocKey) {
    || (op.AddDocument? && op.key == key)
    || (op.RecordPath? && DocKey(op.corpus, op.document, "legal") == key)
    || (op.Delete? && op.deleted == key.corpus)
  }

  predicate WritesSync(op: Op, id: Uuid) {
    (op.PutSync? && op.syncId == id) || (op.Delete? && op.deleted == id)
  }

  /** The row under a key is the same in both tables, or missing in both. */
  predicate SameRow<K, V(==)>(a: map<K, V>, b: map<K, V>, k: K) {
    (k in a <==> k in b) && (k in a && k in b ==> a[k] == b[k])
  }

  lemma {:induction false} BackfillKeepsRows(t: Tables, ids: seq<Uuid>, i: nat)
    requires i <= |ids| && Known(t, ids)
    ensures var u := BackfillFrom(t, ids, i).0;
      u.bindings == t.bindings && u.documents == t.documents && u.syncs == t.syncs
    decreases |ids| - i
  {
    if i < |ids| {
      GiveAliasKeepsRows(t, ids[i]);
      if GiveAlias(t, ids[i]).1 == Done {
        BackfillKeepsRows(GiveAlias(t, ids[i]).0, ids, i + 1);
      }
    }
  }

  lemma GiveAliasKeepsRows(t: Tables, id: Uuid)
    requires id in t.corpora
    ensures var u := GiveAlias(t, id).0; u.bindings == t.bindings && u.documents == t.documents && u.syncs == t.syncs
  {
  }

  /** Registrations and openings write corpora only. */
  lemma CorpusStepsKeepRows(h: Hasher, t: Tables, op: Op, t': Tables, o: Outcome)
    requires Step(h, t, op, t', o) && (op.Register? || op.Reopen? || op.SetAlias?)
    ensures t'.bindings == t.bindings && t'.documents == t.documents && t'.syncs == t.syncs
  {
    if op.Reopen? {
      BackfillKeepsRows(t, op.order, 0);
    } else if op.Register? && NormalizePath(op.raw).Ok? {
      RegisterKeepsRows(h, t, op.raw, NormalizePath(op.raw).value, op.profiles, t', o);
    }
  }

  lemma RegisterKeepsRows(h: Hasher, t: Tables, raw: string, root: string, profiles: string, t': Tables, o: Outcome)
    requires RegistersRoot(h, t, raw, root, profiles, t', o)
    ensures t'.bindings == t.bindings && t'.documents == t.documents && t'.syncs == t.syncs
  {
  }

  /** No step changes a row that its operation does not name. */
  lemma StepKeepsOtherRows(h: Hasher, t: Tables, op: Op, t': Tables, o: Outcome)
    requires Step(h, t, op, t', o)
    ensures forall key | !WritesBinding(op, key) :: SameRow(t.bindings, t'.bindings, key)
    ensures forall key | !WritesDocument(op, key) :: SameRow(t.documents, t'.documents, key)
    ensures forall id | !WritesSync(op, id) :: SameRow(t.syncs, t'.syncs, id)
  {
    if op.Register? || op.Reopen? || op.SetAlias? {
      CorpusStepsKeepRows(h, t, op, t', o);
    }
  }

  lemma StepInRun(h: Hasher, states: seq<Tables>, events: seq<Event>, i: nat)
    requires Run(h, states, events) && i < |events|
    ensures Step(h, states[i], events[i].op, states[i + 1], events[i].outcome)
  {
  }

  /** Over any run a binding stays exactly as it is until its key is written or its corpus deleted. */
  lemma {:induction false} BindingPersists(h: Hasher, states: seq<Tables>, events: seq<Event>, i: nat, key: BindingKey)
    requires Run(h, states, events) && i <= |events|
    requires forall k | 0 <= k < i :: !WritesBinding(events[k].op, key)
    ensures SameRow(states[0].bindings, states[i].bindings, key)
  {
    if i > 0 {
      BindingPersists(h, states, events, i - 1, key);
      StepInRun(h, states, events, i - 1);
      StepKeepsOtherRows(h, states[i - 1], events[i - 1].op, states[i], events[i - 1].outcome);
    }
  }

  /** So does a document. */
  lemma {:induction false} DocumentPersists(h: Hasher, states: seq<Tables>, events: seq<Event>, i: nat, key: DocKey)
    requires Run(h, states, events) && i <= |events|
    requires forall k | 0 <= k < i :: !WritesDocument(events[k].op, key)
    ensures SameRow(states[0].documents, states[i].documents, key)
  {
    if i > 0 {
      DocumentPersists(h, states, events, i - 1, key);
      StepInRun(h, states, events, i - 1);
      StepKeepsOtherRows(h, states[i - 1], events[i - 1].op, states[i], events[i - 1].outcome);
    }
  }

  /** And a sync row. */
  lemma {:induction false} SyncPersists(h: Hasher, states: seq<Tables>, events: seq<Event>, i: nat, id: Uuid)
    requires Run(h, states, events) && i <= |events|
    requires forall k | 0 <= k < i :: !WritesSync(events[k].op, id)
    ensures SameRow(states[0].syncs, states[i].syncs, id)
  {
    if i > 0 {
      SyncPersists(h, states, events, i - 1, id);
      StepInRun(h, states, events, i - 1);
      StepKeepsOtherRows(h, states[i - 1], events[i - 1].op, states[i], events[i - 1].outcome);
    }
  }

  /** What no step but a deletion takes from a corpus: its root and label, and its alias
      unless it is renamed. */
  predicate StillThere(t: Tables, t': Tables, id: Uuid, renamed: bool) {
    id in t.corpora ==>
      && id in t'.corpora && t'.corpora[id].root == t.corpora[id].root && t'.corpora[id].labelPseudo == t.corpora[id].labelPseudo
      && (!renamed && t.corpora[id].alias.Some? ==> t'.corpora[id].alias == t.corpora[id].alias)
  }

  lemma ReopenKeepsCorpus(h: Hasher, t: Tables, order: seq<Uuid>, t': Tables, o: Outcome, id: Uuid)
    requires Step(h, t, Reopen(order), t', o)
    ensures StillThere(t, t', id, false)
  {
    ReopenNumbers(h, t, order, t', o);
    if id in t.corpora {
      var e := Min(|order|, Places(t));
      if Spared(order, 0, e, id) {
      } else {
        var k :| 0 <= k < e && order[k] == id;
        assert order[k] in order;
      }
    }
  }

  lemma RegisterKeepsCorpus(h: Hasher, t: Tables, raw: string, root: string, profiles: string, t': Tables, o: Outcome, id: Uuid)
    requires RegistersRoot(h, t, raw, root, profiles, t', o)
    ensures StillThere(t, t', id, false)
  {
  }

  lemma StepKeepsCorpus(h: Hasher, t: Tables, op: Op, t': Tables, o: Outcome, id: Uuid)
    requires Step(h, t, op, t', o) && !(op.Delete? && op.deleted == id)
    ensures StillThere(t, t', id, op.SetAlias? && op.id == id)
  {
    match op
    case Register(raw, profiles) =>
      if NormalizePath(raw).Ok? {
        RegisterKeepsCorpus(h, t, raw, NormalizePath(raw).value, profiles, t', o, id);
      }
    case Reopen(order) => ReopenKeepsCorpus(h, t, order, t', o, id);
    case _ =>
  }

  /** Over any run a corpus keeps its root and label until it is deleted, and its alias until
      it is renamed. */
  lemma {:induction false} CorpusPersists(h: Hasher, states: seq<Tables>, events: seq<Event>, i: nat, id: Uuid)
    requires Run(h, states, events) && i <= |events|
    requires forall k | 0 <= k < i :: !(events[k].op.Delete? && events[k].op.deleted == id)
    ensures StillThere(states[0], states[i], id, exists k :: 0 <= k < i && events[k].op.SetAlias? && events[k].op.id == id)
  {
    if i > 0 {
      CorpusPersists(h, states, events, i - 1, id);
      StepKeepsCorpus(h, states[i - 1], events[i - 1].op, states[i], events[i - 1].outcome, id);
    }
  }

  // ---------------------------------------------------------------- document paths

  /** What `relative_path_by_document_id` may return: the row of the legal backend first,
      otherwise any row with a path. */
  ghost predicate PathAnswer(t: Tables, corpus: Uuid, document: Uuid, answer: Option<string>) {
    var legal := DocKey(corpus, document, LEGAL);
    if legal in t.documents && t.documents[legal].relativePath.Some? then
      answer == t.documents[legal].relativePath
    else if exists k :: PathRowOf(t, corpus, document, k) then
      exists k :: PathRowOf(t, corpus, document, k) && answer == t.documents[k].relativePath
    else
      answer == None
  }

  predicate PathRowOf(t: Tables, corpus: Uuid, document: Uuid, k: DocKey) {
    k in t.documents && k.corpus == corpus && k.document == document && t.documents[k].relativePath.Some?
  }

  /** What `document_id_by_relative_path` may return: the document of any row with the path. */
  ghost predicate DocumentAnswer(t: Tables, corpus: Uuid, path: string, answer: Option<Uuid>) {
    if exists k :: Carries(t, corpus, path, k) then
      exists k :: Carries(t, corpus, path, k) && answer == Some(k.document)
    else
      answer == None
  }

  predicate Carries(t: Tables, corpus: Uuid, path: string, k: DocKey) {
    k in t.documents && k.corpus == corpus && t.documents[k].relativePath == Some(path)
  }

  /** The lookup by document answers none exactly if no row of the document has a path, and
      otherwise a path of one of its rows, that of the legal row if it has one. */
  lemma PathAnswerMeans(t: Tables, corpus: Uuid, document: Uuid, answer: Option<string>)
    ensures PathAnswer(t, corpus, document, answer) <==>
      match answer
      case None => forall backend: string | DocKey(corpus, document, backend) in t.documents ::
        t.documents[DocKey(corpus, document, backend)].relativePath.None?
      case Some(_) =>
        && (exists backend: string :: DocKey(corpus, document, backend) in t.documents
              && t.documents[DocKey(corpus, document, backend)].relativePath == answer)
        && (DocKey(corpus, document, "legal") in t.documents
              && t.documents[DocKey(corpus, document, "legal")].relativePath.Some? ==>
            answer == t.documents[DocKey(corpus, document, "legal")].relativePath)
  {
    assert forall k: DocKey | PathRowOf(t, corpus, document, k) :: k == DocKey(corpus, document, k.backend);
    assert forall backend: string | DocKey(corpus, document, backend) in t.documents
      && t.documents[DocKey(corpus, document, backend)].relativePath.Some? ::
      PathRowOf(t, corpus, document, DocKey(corpus, document, backend));
  }

  /** The lookup by path answers none exactly if no row of the corpus has the path, and
      otherwise a document that has. */
  lemma DocumentAnswerMeans(t: Tables, corpus: Uuid, path: string, answer: Option<Uuid>)
    ensures DocumentAnswer(t, corpus, path, answer) <==>
      match answer
      case None => forall document: Uuid, backend: string | DocKey(corpus, document, backend) in t.documents ::
        t.documents[DocKey(corpus, document, backend)].relativePath != Some(path)
      case Some(document) =>
        (exists backend: string :: DocKey(corpus, document, backend) in t.documents
           && t.documents[DocKey(corpus, document, backend)].relativePath == Some(path))
  {
    assert forall k: DocKey | Carries(t, corpus, path, k) :: k == DocKey(corpus, k.document, k.backend);
    assert forall document: Uuid, backend: string | DocKey(corpus, document, backend) in t.documents
      && t.documents[DocKey(corpus, document, backend)].relativePath == Some(path) ::
      Carries(t, corpus, path, DocKey(corpus, document, backend));
  }

  /** A recorded path is what the lookup by document returns, whatever other backends store. */
  lemma RecordedPathIsFound(t: Tables, corpus: Uuid, document: Uuid, path: string, answer: Option<string>)
    requires corpus in t.corpora
    ensures var t' := RecordPathStep(t, corpus, document, path).0;
            && PathRecorded(t', corpus, document, path)
            && (PathAnswer(t', corpus, document, answer) <==> answer == Some(path))
  {
  }

  /** The lookup by path returns that document for certain exactly when no other document of
      the corpus carries the path. */
  lemma RecordedDocumentIsFound(t: Tables, corpus: Uuid, document: Uuid, path: string)
    requires corpus in t.corpora
    ensures var t' := RecordPathStep(t, corpus, document, path).0;
            (forall answer: Option<Uuid> :: DocumentAnswer(t', corpus, path, answer) <==> answer == Some(document)) <==>
            !exists k: DocKey :: Carries(t, corpus, path, k) && k.document != document
  {
    var t', legal := RecordPathStep(t, corpus, document, path).0, DocKey(corpus, document, LEGAL);
    assert Carries(t', corpus, path, legal);
    if k: DocKey :| Carries(t, corpus, path, k) && k.document != document {
      assert Carries(t', corpus, path, k);
      assert DocumentAnswer(t', corpus, path, Some(k.document));
    } else {
      forall k: DocKey | Carries(t', corpus, path, k)
        ensures k.document == document
      {
        assert k == legal || Carries(t, corpus, path, k);
      }
      assert DocumentAnswer(t', corpus, path, Some(document));
    }
  }

  /** Recording a path touches the legal row of the document and no other: it appears with
      nothing but the path, or keeps all but its path. */
  lemma RecordPathFrame(t: Tables, corpus: Uuid, document: Uuid, path: string)
    ensures var t', legal := RecordPathStep(t, corpus, document, path).0, DocKey(corpus, document, LEGAL);
            && t'.documents.Keys == t.documents.Keys + (if corpus in t.corpora then {legal} else {})
            && (forall k | k in t.documents && k != legal :: t'.documents[k] == t.documents[k])
            && (corpus in t.corpora && legal in t.documents ==>
                  t'.documents[legal] == t.documents[legal].(relativePath := Some(path)))
            && (corpus in t.corpora && legal !in t.documents ==>
                  t'.documents[legal] == Document("", None, Some(path), "", "{}"))
            && (corpus !in t.corpora ==> t' == t)
            && t'.corpora == t.corpora && t'.bindings == t.bindings && t'.syncs == t.syncs
  {
  }

  predicate PathRecorded(t: Tables, corpus: Uuid, document: Uuid, path: string) {
    var legal := DocKey(corpus, document, LEGAL);
    legal in t.documents && t.documents[legal].relativePath == Some(path)
  }

  lemma StepKeepsPath(h: Hasher, t: Tables, op: Op, t': Tables, o: Outcome, corpus: Uuid, document: Uuid, path: string)
    requires Step(h, t, op, t', o) && PathRecorded(t, corpus, document, path) && !WritesDocument(op, DocKey(corpus, document, LEGAL))
    ensures PathRecorded(t', corpus, document, path)
  {
    StepKeepsOtherRows(h, t, op, t', o);
    assert SameRow(t.documents, t'.documents, DocKey(corpus, document, LEGAL));
  }

  /** A recorded path stays the answer over every run that does not replace the legal row,
      record another path for it or delete the corpus. */
  lemma {:induction false} RecordedPathPersists(h: Hasher, states: seq<Tables>, events: seq<Event>, i: nat,
                                                corpus: Uuid, document: Uuid, path: string)
    requires Run(h, states, events) && i <= |events| && PathRecorded(states[0], corpus, document, path)
    requires forall k | 0 <= k < i :: !WritesDocument(events[k].op, DocKey(corpus, document, LEGAL))
    ensures PathRecorded(states[i], corpus, document, path)
    ensures forall answer: Option<string> :: PathAnswer(states[i], corpus, document, answer) <==> answer == Some(path)
  {
    if i > 0 {
      RecordedPathPersists(h, states, events, i - 1, corpus, document, path);
      StepKeepsPath(h, states[i - 1], events[i - 1].op, states[i], events[i - 1].outcome, corpus, document, path);
    }
  }
}
