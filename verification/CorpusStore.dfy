/** The registry as an object over its tables; every method is one step of the registry,
    whose laws are proved there. */
module CorpusStore {
  import opened Wrappers
  import opened Ids
  import opened Roots
  import opened Aliases
  import opened Registry

  class Store {
    const h: Hasher
    var corpora: map<Uuid, Corpus>
    var bindings: map<BindingKey, string>
    var documents: map<DocKey, Document>
    var syncs: map<Uuid, Sync>

    /** The tables as a value. */
    function Db(): Tables
      reads this
    {
      Tables(corpora, bindings, documents, syncs)
    }

    ghost predicate Valid()
      reads this
    {
      Inv(h, Db())
    }

    /** Attach to an existing database file. */
    constructor (h: Hasher, db: Tables)
      requires Inv(h, db)
      ensures Valid() && Db() == db && this.h == h
    {
      this.h := h;
      corpora, bindings, documents, syncs := db.corpora, db.bindings, db.documents, db.syncs;
    }

    /** `SELECT corpus_id FROM corpora WHERE alias IS NULL`, in some order. */
    method UnaliasedIds() returns (ids: seq<Uuid>)
      ensures ListsUnaliased(Db(), ids)
    {
      ids := [];
      var rest := corpora.Keys;
      while rest != {}
        invariant rest <= corpora.Keys
        invariant forall i, j | 0 <= i < j < |ids| :: ids[i] != ids[j]
        invariant forall id: Uuid :: id in ids <==> id in corpora && id !in rest && corpora[id].alias.None?
        decreases rest
      {
        var id :| id in rest;
        rest := rest - {id};
        if corpora[id].alias.None? {
          ids := ids + [id];
        }
      }
    }

    /** `SELECT COALESCE(MAX(CAST(SUBSTR(alias, 8) AS INTEGER)), 0) ... GLOB 'corpus-[0-9]*'`. */
    method MaxAliasSuffix() returns (m: nat)
      ensures m == MaxSuffix(AliasSet(corpora)) && m <= MAX_I64
    {
      m := 0;
      var rest := corpora.Keys;
      ghost var seen: set<string> := {};
      while rest != {}
        invariant rest <= corpora.Keys
        invariant forall a :: a in seen <==> exists id :: id in corpora && id !in rest && corpora[id].alias == Some(a)
        invariant IsMaxSuffix(seen, m) && m <= MAX_I64
        decreases rest
      {
        var id :| id in rest;
        rest := rest - {id};
        if corpora[id].alias.Some? {
          var a := corpora[id].alias.value;
          seen := seen + {a};
          if Numbered(a) && Suffix(a) > m {
            m := Suffix(a);
          }
        }
      }
      assert seen == AliasSet(corpora);
    }

    /** `SELECT ... WHERE alias = ?`. */
    method LookupByAlias(alias: string) returns (found: Option<Uuid>)
      requires Valid()
      ensures AliasAnswer(Db(), alias, found)
      ensures forall answer :: AliasAnswer(Db(), alias, answer) ==> answer == found
    {
      if id :| id in corpora && corpora[id].alias == Some(alias) {
        found := Some(id);
      } else {
        found := None;
      }
    }

    /** The unique index accepts the alias unless another row holds it. */
    method UpdateAlias(id: Uuid, alias: string) returns (o: Outcome)
      requires id in corpora
      modifies this
      ensures (Db(), o) == SetAliasStep(old(Db()), id, alias)
    {
      if exists b :: b in corpora && b != id && corpora[b].alias == Some(alias) {
        return AliasTaken;
      }
      corpora := corpora[id := corpora[id].(alias := Some(alias))];
      o := Done;
    }

    /** The shared tail of registration and backfill. */
    method AutoAlias(id: Uuid) returns (o: Outcome)
      requires id in corpora && corpora[id].alias.None?
      modifies this
      ensures (Db(), o) == GiveAlias(old(Db()), id)
    {
      var m := MaxAliasSuffix();
      var alias := NextAlias(m);
      assert alias in AliasSet(corpora) <==> TakenByOther(Db(), id, alias) by {
        if b :| b in corpora && corpora[b].alias == Some(alias) {
          assert b != id;
        }
      }
      o := UpdateAlias(id, alias);
    }

    method BackfillAliases(ids: seq<Uuid>) returns (o: Outcome)
      requires ListsUnaliased(Db(), ids) && Known(Db(), ids)
      modifies this
      ensures (Db(), o) == BackfillFrom(old(Db()), ids, 0)
    {
      ghost var t := Db();
      for i := 0 to |ids|
        invariant Known(Db(), ids)
        invariant forall k | i <= k < |ids| :: corpora[ids[k]].alias.None?
        invariant BackfillFrom(t, ids, 0) == BackfillFrom(Db(), ids, i)
      {
        o := AutoAlias(ids[i]);
        if o != Done {
          return;
        }
      }
      o := Done;
    }

    method RegisterRoot(raw: string, profiles: string) returns (o: Outcome, id: Uuid, root: string)
      requires Valid()
      modifies this
      ensures Step(h, old(Db()), Register(raw, profiles), Db(), o)
      ensures Valid()
      ensures o == Done ==> NormalizePath(raw) == Ok(root) && id == CorpusIdOf(h, root) && id in corpora
    {
      ghost var t := Db();
      id, root := *, "";
      match NormalizePath(raw)
      case Err(_) =>
        o := EmptyRoot;
      case Ok(normalized) =>
        root := normalized;
        id := CorpusIdOf(h, root);
        var rest := corpora.Keys;
        while rest != {}
          invariant rest <= corpora.Keys && Db() == t
          invariant forall b | b in corpora && b !in rest :: !Clashes(corpora[b], root)
          decreases rest
        {
          var b :| b in rest;
          if corpora[b].root != root && RootsOverlap(corpora[b].root, root) {
            return Overlap(b), id, root;
          }
          rest := rest - {b};
        }
        o := WriteRoot(raw, root, profiles);
        RegisterKeepsInv(h, t, raw, profiles, Db(), o);
    }

    /** The insert and, for a corpus without alias, the automatic alias. */
    method WriteRoot(raw: string, root: string, profiles: string) returns (o: Outcome)
      requires NoClash(Db(), root)
      modifies this
      ensures RegistersRoot(h, old(Db()), raw, root, profiles, Db(), o)
      ensures CorpusIdOf(h, root) in corpora
    {
      var id := CorpusIdOf(h, root);
      if id in corpora {
        corpora := corpora[id := corpora[id].(rawRoot := raw, profiles := profiles)];
      } else {
        corpora := corpora[id := Corpus(root, raw, Label(id), profiles, None)];
      }
      assert Db() == Upsert(h, old(Db()), raw, root, profiles);
      if corpora[id].alias.None? {
        o := AutoAlias(id);
      } else {
        o := Done;
      }
    }

    method SetAlias(id: Uuid, alias: string) returns (o: Outcome)
      requires Valid()
      modifies this
      ensures Step(h, old(Db()), Op.SetAlias(id, alias), Db(), o)
      ensures Valid()
    {
      if id !in corpora {
        return UnknownCorpus;
      }
      o := UpdateAlias(id, alias);
      StepKeepsInv(h, old(Db()), Op.SetAlias(id, alias), Db(), o);
    }

    method AddBinding(id: Uuid, kind: BindingKind, binding: string, metadata: string) returns (o: Outcome)
      requires Valid()
      modifies this
      ensures Step(h, old(Db()), Op.AddBinding(BindingKey(id, kind, binding), metadata), Db(), o)
      ensures Valid()
    {
      if id !in corpora {
        return UnknownCorpus;
      }
      bindings := bindings[BindingKey(id, kind, binding) := metadata];
      o := Done;
    }

    method AddDocument(id: Uuid, document: Uuid, backend: string, sourcePath: string, relativePath: Option<string>,
                       contentId: string, metadata: string) returns (o: Outcome)
      requires Valid()
      modifies this
      ensures var hash := if relativePath.Some? then Some(Sha256Hex(h, relativePath.value)) else None;
              var row := Document(Sha256Hex(h, sourcePath), hash, relativePath, contentId, metadata);
              Step(h, old(Db()), Op.AddDocument(DocKey(id, document, backend), row), Db(), o)
      ensures Valid()
    {
      if id !in corpora {
        return UnknownCorpus;
      }
      var relativeHash := if relativePath.Some? then Some(Sha256Hex(h, relativePath.value)) else None;
      var row := Document(Sha256Hex(h, sourcePath), relativeHash, relativePath, contentId, metadata);
      documents := documents[DocKey(id, document, backend) := row];
      o := Done;
    }

    method RecordDocumentPath(id: Uuid, document: Uuid, path: string) returns (o: Outcome)
      requires Valid()
      modifies this
      ensures Step(h, old(Db()), RecordPath(id, document, path), Db(), o)
      ensures Valid()
    {
      if id !in corpora {
        return UnknownCorpus;
      }
      var key := DocKey(id, document, LEGAL);
      if key in documents {
        documents := documents[key := documents[key].(relativePath := Some(path))];
      } else {
        documents := documents[key := Document("", None, Some(path), "", "{}")];
      }
      o := Done;
    }

    method RelativePathByDocumentId(id: Uuid, document: Uuid) returns (answer: Option<string>)
      ensures PathAnswer(Db(), id, document, answer)
    {
      var legal := DocKey(id, document, LEGAL);
      if legal in documents && documents[legal].relativePath.Some? {
        answer := documents[legal].relativePath;
      } else if k :| k in documents && k.corpus == id && k.document == document && documents[k].relativePath.Some? {
        answer := documents[k].relativePath;
        assert PathRowOf(Db(), id, document, k);
      } else {
        answer := None;
      }
    }

    method DocumentIdByRelativePath(id: Uuid, path: string) returns (answer: Option<Uuid>)
      ensures DocumentAnswer(Db(), id, path, answer)
    {
      if k :| k in documents && k.corpus == id && documents[k].relativePath == Some(path) {
        answer := Some(k.document);
        assert Carries(Db(), id, path, k);
      } else {
        answer := None;
      }
    }

    /** The corpus that owns a binding: known when there is exactly one. */
    method CorpusForBinding(kind: BindingKind, binding: string) returns (owner: Option<Uuid>, several: bool)
      ensures OwnerAnswer(Db(), kind, binding, owner, several)
    {
      if k :| k in bindings && k.kind == kind && k.binding == binding {
        assert k == BindingKey(k.corpus, kind, binding);
        if l :| l in bindings && l.kind == kind && l.binding == binding && l.corpus != k.corpus {
          assert l == BindingKey(l.corpus, kind, binding);
          owner, several := None, true;
        } else {
          owner, several := Some(k.corpus), false;
        }
      } else {
        owner, several := None, false;
      }
    }

    /** The delete and its cascades, table by table. */
    method DeleteRows(id: Uuid)
      modifies this
      ensures Db() == DeleteStep(old(Db()), id)
    {
      bindings := map k | k in bindings && k.corpus != id :: bindings[k];
      documents := map k | k in documents && k.corpus != id :: documents[k];
      syncs := map a | a in syncs && a != id :: syncs[a];
      corpora := map a | a in corpora && a != id :: corpora[a];
    }

    method DeleteCorpus(id: Uuid)
      requires Valid()
      modifies this
      ensures Step(h, old(Db()), Delete(id), Db(), Done)
      ensures Valid()
    {
      DeleteRows(id);
      DeleteKeepsInv(h, old(Db()), id);
    }

    method UpsertSyncState(id: Uuid, row: Sync) returns (o: Outcome)
      requires Valid()
      modifies this
      ensures Step(h, old(Db()), PutSync(id, row), Db(), o)
      ensures Valid()
    {
      if id !in corpora {
        return UnknownCorpus;
      }
      syncs := syncs[id := row];
      o := Done;
    }

    /** `CorpusStore::open`: attach, then backfill. */
    static method Open(h: Hasher, db: Tables) returns (store: Store, o: Outcome, ghost order: seq<Uuid>)
      requires Inv(h, db)
      ensures fresh(store) && store.h == h && store.Valid()
      ensures Step(h, db, Reopen(order), store.Db(), o)
    {
      store := new Store(h, db);
      var ids := store.UnaliasedIds();
      order := ids;
      o := store.BackfillAliases(ids);
      StepKeepsInv(h, db, Reopen(ids), store.Db(), o);
    }
  }
}
