/** What holds of the client's tables after any package that it accepts, wherever the package comes from. */
module AcceptedPackages {
  import opened Wrappers
  import opened Replica
  import opened ReplicaLaws
  import opened SortedKeys

  // --- Upserts ------------------------------------------------------------------------------------

  /** A file of upserts fails exactly on a row that does not meet its foreign keys. */
  lemma {:induction false} UpsertFailsExactly<V>(t: map<Key, V>, rows: seq<Put<V>>, refers: V -> bool)
    ensures UpsertChecked(t, rows, refers) == None <==> exists i :: 0 <= i < |rows| && !refers(rows[i].row)
    ensures UpsertChecked(t, rows, refers).Some? ==>
      forall k | k in UpsertChecked(t, rows, refers).value ::
        (k in t && UpsertChecked(t, rows, refers).value[k] == t[k]) || refers(UpsertChecked(t, rows, refers).value[k])
  {
    if rows != [] {
      var n := |rows| - 1;
      UpsertFailsExactly(t, rows[..n], refers);
      if i :| 0 <= i < n && !refers(rows[..n][i].row) {
        assert !refers(rows[i].row);
      }
    }
  }

  lemma {:induction false} UpsertKeepsKeys<V>(t: map<Key, V>, rows: seq<Put<V>>)
    ensures t.Keys <= UpsertAll(t, rows).Keys
  {
    if rows != [] {
      UpsertKeepsKeys(t, rows[..|rows| - 1]);
    }
  }

  // --- Deletions ----------------------------------------------------------------------------------

  lemma CascadeConsistent(db: Db, docs: set<Key>)
    requires Consistent(db)
    ensures Consistent(CascadeDocuments(db, docs))
  {
    var none := Db(map[], map[], map[], map[], map[], map[], Derived(map[], map[]), Derived(map[], map[]), map[]);
    CascadeIsSmallest(db, docs, none);
  }

  /** Deleting archived responses leaves a consistent database: the citations of them go and no others, and a
      resolution that referred to one loses the reference and nothing else. */
  lemma ResponsesCascade(db: Db, responses: set<Key>)
    requires Consistent(db)
    ensures var after := CascadeResponses(db, responses);
      && Consistent(after)
      && after == db.(responses := after.responses, citations := after.citations, resolutions := after.resolutions)
      && (forall k :: k in after.responses <==> k in db.responses && k !in responses)
      && (forall k :: k in after.citations <==> k in db.citations && db.citations[k].response !in responses)
      && after.resolutions.Keys == db.resolutions.Keys
      && forall k | k in db.resolutions ::
           var r := db.resolutions[k].response;
           after.resolutions[k] == if r.Some? && r.value in responses then db.resolutions[k].(response := None) else db.resolutions[k]
  {
  }

  lemma BaseConsistent(db: Db, p: Package)
    requires Consistent(db)
    ensures Consistent(ApplyBase(db, p))
  {
    var d1 := db.(documents := UpsertAll(db.documents, p.documents.upserts));
    UpsertKeepsKeys(db.documents, p.documents.upserts);
    assert Consistent(d1);
    DeleteDocumentsCascades(d1, p.documents.deletes);
    CascadeConsistent(d1, Elements(p.documents.deletes));
    var d2 := DeleteDocuments(d1, p.documents.deletes);
    var d3 := d2.(responses := UpsertAll(d2.responses, p.responses.upserts));
    UpsertKeepsKeys(d2.responses, p.responses.upserts);
    assert Consistent(d3);
    DeleteResponsesCascades(d3, p.responses.deletes);
    ResponsesCascade(d3, Elements(p.responses.deletes));
  }

  // --- Links --------------------------------------------------------------------------------------

  lemma {:induction false} DeleteKeeps<V>(t: map<Key, V>, keys: seq<Key>)
    ensures Part(DeleteAll(t, keys), t)
  {
    if keys != [] {
      DeleteKeeps(t, keys[..|keys| - 1]);
    }
  }

  lemma LinksConsistent(db: Db, p: Package)
    requires Consistent(db) && ApplyLinks(db, p).Some?
    ensures Consistent(ApplyLinks(db, p).value)
    ensures ApplyLinks(db, p).value.documents == db.documents
  {
    var docs, responses := db.documents.Keys, db.responses.Keys;
    UpsertFailsExactly(db.edges, p.edges, e => EdgeRefers(e, docs));
    UpsertFailsExactly(db.resolutions, p.resolutions.upserts, r => ResolutionRefers(r, responses));
    UpsertFailsExactly(db.citations, p.citations, c => CitationRefers(c, docs, responses));
    var resolutions := UpsertChecked(db.resolutions, p.resolutions.upserts, r => ResolutionRefers(r, responses)).value;
    DeleteKeeps(resolutions, p.resolutions.deletes);
  }

  // --- Replace-sets -------------------------------------------------------------------------------

  lemma SetConsistent(d: Derived, docs: set<Key>, doc: Key, s: SetRows)
    requires DerivedRefers(d, docs) && ReplaceDerived(d, docs, doc, s).Some?
    ensures DerivedRefers(ReplaceDerived(d, docs, doc, s).value, docs)
  {
  }

  lemma {:induction false} SetsConsistent(d: Derived, docs: set<Key>, sets: seq<Put<SetRows>>)
    requires DerivedRefers(d, docs) && ReplaceAll(d, docs, sets).Some?
    ensures DerivedRefers(ReplaceAll(d, docs, sets).value, docs)
  {
    if sets != [] {
      var n := |sets| - 1;
      SetsConsistent(d, docs, sets[..n]);
      SetConsistent(ReplaceAll(d, docs, sets[..n]).value, docs, sets[n].key, sets[n].row);
    }
  }

  lemma {:induction false} EmbeddingsConsistent(d: Derived, docs: set<Key>, sets: seq<Put<map<Key, int>>>)
    requires DerivedRefers(d, docs) && ReplaceAllEmbeddings(d, sets).Some?
    ensures DerivedRefers(ReplaceAllEmbeddings(d, sets).value, docs)
  {
    if sets != [] {
      EmbeddingsConsistent(d, docs, sets[..|sets| - 1]);
    }
  }

  lemma {:induction false} ZonesConsistent(zones: map<Key, int>, docs: set<Key>, sets: seq<Put<Option<int>>>)
    requires zones.Keys <= docs && ReplaceDecisionZones(zones, docs, sets).Some?
    ensures ReplaceDecisionZones(zones, docs, sets).value.Keys <= docs
  {
    if sets != [] {
      ZonesConsistent(zones, docs, sets[..|sets| - 1]);
    }
  }

  lemma FinalSetsConsistent(db: Db, p: Package)
    requires Consistent(db) && ApplySets(db, p).Some?
    ensures Consistent(ApplySets(db, p).value)
  {
    var docs := db.documents.Keys;
    SetsConsistent(db.chunks, docs, p.chunks);
    EmbeddingsConsistent(ReplaceAll(db.chunks, docs, p.chunks).value, docs, p.chunkEmbeddings);
    SetsConsistent(db.zones, docs, p.zones);
    ZonesConsistent(db.decisionZones, docs, p.decisionZones);
  }

  /** Whatever package a client with consistent tables accepts, it then holds exactly what the postconditions say,
      and its foreign keys are met. */
  lemma AcceptedIsConsistent(db: Db, p: Package)
    requires Consistent(db) && ApplyPackage(db, p).Some?
    ensures ApplyPackage(db, p).value == p.post && Consistent(p.post)
  {
    BaseConsistent(db, p);
    LinksConsistent(ApplyBase(db, p), p);
    FinalSetsConsistent(ApplyLinks(ApplyBase(db, p), p).value, p);
  }
}
