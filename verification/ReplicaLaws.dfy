/** What the client's row-by-row loops amount to, and when a series of replace-sets fails. */
module ReplicaLaws {
  import opened Wrappers
  import opened Replica
  import opened SortedKeys

  /** Every row of the file is the one in `src`. */
  predicate From<V(==)>(rows: seq<Put<V>>, src: map<Key, V>) {
    forall i | 0 <= i < |rows| :: rows[i].key in src && src[rows[i].key] == rows[i].row
  }

  function KeysOf<V>(rows: seq<Put<V>>): set<Key> {
    set i | 0 <= i < |rows| :: rows[i].key
  }

  /** `t` with the rows of `src` under `keys`. */
  function Overlay<V>(t: map<Key, V>, src: map<Key, V>, keys: set<Key>): map<Key, V> {
    map k | k in t.Keys + src.Keys && (k in t || k in keys) :: if k in keys && k in src then src[k] else t[k]
  }

  lemma {:induction false} UpsertAllOverlays<V>(t: map<Key, V>, rows: seq<Put<V>>, src: map<Key, V>)
    requires From(rows, src)
    ensures UpsertAll(t, rows) == Overlay(t, src, KeysOf(rows))
  {
    if rows == [] {
      assert Overlay(t, src, KeysOf(rows)) == t;
    } else {
      var n := |rows| - 1;
      UpsertAllOverlays(t, rows[..n], src);
      assert KeysOf(rows) == KeysOf(rows[..n]) + {rows[n].key};
    }
  }

  lemma {:induction false} DeleteAllSubtracts<V>(t: map<Key, V>, keys: seq<Key>)
    ensures DeleteAll(t, keys) == t - Elements(keys)
  {
    if keys == [] {
      assert Elements(keys) == {};
    } else {
      var n := |keys| - 1;
      DeleteAllSubtracts(t, keys[..n]);
      assert Elements(keys) == Elements(keys[..n]) + {keys[n]};
    }
  }

  lemma {:induction false} DeleteDocumentsCascades(db: Db, keys: seq<Key>)
    ensures DeleteDocuments(db, keys) == CascadeDocuments(db, Elements(keys))
  {
    if keys == [] {
      assert Elements(keys) == {};
      NoCascade(db);
    } else {
      var n := |keys| - 1;
      DeleteDocumentsCascades(db, keys[..n]);
      assert Elements(keys) == Elements(keys[..n]) + {keys[n]};
      CascadesJoin(db, Elements(keys[..n]), keys[n]);
    }
  }

  lemma NoCascade(db: Db)
    ensures CascadeDocuments(db, {}) == db && CascadeResponses(db, {}) == db
  {
    var d, r := CascadeDocuments(db, {}), CascadeResponses(db, {});
    assert forall k | k in db.edges :: EdgeAvoids(db.edges[k], {});
    assert d.edges.Keys == db.edges.Keys;
    assert d.edges == db.edges && d.citations == db.citations;
    assert d.chunks.rows == db.chunks.rows && d.chunks.embeddings == db.chunks.embeddings;
    assert d.zones.rows == db.zones.rows && d.zones.embeddings == db.zones.embeddings;
    assert d.documents == db.documents && d.decisionZones == db.decisionZones;
    assert forall k | k in db.resolutions :: Nulled(db.resolutions[k], {}) == db.resolutions[k];
    assert r.resolutions.Keys == db.resolutions.Keys;
    assert r.citations == db.citations && r.resolutions == db.resolutions && r.responses == db.responses;
  }

  lemma CascadesJoin(db: Db, docs: set<Key>, k: Key)
    ensures CascadeDocuments(CascadeDocuments(db, docs), {k}) == CascadeDocuments(db, docs + {k})
  {
    DropsJoin(db.chunks, docs, k);
    DropsJoin(db.zones, docs, k);
    var twice, once := CascadeDocuments(CascadeDocuments(db, docs), {k}), CascadeDocuments(db, docs + {k});
    assert forall e | e in db.edges ::
      EdgeAvoids(db.edges[e], docs + {k}) <==> EdgeAvoids(db.edges[e], docs) && EdgeAvoids(db.edges[e], {k});
    assert twice.edges.Keys == once.edges.Keys;
    assert twice.citations == once.citations;
  }

  lemma DropsJoin(d: Derived, docs: set<Key>, k: Key)
    ensures Drop(Drop(d, docs), {k}) == Drop(d, docs + {k})
  {
  }

  lemma {:induction false} DeleteResponsesCascades(db: Db, keys: seq<Key>)
    ensures DeleteResponses(db, keys) == CascadeResponses(db, Elements(keys))
  {
    if keys == [] {
      assert Elements(keys) == {};
      NoCascade(db);
    } else {
      var n := |keys| - 1;
      DeleteResponsesCascades(db, keys[..n]);
      assert Elements(keys) == Elements(keys[..n]) + {keys[n]};
      ResponseCascadesJoin(db, Elements(keys[..n]), keys[n]);
    }
  }

  lemma ResponseCascadesJoin(db: Db, responses: set<Key>, k: Key)
    ensures CascadeResponses(CascadeResponses(db, responses), {k}) == CascadeResponses(db, responses + {k})
  {
    var twice, once := CascadeResponses(CascadeResponses(db, responses), {k}), CascadeResponses(db, responses + {k});
    assert forall r: Resolution :: Nulled(Nulled(r, responses), {k}) == Nulled(r, responses + {k});
    assert twice.resolutions.Keys == once.resolutions.Keys;
    assert twice.resolutions == once.resolutions;
    assert twice.citations == once.citations;
  }

  lemma {:induction false} UpsertCheckedOverlays<V>(
    t: map<Key, V>, rows: seq<Put<V>>, refers: V -> bool, src: map<Key, V>)
    requires From(rows, src) && forall k | k in src :: refers(src[k])
    ensures UpsertChecked(t, rows, refers) == Some(Overlay(t, src, KeysOf(rows)))
  {
    if rows == [] {
      assert Overlay(t, src, KeysOf(rows)) == t;
    } else {
      var n := |rows| - 1;
      UpsertCheckedOverlays(t, rows[..n], refers, src);
      assert KeysOf(rows) == KeysOf(rows[..n]) + {rows[n].key};
      assert Overlay(t, src, KeysOf(rows[..n]))[rows[n].key := rows[n].row] == Overlay(t, src, KeysOf(rows));
    }
  }

  // --- Replace-sets, document by document -----------------------------------------------------

  /** The replace-sets of `h` for some documents, in order. */
  function SetsOf(h: Derived, order: seq<Key>): seq<Put<SetRows>> {
    seq(|order|, i requires 0 <= i < |order| => Put(order[i], SetOf(h, order[i])))
  }

  /** `d` with the rows of `docs` taken from `h`. */
  function Replaced(d: Derived, h: Derived, docs: set<Key>): Derived {
    var kept, taken := Drop(d, docs), Only(h, docs);
    Derived(kept.rows + taken.rows, kept.embeddings + taken.embeddings)
  }

  /** A row that `h` gives to `doc` is still held, in `d`, by a document outside `done`. */
  ghost predicate ClashOn(d: Derived, h: Derived, done: set<Key>, doc: Key) {
    exists k :: k in h.rows && k in d.rows && h.rows[k].doc == doc && d.rows[k].doc !in done
  }

  /** Some document's turn comes while a row it has to take is held by one whose turn has not come. */
  ghost predicate Clashes(d: Derived, h: Derived, order: seq<Key>) {
    && order != []
    && (Clashes(d, h, order[..|order| - 1]) || ClashOn(d, h, Elements(order), order[|order| - 1]))
  }

  predicate Distinct(order: seq<Key>) {
    forall i, j | 0 <= i < j < |order| :: order[i] != order[j]
  }

  /** Replacing documents one after another fails exactly on a clash, and otherwise takes all their rows from
      `h`: the order matters only for rows that move between documents. */
  lemma {:induction false} ReplaceAllExactly(d: Derived, h: Derived, docs: set<Key>, order: seq<Key>)
    requires DerivedRefers(h, docs) && d.embeddings.Keys <= d.rows.Keys && Distinct(order)
    ensures ReplaceAll(d, docs, SetsOf(h, order)) ==
      if Clashes(d, h, order) then None else Some(Replaced(d, h, Elements(order)))
  {
    if order == [] {
      assert Elements(order) == {};
      ReplacedNone(d, h);
    } else {
      var n := |order| - 1;
      var done := Elements(order[..n]);
      var sets := SetsOf(h, order);
      ReplaceAllExactly(d, h, docs, order[..n]);
      assert sets[..n] == SetsOf(h, order[..n]) && sets[n] == Put(order[n], SetOf(h, order[n]));
      if !Clashes(d, h, order[..n]) {
        assert Elements(order) == done + {order[n]} && order[n] !in done by {
          LastElement(order);
        }
        NoOverlap(d, h, order[..n]);
        ReplaceOne(d, h, docs, done, order[n]);
      }
    }
  }

  lemma LastElement(order: seq<Key>)
    requires order != [] && Distinct(order)
    ensures var done, last := Elements(order[..|order| - 1]), order[|order| - 1];
      Elements(order) == done + {last} && last !in done
  {
  }

  lemma ReplacedNone(d: Derived, h: Derived)
    ensures Replaced(d, h, {}) == d
  {
  }

  /** Without a clash, rows taken from `h` so far are not held by anyone else. */
  lemma {:induction false} NoOverlap(d: Derived, h: Derived, order: seq<Key>)
    requires !Clashes(d, h, order)
    ensures forall k | k in h.rows && OwnedBy(h, k, Elements(order)) && k in d.rows :: OwnedBy(d, k, Elements(order))
  {
    if order == [] {
      assert Elements(order) == {};
    } else {
      var n := |order| - 1;
      NoOverlap(d, h, order[..n]);
      assert Elements(order) == Elements(order[..n]) + {order[n]};
    }
  }

  /** A key is still taken exactly when the document clashes on it. */
  lemma TakenIsClash(d: Derived, h: Derived, done: set<Key>, doc: Key, k: Key)
    requires doc !in done && (k in h.rows && OwnedBy(h, k, done) && k in d.rows ==> OwnedBy(d, k, done))
    ensures k in SetOf(h, doc).rows && k in Drop(Replaced(d, h, done), {doc}).rows <==>
      k in h.rows && k in d.rows && h.rows[k].doc == doc && d.rows[k].doc !in done + {doc}
  {
  }

  lemma ReplaceOne(d: Derived, h: Derived, docs: set<Key>, done: set<Key>, doc: Key)
    requires DerivedRefers(h, docs) && d.embeddings.Keys <= d.rows.Keys && doc !in done
    requires forall k | k in h.rows && OwnedBy(h, k, done) && k in d.rows :: OwnedBy(d, k, done)
    ensures ReplaceDerived(Replaced(d, h, done), docs, doc, SetOf(h, doc)) ==
      if ClashOn(d, h, done + {doc}, doc) then None else Some(Replaced(d, h, done + {doc}))
  {
    var s := SetOf(h, doc);
    var kept := Drop(Replaced(d, h, done), {doc});
    assert s.rows == map[] || doc in docs by {
      if s.rows.Keys != {} {
        var k :| k in s.rows.Keys;
      }
    }
    forall k ensures k in s.rows && k in kept.rows <==>
      k in h.rows && k in d.rows && h.rows[k].doc == doc && d.rows[k].doc !in done + {doc}
    {
      TakenIsClash(d, h, done, doc, k);
    }
    if !ClashOn(d, h, done + {doc}, doc) {
      ReplaceFits(d, h, docs, done, doc);
    }
  }

  lemma ReplaceFits(d: Derived, h: Derived, docs: set<Key>, done: set<Key>, doc: Key)
    requires SetOf(h, doc).rows == map[] || doc in docs
    requires forall k | k in SetOf(h, doc).rows :: k !in Drop(Replaced(d, h, done), {doc}).rows
    requires doc !in done && h.embeddings.Keys <= h.rows.Keys && d.embeddings.Keys <= d.rows.Keys
    requires forall k | k in h.rows && OwnedBy(h, k, done) && k in d.rows :: OwnedBy(d, k, done)
    requires !ClashOn(d, h, done + {doc}, doc)
    ensures ReplaceDerived(Replaced(d, h, done), docs, doc, SetOf(h, doc)) == Some(Replaced(d, h, done + {doc}))
  {
    RowsFit(d, h, done, doc);
    EmbeddingsFit(d, h, done, doc);
    EmbeddingsFree(d, h, done, doc);
    SetFits(d, h, done, doc);
  }

  lemma RowFits(d: Derived, h: Derived, done: set<Key>, doc: Key, k: Key)
    requires doc !in done && !ClashOn(d, h, done + {doc}, doc)
    requires k in h.rows && OwnedBy(h, k, done) && k in d.rows ==> OwnedBy(d, k, done)
    ensures var rows, next :=
        Inserted(Drop(Replaced(d, h, done), {doc}).rows, doc, SetOf(h, doc).rows), Replaced(d, h, done + {doc}).rows;
      (k in rows <==> k in next) && (k in rows ==> rows[k] == next[k])
  {
  }

  lemma RowsFit(d: Derived, h: Derived, done: set<Key>, doc: Key)
    requires doc !in done && !ClashOn(d, h, done + {doc}, doc)
    requires forall k | k in h.rows && OwnedBy(h, k, done) && k in d.rows :: OwnedBy(d, k, done)
    ensures Inserted(Drop(Replaced(d, h, done), {doc}).rows, doc, SetOf(h, doc).rows) == Replaced(d, h, done + {doc}).rows
  {
    var rows, next :=
      Inserted(Drop(Replaced(d, h, done), {doc}).rows, doc, SetOf(h, doc).rows), Replaced(d, h, done + {doc}).rows;
    forall k ensures (k in rows <==> k in next) && (k in rows ==> rows[k] == next[k]) {
      RowFits(d, h, done, doc, k);
    }
  }

  lemma EmbeddingFits(d: Derived, h: Derived, done: set<Key>, doc: Key, k: Key)
    requires doc !in done && !ClashOn(d, h, done + {doc}, doc)
    requires k in h.embeddings ==> k in h.rows
    requires k in d.embeddings ==> k in d.rows
    requires k in h.rows && OwnedBy(h, k, done) && k in d.rows ==> OwnedBy(d, k, done)
    ensures var kept, taken := Drop(Replaced(d, h, done), {doc}).embeddings, SetOf(h, doc).embeddings;
      var next := Replaced(d, h, done + {doc}).embeddings;
      && (k in kept + taken <==> k in next) && (k in next ==> (kept + taken)[k] == next[k])
      && (k in taken ==> k in SetOf(h, doc).rows && k !in kept)
  {
  }

  lemma EmbeddingsFit(d: Derived, h: Derived, done: set<Key>, doc: Key)
    requires doc !in done && !ClashOn(d, h, done + {doc}, doc)
    requires h.embeddings.Keys <= h.rows.Keys && d.embeddings.Keys <= d.rows.Keys
    requires forall k | k in h.rows && OwnedBy(h, k, done) && k in d.rows :: OwnedBy(d, k, done)
    ensures Drop(Replaced(d, h, done), {doc}).embeddings + SetOf(h, doc).embeddings == Replaced(d, h, done + {doc}).embeddings
  {
    var kept, taken := Drop(Replaced(d, h, done), {doc}).embeddings, SetOf(h, doc).embeddings;
    var next := Replaced(d, h, done + {doc}).embeddings;
    forall k ensures Agree(kept + taken, next, k) {
      EmbeddingFits(d, h, done, doc, k);
    }
    Extensional(kept + taken, next);
  }

  predicate Agree<V(==)>(a: map<Key, V>, b: map<Key, V>, k: Key) {
    (k in a <==> k in b) && (k in a ==> a[k] == b[k])
  }

  lemma Extensional<V>(a: map<Key, V>, b: map<Key, V>)
    requires forall k :: Agree(a, b, k)
    ensures a == b
  {
    forall k ensures k in a <==> k in b {
      assert Agree(a, b, k);
    }
    assert a.Keys == b.Keys;
    forall k | k in a ensures a[k] == b[k] {
      assert Agree(a, b, k);
    }
    assert a == b;
  }

  lemma EmbeddingsFree(d: Derived, h: Derived, done: set<Key>, doc: Key)
    requires doc !in done && !ClashOn(d, h, done + {doc}, doc)
    requires h.embeddings.Keys <= h.rows.Keys && d.embeddings.Keys <= d.rows.Keys
    requires forall k | k in h.rows && OwnedBy(h, k, done) && k in d.rows :: OwnedBy(d, k, done)
    ensures forall k | k in SetOf(h, doc).embeddings ::
      k in SetOf(h, doc).rows && k !in Drop(Replaced(d, h, done), {doc}).embeddings
  {
  }

  lemma SetFitsAt(d: Derived, h: Derived, done: set<Key>, doc: Key, k: Key)
    requires doc !in done && !ClashOn(d, h, done + {doc}, doc)
    requires k in h.embeddings ==> k in h.rows
    requires k in d.embeddings ==> k in d.rows
    ensures var next, s := SetOf(Replaced(d, h, done + {doc}), doc), SetOf(h, doc);
      && (k in next.rows <==> k in s.rows) && (k in s.rows ==> next.rows[k] == s.rows[k])
      && (k in next.embeddings <==> k in s.embeddings) && (k in s.embeddings ==> next.embeddings[k] == s.embeddings[k])
  {
  }

  lemma SetFits(d: Derived, h: Derived, done: set<Key>, doc: Key)
    requires doc !in done && h.embeddings.Keys <= h.rows.Keys && d.embeddings.Keys <= d.rows.Keys
    requires !ClashOn(d, h, done + {doc}, doc)
    ensures SetOf(Replaced(d, h, done + {doc}), doc) == SetOf(h, doc)
  {
    var next, s := SetOf(Replaced(d, h, done + {doc}), doc), SetOf(h, doc);
    forall k
      ensures (k in next.rows <==> k in s.rows) && (k in s.rows ==> next.rows[k] == s.rows[k])
      ensures (k in next.embeddings <==> k in s.embeddings) && (k in s.embeddings ==> next.embeddings[k] == s.embeddings[k])
    {
      SetFitsAt(d, h, done, doc, k);
    }
    assert next.rows == s.rows && next.embeddings == s.embeddings;
  }

  // --- What a deletion takes along --------------------------------------------------------------

  predicate Part<V(==)>(a: map<Key, V>, b: map<Key, V>) {
    forall k | k in a :: k in b && a[k] == b[k]
  }

  /** Every row of `a` is a row of `b`. */
  predicate PartOf(a: Db, b: Db) {
    && Part(a.documents, b.documents) && Part(a.responses, b.responses) && Part(a.edges, b.edges)
    && Part(a.roots, b.roots) && Part(a.resolutions, b.resolutions) && Part(a.citations, b.citations)
    && Part(a.chunks.rows, b.chunks.rows) && Part(a.chunks.embeddings, b.chunks.embeddings)
    && Part(a.zones.rows, b.zones.rows) && Part(a.zones.embeddings, b.zones.embeddings)
    && Part(a.decisionZones, b.decisionZones)
  }

  /** Deleting documents leaves a consistent database, and takes no row along that a consistent one without those
      documents could keep. */
  lemma CascadeIsSmallest(db: Db, docs: set<Key>, kept: Db)
    requires Consistent(db) && Consistent(kept) && PartOf(kept, db) && kept.documents.Keys !! docs
    ensures Consistent(CascadeDocuments(db, docs)) && PartOf(CascadeDocuments(db, docs), db)
    ensures CascadeDocuments(db, docs).documents.Keys !! docs && PartOf(kept, CascadeDocuments(db, docs))
  {
  }
}
