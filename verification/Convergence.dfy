/** What applying a built incremental does to a client that stands where the window starts. */
module Convergence {
  import opened Wrappers
  import opened Replica
  import opened ReplicaLaws
  import opened SortedKeys
  import opened Incremental

  // --- What the outbox owes the builder -------------------------------------------------------

  /** What the deletions since `lo` leave of it: deleting a document or an archived response on the producer
      cascades there as it does on the client. */
  function Survivors(lo: Db, hi: Db): Db {
    CascadeResponses(CascadeDocuments(lo, lo.documents.Keys - hi.documents.Keys), lo.responses.Keys - hi.responses.Keys)
  }

  predicate Same<V(==)>(a: map<Key, V>, b: map<Key, V>, k: Key) {
    (k in a <==> k in b) && (k in a ==> a[k] == b[k])
  }

  /** Every key whose row differs is in `keys`. */
  ghost predicate DiffersWithin<V>(a: map<Key, V>, b: map<Key, V>, keys: set<Key>) {
    forall k | k in a || k in b :: Same(a, b, k) || k in keys
  }

  /** Every derived row that differs has all its owners in `wide`, every embedding that differs in `docs`. */
  ghost predicate DerivedWithin(d: Derived, h: Derived, wide: set<Key>, docs: set<Key>) {
    && (forall k | k in d.rows || k in h.rows :: Same(d.rows, h.rows, k) || OwnersIn(d, h, wide, k))
    && (forall k | k in d.embeddings || k in h.embeddings :: Same(d.embeddings, h.embeddings, k) || OwnersIn(d, h, docs, k))
  }

  predicate OwnersIn(d: Derived, h: Derived, docs: set<Key>, k: Key) {
    (k in d.rows ==> d.rows[k].doc in docs) && (k in h.rows ==> h.rows[k].doc in docs)
  }

  /** Every row that differs between the producer at `lo`, less what the deletions took, and at `hi` has its
      scope among the touched ones.  Edges and citations that only vanished are not asked for. */
  ghost predicate Covers(lo: Db, hi: Db, t: Touched) {
    CoversButZones(lo, hi, t) && DerivedWithin(Survivors(lo, hi).zones, hi.zones, t.zones, t.zones)
  }

  ghost predicate CoversButZones(lo: Db, hi: Db, t: Touched) {
    var s := Survivors(lo, hi);
    && DiffersWithin(lo.documents, hi.documents, t.documents)
    && DiffersWithin(lo.responses, hi.responses, t.responses)
    && DiffersWithin(s.roots, hi.roots, t.roots)
    && DiffersWithin(s.resolutions, hi.resolutions, t.resolutions)
    && (forall k | k in hi.edges :: Same(s.edges, hi.edges, k) || EdgeStarts(hi.edges[k], t.documents))
    && (forall k | k in hi.citations :: Same(s.citations, hi.citations, k) || hi.citations[k].decision in t.citations)
    && DerivedWithin(s.chunks, hi.chunks, t.WideChunks(), t.WideChunks() + t.embeddings)
    && DiffersWithin(s.decisionZones, hi.decisionZones, t.decisionZones)
  }

  predicate EdgeStarts(e: Edge, docs: set<Key>) {
    e.from in docs
  }

  // --- What the files hold --------------------------------------------------------------------

  lemma {:induction false} PresentHolds<V>(t: map<Key, V>, keys: seq<Key>)
    ensures From(Present(t, keys), t)
    ensures KeysOf(Present(t, keys)) == Elements(keys) * t.Keys
    ensures Elements(Vanished(t, keys)) == Elements(keys) - t.Keys
  {
    if keys == [] {
      assert Elements(keys) == {} && KeysOf(Present(t, keys)) == {} && Elements(Vanished(t, keys)) == {};
    } else {
      var n := |keys| - 1;
      PresentHolds(t, keys[..n]);
      ElementsJoin(keys[..n], [keys[n]]);
      assert keys[..n] + [keys[n]] == keys;
      OneElement(keys[n]);
      if keys[n] in t {
        var put := Put(keys[n], t[keys[n]]);
        KeysJoin(Present(t, keys[..n]), [put]);
        OneKey(put);
        assert KeysOf(Present(t, keys)) == KeysOf(Present(t, keys[..n])) + {keys[n]};
        assert Vanished(t, keys) == Vanished(t, keys[..n]);
      } else {
        ElementsJoin(Vanished(t, keys[..n]), [keys[n]]);
        assert Present(t, keys) == Present(t, keys[..n]);
      }
    }
  }

  lemma ElementsJoin(a: seq<Key>, b: seq<Key>)
    ensures Elements(a + b) == Elements(a) + Elements(b)
  {
    forall k | k in Elements(b) ensures k in Elements(a + b) {
      var i :| 0 <= i < |b| && b[i] == k;
      assert (a + b)[|a| + i] == k;
    }
    forall k | k in Elements(a) ensures k in Elements(a + b) {
      var i :| 0 <= i < |a| && a[i] == k;
      assert (a + b)[i] == k;
    }
  }

  lemma OneElement(k: Key)
    ensures Elements([k]) == {k}
  {
    assert [k][0] == k;
  }

  lemma OneKey<V>(put: Put<V>)
    ensures KeysOf([put]) == {put.key}
  {
    assert [put][0].key == put.key;
  }

  lemma KeysJoin<V>(a: seq<Put<V>>, b: seq<Put<V>>)
    ensures KeysOf(a + b) == KeysOf(a) + KeysOf(b)
  {
    forall k | k in KeysOf(b) ensures k in KeysOf(a + b) {
      var i :| 0 <= i < |b| && b[i].key == k;
      assert (a + b)[|a| + i].key == k;
    }
    forall k | k in KeysOf(a) ensures k in KeysOf(a + b) {
      var i :| 0 <= i < |a| && a[i].key == k;
      assert (a + b)[i].key == k;
    }
  }

  lemma DiffHolds<V>(t: map<Key, V>, keys: set<Key>)
    ensures From(DiffOf(t, keys).upserts, t)
    ensures KeysOf(DiffOf(t, keys).upserts) == keys * t.Keys
    ensures Elements(DiffOf(t, keys).deletes) == keys - t.Keys
  {
    SortedIsSorted(keys);
    PresentHolds(t, Sorted(keys));
  }

  lemma {:induction false} EdgesHold(edges: map<Key, Edge>, docs: seq<Key>)
    ensures From(EdgesOf(edges, docs), edges)
    ensures KeysOf(EdgesOf(edges, docs)) == set k | k in edges && EdgeStarts(edges[k], Elements(docs))
  {
    if docs == [] {
      assert Elements(docs) == {} && KeysOf(EdgesOf(edges, docs)) == {};
    } else {
      var n := |docs| - 1;
      EdgesHold(edges, docs[..n]);
      ElementsJoin(docs[..n], [docs[n]]);
      assert docs[..n] + [docs[n]] == docs && Elements([docs[n]]) == {docs[n]};
      var mine := set k | k in edges && edges[k].from == docs[n];
      SortedIsSorted(mine);
      PresentHolds(edges, Sorted(mine));
      KeysJoin(EdgesOf(edges, docs[..n]), EdgesFrom(edges, docs[n]));
    }
  }

  lemma {:induction false} CitationsHold(citations: map<Key, Citation>, docs: seq<Key>)
    ensures From(CitationsOf(citations, docs), citations)
    ensures KeysOf(CitationsOf(citations, docs)) == set k | k in citations && citations[k].decision in Elements(docs)
  {
    if docs == [] {
      assert Elements(docs) == {} && KeysOf(CitationsOf(citations, docs)) == {};
    } else {
      var n := |docs| - 1;
      CitationsHold(citations, docs[..n]);
      ElementsJoin(docs[..n], [docs[n]]);
      assert docs[..n] + [docs[n]] == docs && Elements([docs[n]]) == {docs[n]};
      var mine := set k | k in citations && citations[k].decision == docs[n];
      SortedIsSorted(mine);
      PresentHolds(citations, Sorted(mine));
      KeysJoin(CitationsOf(citations, docs[..n]), CitationsFrom(citations, docs[n]));
    }
  }

  // --- Base tables ----------------------------------------------------------------------------

  /** Upserting the present rows and deleting the vanished ones of every key that differs gives the new
      table. */
  lemma TableConverges<V>(a: map<Key, V>, b: map<Key, V>, keys: set<Key>)
    requires DiffersWithin(a, b, keys)
    ensures Overlay(a, b, keys * b.Keys) - (keys - b.Keys) == b
  {
    var r := Overlay(a, b, keys * b.Keys) - (keys - b.Keys);
    forall k ensures Agree(r, b, k) {
      assert (k in a || k in b) ==> Same(a, b, k) || k in keys;
    }
    Extensional(r, b);
  }

  lemma SameCascade(db: Db, x: set<Key>, y: set<Key>)
    requires Consistent(db) && x * db.documents.Keys == y * db.documents.Keys
    ensures CascadeDocuments(db, x).(documents := map[]) == CascadeDocuments(db, y).(documents := map[])
  {
    forall k | k in db.documents ensures k in x <==> k in y {
      assert k in x * db.documents.Keys <==> k in y * db.documents.Keys;
    }
    var a, b := CascadeDocuments(db, x), CascadeDocuments(db, y);
    forall k | k in db.edges ensures EdgeAvoids(db.edges[k], x) <==> EdgeAvoids(db.edges[k], y) {
      assert EdgeRefers(db.edges[k], db.documents.Keys);
    }
    assert a.edges == b.edges;
    forall k | k in db.citations ensures db.citations[k].decision in x <==> db.citations[k].decision in y {
      assert CitationRefers(db.citations[k], db.documents.Keys, db.responses.Keys);
    }
    assert a.citations.Keys == b.citations.Keys;
    SameDrop(db.chunks, db.documents.Keys, x, y);
    SameDrop(db.zones, db.documents.Keys, x, y);
    assert a.decisionZones == b.decisionZones;
  }

  lemma SameDrop(d: Derived, docs: set<Key>, x: set<Key>, y: set<Key>)
    requires DerivedRefers(d, docs) && forall k | k in docs :: k in x <==> k in y
    ensures Drop(d, x) == Drop(d, y)
  {
  }

  /** References to responses stay within `keys`. */
  predicate Responds(db: Db, keys: set<Key>) {
    && (forall k | k in db.citations :: db.citations[k].response in keys)
    && (forall k | k in db.resolutions :: ResolutionRefers(db.resolutions[k], keys))
  }

  lemma SameResponses(db: Db, keys: set<Key>, x: set<Key>, y: set<Key>)
    requires Responds(db, keys) && x * keys == y * keys
    ensures CascadeResponses(db, x).(responses := map[]) == CascadeResponses(db, y).(responses := map[])
  {
    forall k | k in keys ensures k in x <==> k in y {
      assert k in x * keys <==> k in y * keys;
    }
    var a, b := CascadeResponses(db, x), CascadeResponses(db, y);
    assert forall k | k in db.resolutions :: Nulled(db.resolutions[k], x) == Nulled(db.resolutions[k], y);
    assert a.resolutions == b.resolutions;
    assert forall k | k in db.citations :: db.citations[k].response in x <==> db.citations[k].response in y;
    assert a.citations.Keys == b.citations.Keys;
  }

  /** After the first four files the client has the new documents and responses, and of everything else what
      survives the deletions. */
  lemma BaseConverges(lo: Db, hi: Db, t: Touched)
    requires Consistent(lo)
    requires DiffersWithin(lo.documents, hi.documents, t.documents)
    requires DiffersWithin(lo.responses, hi.responses, t.responses)
    ensures ApplyBase(lo, PackageOf(hi, t)) == Survivors(lo, hi).(documents := hi.documents, responses := hi.responses)
  {
    var p := PackageOf(hi, t);
    DiffHolds(hi.documents, t.documents);
    DiffHolds(hi.responses, t.responses);
    UpsertAllOverlays(lo.documents, p.documents.upserts, hi.documents);
    var d1 := lo.(documents := UpsertAll(lo.documents, p.documents.upserts));
    var gone := t.documents - hi.documents.Keys;
    DeleteDocumentsCascades(d1, p.documents.deletes);
    TableConverges(lo.documents, hi.documents, t.documents);
    GoneAlike(lo.documents, hi.documents, t.documents);
    SameCascade(lo, gone, lo.documents.Keys - hi.documents.Keys);
    var d2 := DeleteDocuments(d1, p.documents.deletes);
    assert d2 == CascadeDocuments(lo, lo.documents.Keys - hi.documents.Keys).(documents := hi.documents);
    UpsertAllOverlays(d2.responses, p.responses.upserts, hi.responses);
    var d3 := d2.(responses := UpsertAll(d2.responses, p.responses.upserts));
    DeleteResponsesCascades(d3, p.responses.deletes);
    TableConverges(lo.responses, hi.responses, t.responses);
    GoneAlike(lo.responses, hi.responses, t.responses);
    SameResponses(d3, lo.responses.Keys, t.responses - hi.responses.Keys, lo.responses.Keys - hi.responses.Keys);
  }

  lemma GoneAlike<V>(a: map<Key, V>, b: map<Key, V>, keys: set<Key>)
    requires DiffersWithin(a, b, keys)
    ensures (keys - b.Keys) * a.Keys == (a.Keys - b.Keys) * a.Keys
  {
    forall k | k in a && k !in b ensures k in keys {
      assert !Same(a, b, k);
    }
  }

  // --- Edges, roots and citations -------------------------------------------------------------

  lemma LinksConverge(base: Db, hi: Db, t: Touched)
    requires Consistent(hi) && base.documents == hi.documents && base.responses == hi.responses
    requires DiffersWithin(base.roots, hi.roots, t.roots)
    requires DiffersWithin(base.resolutions, hi.resolutions, t.resolutions)
    requires forall k | k in hi.edges :: Same(base.edges, hi.edges, k) || EdgeStarts(hi.edges[k], t.documents)
    requires forall k | k in hi.citations :: Same(base.citations, hi.citations, k) || hi.citations[k].decision in t.citations
    ensures ApplyLinks(base, PackageOf(hi, t)) ==
      Some(base.(edges := base.edges + hi.edges, roots := hi.roots, resolutions := hi.resolutions,
                 citations := base.citations + hi.citations))
  {
    var p := PackageOf(hi, t);
    var docs, responses := base.documents.Keys, base.responses.Keys;
    EdgesApply(base.edges, hi.edges, t.documents, docs);
    CitationsApply(base.citations, hi.citations, t.citations, docs, responses);
    DiffHolds(hi.roots, t.roots);
    UpsertAllOverlays(base.roots, p.roots.upserts, hi.roots);
    DeleteAllSubtracts(UpsertAll(base.roots, p.roots.upserts), p.roots.deletes);
    TableConverges(base.roots, hi.roots, t.roots);
    DiffHolds(hi.resolutions, t.resolutions);
    UpsertCheckedOverlays(base.resolutions, p.resolutions.upserts, r => ResolutionRefers(r, responses), hi.resolutions);
    DeleteAllSubtracts(Overlay(base.resolutions, hi.resolutions, KeysOf(p.resolutions.upserts)), p.resolutions.deletes);
    TableConverges(base.resolutions, hi.resolutions, t.resolutions);
  }

  lemma OverlayAdds<V>(a: map<Key, V>, b: map<Key, V>, keys: set<Key>)
    requires forall k | k in b :: Same(a, b, k) || k in keys
    ensures Overlay(a, b, keys * b.Keys) == a + b
  {
    forall k ensures Agree(Overlay(a, b, keys * b.Keys), a + b, k) {
      assert k in b ==> Same(a, b, k) || k in keys;
    }
    Extensional(Overlay(a, b, keys * b.Keys), a + b);
  }

  lemma EdgesApply(a: map<Key, Edge>, b: map<Key, Edge>, touched: set<Key>, docs: set<Key>)
    requires forall k | k in b :: EdgeRefers(b[k], docs)
    requires forall k | k in b :: Same(a, b, k) || EdgeStarts(b[k], touched)
    ensures UpsertChecked(a, EdgesOf(b, Sorted(touched)), e => EdgeRefers(e, docs)) == Some(a + b)
  {
    SortedIsSorted(touched);
    EdgesHold(b, Sorted(touched));
    UpsertCheckedOverlays(a, EdgesOf(b, Sorted(touched)), e => EdgeRefers(e, docs), b);
    var keys := KeysOf(EdgesOf(b, Sorted(touched)));
    OverlayAdds(a, b, keys);
    assert keys * b.Keys == keys;
  }

  lemma CitationsApply(a: map<Key, Citation>, b: map<Key, Citation>, touched: set<Key>, docs: set<Key>, responses: set<Key>)
    requires forall k | k in b :: CitationRefers(b[k], docs, responses)
    requires forall k | k in b :: Same(a, b, k) || b[k].decision in touched
    ensures UpsertChecked(a, CitationsOf(b, Sorted(touched)), c => CitationRefers(c, docs, responses)) == Some(a + b)
  {
    SortedIsSorted(touched);
    CitationsHold(b, Sorted(touched));
    UpsertCheckedOverlays(a, CitationsOf(b, Sorted(touched)), c => CitationRefers(c, docs, responses), b);
    var keys := KeysOf(CitationsOf(b, Sorted(touched)));
    OverlayAdds(a, b, keys);
    assert keys * b.Keys == keys;
  }
}
