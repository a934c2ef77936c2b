/** The convergence theorem: when a client accepts the package of a window, and that it then holds exactly
    the producer's tables. */
module ConvergenceTheorem {
  import opened Wrappers
  import opened Replica
  import opened ReplicaLaws
  import opened SortedKeys
  import opened Incremental
  import opened Convergence

  // --- Replace-sets in key order --------------------------------------------------------------

  /** A derived row that has moved between documents has moved to one that sorts later. */
  ghost predicate MovesForward(d: Derived, h: Derived) {
    forall k | k in d.rows && k in h.rows :: d.rows[k].doc <= h.rows[k].doc
  }

  /** A row that is taken while its old owner still holds it. */
  predicate Backward(d: Derived, h: Derived, docs: set<Key>, k: Key) {
    k in h.rows && k in d.rows && h.rows[k].doc in docs && (d.rows[k].doc !in docs || d.rows[k].doc > h.rows[k].doc)
  }

  lemma {:induction false} ClashesAreBackward(d: Derived, h: Derived, order: seq<Key>)
    requires Ascending(order)
    ensures Clashes(d, h, order) <==> exists k :: Backward(d, h, Elements(order), k)
  {
    if order == [] {
      assert Elements(order) == {};
    } else {
      var n := |order| - 1;
      ClashesAreBackward(d, h, order[..n]);
      ElementsJoin(order[..n], [order[n]]);
      OneElement(order[n]);
      assert order[..n] + [order[n]] == order;
      forall doc | doc in Elements(order[..n]) ensures doc < order[n] {
        var i :| 0 <= i < n && order[..n][i] == doc;
      }
      forall k
        ensures Backward(d, h, Elements(order), k) <==>
          Backward(d, h, Elements(order[..n]), k) ||
          (k in h.rows && k in d.rows && h.rows[k].doc == order[n] && d.rows[k].doc !in Elements(order))
      {
      }
    }
  }

  /** The rows of `h`, with the embeddings of `docs` taken from it and the others still those of `d`. */
  function Embedded(d: Derived, h: Derived, docs: set<Key>): Derived {
    Derived(h.rows, Replaced(d, h, docs).embeddings)
  }

  /** In key order the replace-sets of a covering set of documents fail exactly on a row that moved to a
      document sorting earlier; otherwise the rows become those of `h`. */
  lemma SetsConverge(d: Derived, h: Derived, docs: set<Key>, order: seq<Key>)
    requires DerivedRefers(h, docs) && d.embeddings.Keys <= d.rows.Keys && Ascending(order)
    requires forall k | k in d.rows || k in h.rows :: Same(d.rows, h.rows, k) || OwnersIn(d, h, Elements(order), k)
    ensures ReplaceAll(d, docs, SetsOf(h, order)) ==
      if MovesForward(d, h) then Some(Embedded(d, h, Elements(order))) else None
  {
    ReplaceAllExactly(d, h, docs, order);
    ClashesAreBackward(d, h, order);
    forall k | k in d.rows && k in h.rows
      ensures Backward(d, h, Elements(order), k) <==> d.rows[k].doc > h.rows[k].doc
    {
      assert Same(d.rows, h.rows, k) || OwnersIn(d, h, Elements(order), k);
    }
    var rows := Replaced(d, h, Elements(order)).rows;
    forall k ensures Agree(rows, h.rows, k) {
      assert (k in d.rows || k in h.rows) ==> Same(d.rows, h.rows, k) || OwnersIn(d, h, Elements(order), k);
    }
    Extensional(rows, h.rows);
  }

  /** The touched documents that are not skipped, in order. */
  function Unskipped(hi: Db, t: Touched, docs: seq<Key>): seq<Key> {
    if docs == [] then []
    else
      var doc := docs[|docs| - 1];
      Unskipped(hi, t, docs[..|docs| - 1]) + if Skipped(hi, t, doc) then [] else [doc]
  }

  lemma {:induction false} SkippingSets(hi: Db, t: Touched, docs: seq<Key>)
    ensures SetsWhere(hi, t, docs) == SetsOf(hi.chunks, Unskipped(hi, t, docs))
  {
    if docs != [] {
      var n := |docs| - 1;
      SkippingSets(hi, t, docs[..n]);
    }
  }

  lemma {:induction false} SkippingKeys(hi: Db, t: Touched, docs: seq<Key>)
    ensures Elements(Unskipped(hi, t, docs)) == set doc | doc in Elements(docs) && !Skipped(hi, t, doc)
  {
    if docs == [] {
      assert Elements(docs) == {} && Elements(Unskipped(hi, t, docs)) == {};
    } else {
      var n := |docs| - 1;
      SkippingKeys(hi, t, docs[..n]);
      ElementsJoin(docs[..n], [docs[n]]);
      ElementsJoin(Unskipped(hi, t, docs[..n]), [docs[n]]);
      OneElement(docs[n]);
      assert docs[..n] + [docs[n]] == docs;
      assert Skipped(hi, t, docs[n]) ==> Unskipped(hi, t, docs) == Unskipped(hi, t, docs[..n]);
    }
  }

  lemma {:induction false} SkippingKeepsOrder(hi: Db, t: Touched, docs: seq<Key>)
    requires Ascending(docs)
    ensures Ascending(Unskipped(hi, t, docs))
  {
    if docs != [] {
      var n := |docs| - 1;
      var before := Unskipped(hi, t, docs[..n]);
      SkippingKeepsOrder(hi, t, docs[..n]);
      SkippingKeys(hi, t, docs[..n]);
      forall i | 0 <= i < |before| ensures before[i] < docs[n] {
        assert before[i] in Elements(before);
        var j :| 0 <= j < n && docs[..n][j] == before[i];
      }
    }
  }

  /** Replacing only embeddings never fails once the rows they belong to are the right ones. */
  lemma {:induction false} EmbeddingsConverge(d: Derived, h: Derived, order: seq<Key>)
    requires d.rows == h.rows && d.embeddings.Keys <= d.rows.Keys && h.embeddings.Keys <= h.rows.Keys && Distinct(order)
    ensures ReplaceAllEmbeddings(d, EmbeddingSets(h, order)) == Some(Embedded(d, h, Elements(order)))
  {
    if order == [] {
      assert Elements(order) == {};
      ReplacedNone(d, h);
    } else {
      var n := |order| - 1;
      EmbeddingsConverge(d, h, order[..n]);
      LastElement(order);
      LastEmbeddingSet(h, order);
      LastEmbeddings(d, EmbeddingSets(h, order), Embedded(d, h, Elements(order[..n])));
      EmbeddingsOne(d, h, Elements(order[..n]), order[n]);
    }
  }

  lemma LastEmbeddingSet(h: Derived, order: seq<Key>)
    requires order != []
    ensures var n, sets := |order| - 1, EmbeddingSets(h, order);
      sets[..n] == EmbeddingSets(h, order[..n]) && sets[n] == Put(order[n], SetOf(h, order[n]).embeddings)
  {
  }

  lemma LastEmbeddings(d: Derived, sets: seq<Put<map<Key, int>>>, before: Derived)
    requires sets != [] && ReplaceAllEmbeddings(d, sets[..|sets| - 1]) == Some(before)
    ensures ReplaceAllEmbeddings(d, sets) == ReplaceEmbeddings(before, sets[|sets| - 1].key, sets[|sets| - 1].row)
  {
  }

  lemma EmbeddingsAt(d: Derived, h: Derived, done: set<Key>, doc: Key, k: Key)
    requires d.rows == h.rows && doc !in done
    requires (k in d.embeddings ==> k in d.rows) && (k in h.embeddings ==> k in h.rows)
    ensures var x := Embedded(d, h, done);
      var kept, taken := Drop(x, {doc}).embeddings, SetOf(h, doc).embeddings;
      var next := Embedded(d, h, done + {doc});
      && Agree(kept + taken, next.embeddings, k)
      && Agree(SetOf(next, doc).embeddings, taken, k)
      && !(k in kept && k in taken)
  {
  }

  lemma EmbeddingsOne(d: Derived, h: Derived, done: set<Key>, doc: Key)
    requires d.rows == h.rows && d.embeddings.Keys <= d.rows.Keys && h.embeddings.Keys <= h.rows.Keys && doc !in done
    ensures ReplaceEmbeddings(Embedded(d, h, done), doc, SetOf(h, doc).embeddings) == Some(Embedded(d, h, done + {doc}))
  {
    var x := Embedded(d, h, done);
    var kept, taken := Drop(x, {doc}).embeddings, SetOf(h, doc).embeddings;
    var next := Embedded(d, h, done + {doc});
    assert kept + taken == next.embeddings by {
      forall k ensures Agree(kept + taken, next.embeddings, k) {
        EmbeddingsAt(d, h, done, doc, k);
      }
      Extensional(kept + taken, next.embeddings);
    }
    assert SetOf(next, doc).embeddings == taken by {
      forall k ensures Agree(SetOf(next, doc).embeddings, taken, k) {
        EmbeddingsAt(d, h, done, doc, k);
      }
      Extensional(SetOf(next, doc).embeddings, taken);
    }
    forall k | k in taken ensures k !in kept {
      EmbeddingsAt(d, h, done, doc, k);
    }
  }

  lemma {:induction false} ZonesConverge(z: map<Key, int>, hz: map<Key, int>, docs: set<Key>, order: seq<Key>)
    requires hz.Keys <= docs
    ensures ReplaceDecisionZones(z, docs, ZoneSets(hz, order)) ==
      Some(Overlay(z, hz, Elements(order) * hz.Keys) - (Elements(order) - hz.Keys))
  {
    if order == [] {
      assert Elements(order) == {};
      assert Elements(order) * hz.Keys == {} && Elements(order) - hz.Keys == {};
      assert Overlay(z, hz, {}) == z && z - {} == z;
    } else {
      var n := |order| - 1;
      ZonesConverge(z, hz, docs, order[..n]);
      assert ZoneSets(hz, order)[..n] == ZoneSets(hz, order[..n]);
      ElementsJoin(order[..n], [order[n]]);
      OneElement(order[n]);
      assert order[..n] + [order[n]] == order;
      ZonesOne(z, hz, Elements(order[..n]), order[n]);
    }
  }

  lemma ZonesOne(z: map<Key, int>, hz: map<Key, int>, done: set<Key>, doc: Key)
    ensures var before := Overlay(z, hz, done * hz.Keys) - (done - hz.Keys);
      (if doc in hz then before[doc := hz[doc]] else before - {doc})
        == Overlay(z, hz, (done + {doc}) * hz.Keys) - ((done + {doc}) - hz.Keys)
  {
  }

  // --- The theorem ----------------------------------------------------------------------------

  lemma SurvivorsRefer(lo: Db, hi: Db)
    requires Consistent(lo)
    ensures DerivedRefers(Survivors(lo, hi).chunks, hi.documents.Keys)
    ensures DerivedRefers(Survivors(lo, hi).zones, hi.documents.Keys)
  {
  }

  lemma WideConverges(d: Derived, hi: Db, t: Touched) returns (wide: set<Key>)
    requires DerivedRefers(d, hi.documents.Keys) && DerivedRefers(hi.chunks, hi.documents.Keys)
    requires DerivedWithin(d, hi.chunks, t.WideChunks(), t.WideChunks() + t.embeddings)
    ensures wide == set doc | doc in t.WideChunks() && !Skipped(hi, t, doc)
    ensures ReplaceAll(d, hi.documents.Keys, SetsWhere(hi, t, Sorted(t.WideChunks()))) ==
      if MovesForward(d, hi.chunks) then Some(Embedded(d, hi.chunks, wide)) else None
  {
    var order := Unskipped(hi, t, Sorted(t.WideChunks()));
    SortedIsSorted(t.WideChunks());
    SkippingSets(hi, t, Sorted(t.WideChunks()));
    SkippingKeys(hi, t, Sorted(t.WideChunks()));
    SkippingKeepsOrder(hi, t, Sorted(t.WideChunks()));
    SetsConverge(d, hi.chunks, hi.documents.Keys, order);
    wide := Elements(order);
  }

  lemma ChunksConverge(d: Derived, hi: Db, t: Touched)
    requires DerivedRefers(d, hi.documents.Keys) && DerivedRefers(hi.chunks, hi.documents.Keys)
    requires DerivedWithin(d, hi.chunks, t.WideChunks(), t.WideChunks() + t.embeddings)
    ensures var wide := ReplaceAll(d, hi.documents.Keys, SetsWhere(hi, t, Sorted(t.WideChunks())));
      if !MovesForward(d, hi.chunks) then wide == None
      else wide.Some? && ReplaceAllEmbeddings(wide.value, EmbeddingSets(hi.chunks, Sorted(t.NarrowChunks()))) == Some(hi.chunks)
  {
    var h := hi.chunks;
    var wide := WideConverges(d, hi, t);
    var x := Embedded(d, h, wide);
    SortedIsSorted(t.NarrowChunks());
    EmbeddingsConverge(x, h, Sorted(t.NarrowChunks()));
    forall k ensures Agree(Embedded(x, h, t.NarrowChunks()).embeddings, h.embeddings, k) {
      LastEmbeddingAgrees(d, hi, t, wide, k);
    }
    Extensional(Embedded(x, h, t.NarrowChunks()).embeddings, h.embeddings);
  }

  lemma LastEmbeddingAgrees(d: Derived, hi: Db, t: Touched, wide: set<Key>, k: Key)
    requires DerivedRefers(d, hi.documents.Keys) && DerivedRefers(hi.chunks, hi.documents.Keys)
    requires DerivedWithin(d, hi.chunks, t.WideChunks(), t.WideChunks() + t.embeddings)
    requires wide == set doc | doc in t.WideChunks() && !Skipped(hi, t, doc)
    ensures Agree(Embedded(Embedded(d, hi.chunks, wide), hi.chunks, t.NarrowChunks()).embeddings, hi.chunks.embeddings, k)
  {
  }

  lemma ZoneUnitsConverge(d: Derived, hi: Db, t: Touched)
    requires DerivedRefers(d, hi.documents.Keys) && DerivedRefers(hi.zones, hi.documents.Keys)
    requires DerivedWithin(d, hi.zones, t.zones, t.zones)
    ensures ReplaceAll(d, hi.documents.Keys, SetsOf(hi.zones, Sorted(t.zones))) ==
      if MovesForward(d, hi.zones) then Some(hi.zones) else None
  {
    var h := hi.zones;
    SortedIsSorted(t.zones);
    SetsConverge(d, h, hi.documents.Keys, Sorted(t.zones));
    forall k ensures Agree(Embedded(d, h, t.zones).embeddings, h.embeddings, k) {
      assert k in d.rows || k in h.rows ==> Same(d.rows, h.rows, k) || OwnersIn(d, h, t.zones, k);
      assert k in d.embeddings || k in h.embeddings ==> Same(d.embeddings, h.embeddings, k) || OwnersIn(d, h, t.zones, k);
    }
    Extensional(Embedded(d, h, t.zones).embeddings, h.embeddings);
  }

  lemma DecisionsConverge(z: map<Key, int>, hi: Db, t: Touched)
    requires DiffersWithin(z, hi.decisionZones, t.decisionZones) && hi.decisionZones.Keys <= hi.documents.Keys
    ensures ReplaceDecisionZones(z, hi.documents.Keys, ZoneSets(hi.decisionZones, Sorted(t.decisionZones))) ==
      Some(hi.decisionZones)
  {
    SortedIsSorted(t.decisionZones);
    ZonesConverge(z, hi.decisionZones, hi.documents.Keys, Sorted(t.decisionZones));
    TableConverges(z, hi.decisionZones, t.decisionZones);
  }

  /** Neither chunks nor zone units moved to a document that sorts earlier. */
  ghost predicate Orderly(lo: Db, hi: Db) {
    MovesForward(Survivors(lo, hi).chunks, hi.chunks) && MovesForward(Survivors(lo, hi).zones, hi.zones)
  }

  lemma SetsApply(linked: Db, hi: Db, t: Touched)
    requires linked.documents == hi.documents && Consistent(hi)
    requires DerivedRefers(linked.chunks, hi.documents.Keys) && DerivedRefers(linked.zones, hi.documents.Keys)
    requires DerivedWithin(linked.chunks, hi.chunks, t.WideChunks(), t.WideChunks() + t.embeddings)
    requires DerivedWithin(linked.zones, hi.zones, t.zones, t.zones)
    requires DiffersWithin(linked.decisionZones, hi.decisionZones, t.decisionZones)
    ensures ApplySets(linked, PackageOf(hi, t)) ==
      if MovesForward(linked.chunks, hi.chunks) && MovesForward(linked.zones, hi.zones)
      then Some(linked.(chunks := hi.chunks, zones := hi.zones, decisionZones := hi.decisionZones))
      else None
  {
    ChunksConverge(linked.chunks, hi, t);
    ZoneUnitsConverge(linked.zones, hi, t);
    DecisionsConverge(linked.decisionZones, hi, t);
  }

  /** Convergence: for a window that covers what changed, applying the files to a client equal to the producer
      at `lo` gives the producer at `hi` on every table but edges and citations, where it also keeps what
      survives of `lo`; the apply fails exactly when a derived row moved to a document that sorts earlier. */
  lemma FilesConverge(lo: Db, hi: Db, t: Touched)
    requires Consistent(lo) && Consistent(hi) && Covers(lo, hi, t)
    ensures ApplyFiles(lo, PackageOf(hi, t)) ==
      if Orderly(lo, hi) then
        Some(hi.(edges := Survivors(lo, hi).edges + hi.edges, citations := Survivors(lo, hi).citations + hi.citations))
      else None
  {
    var s := Survivors(lo, hi);
    var p := PackageOf(hi, t);
    BaseConverges(lo, hi, t);
    var base := s.(documents := hi.documents, responses := hi.responses);
    LinksConverge(base, hi, t);
    SurvivorsRefer(lo, hi);
    var linked := base.(edges := s.edges + hi.edges, roots := hi.roots, resolutions := hi.resolutions,
                        citations := s.citations + hi.citations);
    SetsApply(linked, hi, t);
  }

  /** Every edge and every citation that survived the deletions still exists. */
  predicate NothingVanished(lo: Db, hi: Db) {
    Survivors(lo, hi).edges.Keys <= hi.edges.Keys && Survivors(lo, hi).citations.Keys <= hi.citations.Keys
  }

  /** The client accepts such a package exactly when the move condition holds and no edge or citation merely
      vanished, because the postconditions are taken over those two tables as well; it then holds exactly the
      producer's tables. */
  lemma PackageConverges(lo: Db, hi: Db, t: Touched)
    requires Consistent(lo) && Consistent(hi) && Covers(lo, hi, t)
    ensures ApplyPackage(lo, PackageOf(hi, t)) == if Orderly(lo, hi) && NothingVanished(lo, hi) then Some(hi) else None
  {
    FilesConverge(lo, hi, t);
    var s := Survivors(lo, hi);
    MergeIsNew(s.edges, hi.edges);
    MergeIsNew(s.citations, hi.citations);
  }

  lemma MergeIsNew<V>(a: map<Key, V>, b: map<Key, V>)
    ensures a + b == b <==> a.Keys <= b.Keys
  {
  }

  /** Naming the scope of every row that differs outright is more than enough. */
  lemma PlainCoverageSuffices(lo: Db, hi: Db, t: Touched)
    requires Consistent(lo) && Consistent(hi)
    requires DiffersWithin(lo.documents, hi.documents, t.documents)
    requires DiffersWithin(lo.responses, hi.responses, t.responses)
    requires DiffersWithin(lo.roots, hi.roots, t.roots)
    requires DiffersWithin(lo.resolutions, hi.resolutions, t.resolutions)
    requires forall k | k in hi.edges :: Same(lo.edges, hi.edges, k) || EdgeStarts(hi.edges[k], t.documents)
    requires forall k | k in hi.citations :: Same(lo.citations, hi.citations, k) || hi.citations[k].decision in t.citations
    requires DerivedWithin(lo.chunks, hi.chunks, t.WideChunks(), t.WideChunks() + t.embeddings)
    requires DerivedWithin(lo.zones, hi.zones, t.zones, t.zones)
    requires DiffersWithin(lo.decisionZones, hi.decisionZones, t.decisionZones)
    ensures Covers(lo, hi, t)
  {
    var s := Survivors(lo, hi);
    DerivedSurvives(lo.chunks, hi.chunks, lo.documents.Keys, hi.documents.Keys, t.WideChunks(), t.WideChunks() + t.embeddings);
    DerivedSurvives(lo.zones, hi.zones, lo.documents.Keys, hi.documents.Keys, t.zones, t.zones);
  }

  lemma DerivedSurvives(d: Derived, h: Derived, before: set<Key>, now: set<Key>, wide: set<Key>, docs: set<Key>)
    requires DerivedRefers(d, before) && DerivedRefers(h, now) && wide <= docs && DerivedWithin(d, h, wide, docs)
    ensures DerivedWithin(Drop(d, before - now), h, wide, docs)
  {
  }
}
