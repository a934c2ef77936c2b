/** Consequences of the convergence theorem for a client that follows a chain of packages, and the windows
    that a client cannot follow. */
module Catchup {
  import opened Wrappers
  import opened Replica
  import opened ReplicaLaws
  import opened SortedKeys
  import opened Incremental
  import opened Convergence
  import opened ConvergenceTheorem

  /** One package after another; the first rejection ends it. */
  function ApplyAll<S, P>(apply: (S, P) -> Option<S>, s: S, packages: seq<P>): Option<S> {
    if packages == [] then Some(s)
    else match ApplyAll(apply, s, packages[..|packages| - 1])
      case None => None
      case Some(before) => apply(before, packages[|packages| - 1])
  }

  /** Package `i` takes one state to the next, or is rejected when it is not good. */
  ghost predicate StepsTo<S, P>(apply: (S, P) -> Option<S>, states: seq<S>, packages: seq<P>, good: seq<bool>, i: nat)
    requires |states| == |packages| + 1 == |good| + 1 && i < |packages|
  {
    apply(states[i], packages[i]) == if good[i] then Some(states[i + 1]) else None
  }

  lemma {:induction false} AllOrNothing<S, P>(apply: (S, P) -> Option<S>, states: seq<S>, packages: seq<P>, good: seq<bool>)
    requires |states| == |packages| + 1 == |good| + 1
    requires forall i: nat | i < |packages| :: StepsTo(apply, states, packages, good, i)
    ensures ApplyAll(apply, states[0], packages) ==
      if forall i | 0 <= i < |good| :: good[i] then Some(states[|packages|]) else None
    decreases |packages|
  {
    if packages != [] {
      var n := |packages| - 1;
      var fewer, shorter, earlier := states[..n + 1], packages[..n], good[..n];
      forall i: nat | i < n ensures StepsTo(apply, fewer, shorter, earlier, i) {
        assert StepsTo(apply, states, packages, good, i);
      }
      AllOrNothing(apply, fewer, shorter, earlier);
      assert StepsTo(apply, states, packages, good, n);
      assert forall i | 0 <= i < n :: good[..n][i] == good[i];
    }
  }

  /** What the producer is held to for each window: `states` are its snapshots, `windows` the merged scopes
      between consecutive ones. */
  ghost predicate Coverable(states: seq<Db>, windows: seq<Touched>) {
    && |states| == |windows| + 1
    && (forall i | 0 <= i < |states| :: Consistent(states[i]))
    && forall i: nat | i < |windows| :: CoversWindow(states, windows, i)
  }

  ghost predicate CoversWindow(states: seq<Db>, windows: seq<Touched>, i: nat)
    requires |states| == |windows| + 1 && i < |windows|
  {
    Covers(states[i], states[i + 1], windows[i])
  }

  /** The packages between consecutive snapshots. */
  function ChainOf(states: seq<Db>, windows: seq<Touched>): seq<Package>
    requires |states| == |windows| + 1
  {
    seq(|windows|, i requires 0 <= i < |windows| => PackageOf(states[i + 1], windows[i]))
  }

  ghost predicate Followable(lo: Db, hi: Db) {
    Orderly(lo, hi) && NothingVanished(lo, hi)
  }

  ghost function FollowableWindows(states: seq<Db>, n: nat): seq<bool>
    requires |states| == n + 1
  {
    seq(n, i requires 0 <= i < n => Followable(states[i], states[i + 1]))
  }

  /** A client that starts from a snapshot follows the whole chain exactly when every window is orderly and
      lets no edge or citation merely vanish; it then holds the newest snapshot. */
  lemma ChainConverges(states: seq<Db>, windows: seq<Touched>)
    requires Coverable(states, windows)
    ensures ApplyAll(ApplyPackage, states[0], ChainOf(states, windows)) ==
      if forall i: nat | i < |windows| :: FollowableWindows(states, |windows|)[i] then Some(states[|windows|]) else None
  {
    var good := FollowableWindows(states, |windows|);
    forall i: nat | i < |windows| ensures StepsTo(ApplyPackage, states, ChainOf(states, windows), good, i) {
      assert CoversWindow(states, windows, i);
      WindowFollows(states, windows, i);
    }
    AllOrNothing(ApplyPackage, states, ChainOf(states, windows), good);
  }

  lemma WindowFollows(states: seq<Db>, windows: seq<Touched>, i: nat)
    requires |states| == |windows| + 1 && i < |windows| && CoversWindow(states, windows, i)
    requires Consistent(states[i]) && Consistent(states[i + 1])
    ensures StepsTo(ApplyPackage, states, ChainOf(states, windows), FollowableWindows(states, |windows|), i)
  {
    var lo, hi, p := states[i], states[i + 1], ChainOf(states, windows)[i];
    assert p == PackageOf(hi, windows[i]);
    assert ApplyPackage(lo, p) == (if Followable(lo, hi) then Some(hi) else None) by {
      FollowsOne(lo, hi, windows[i]);
    }
    assert FollowableWindows(states, |windows|)[i] == Followable(lo, hi);
  }

  lemma FollowsOne(lo: Db, hi: Db, t: Touched)
    requires Consistent(lo) && Consistent(hi) && Covers(lo, hi, t)
    ensures ApplyPackage(lo, PackageOf(hi, t)) == if Followable(lo, hi) then Some(hi) else None
  {
    PackageConverges(lo, hi, t);
  }

  // --- Windows that cannot be followed --------------------------------------------------------

  /** No zone unit has to be taken for a named document while another still holds it. */
  ghost predicate NoneBackward(d: Derived, h: Derived, docs: set<Key>) {
    forall k :: !Backward(d, h, docs, k)
  }

  /** The sets of `docs` are those of `h`, all others those of `d`. */
  ghost predicate TakenByDocument(r: Derived, d: Derived, h: Derived, docs: set<Key>) {
    forall doc :: SetOf(r, doc) == SetOf(if doc in docs then h else d, doc)
  }

  /** Documents outside `docs` have the same set. */
  ghost predicate SameOutside(d: Derived, h: Derived, docs: set<Key>) {
    forall doc :: doc !in docs ==> SetOf(d, doc) == SetOf(h, doc)
  }

  /** Nothing asks for the zone units of a document unless a zone scope names it; deleting the document does
      not.  So a client takes the new zone units of the named documents and keeps those it has of every other
      one, and accepts the package only if these happen to be the producer's. */
  lemma UnnamedZonesStay(lo: Db, hi: Db, t: Touched)
    requires Consistent(lo) && Consistent(hi) && CoversButZones(lo, hi, t)
    ensures var s := Survivors(lo, hi);
      ApplyFiles(lo, PackageOf(hi, t)) ==
        if MovesForward(s.chunks, hi.chunks) && NoneBackward(s.zones, hi.zones, t.zones)
        then Some(WithZonesOf(lo, hi, t)) else None
    ensures var s := Survivors(lo, hi);
      NoneBackward(s.zones, hi.zones, t.zones) ==> TakenByDocument(WithZonesOf(lo, hi, t).zones, s.zones, hi.zones, t.zones)
    ensures var s := Survivors(lo, hi);
      ApplyPackage(lo, PackageOf(hi, t)) == Some(hi) <==>
        && MovesForward(s.chunks, hi.chunks) && NothingVanished(lo, hi) && NoneBackward(s.zones, hi.zones, t.zones)
        && SameOutside(s.zones, hi.zones, t.zones)
  {
    var s := Survivors(lo, hi);
    FilesButZones(lo, hi, t);
    Accepted(lo, hi, t, MovesForward(s.chunks, hi.chunks) && NoneBackward(s.zones, hi.zones, t.zones));
    if NoneBackward(s.zones, hi.zones, t.zones) {
      TakesZones(lo, hi, t);
    }
  }

  lemma TakesZones(lo: Db, hi: Db, t: Touched)
    requires Consistent(lo) && Consistent(hi) && NoneBackward(Survivors(lo, hi).zones, hi.zones, t.zones)
    ensures var s, r := Survivors(lo, hi), WithZonesOf(lo, hi, t).zones;
      && r == Replaced(s.zones, hi.zones, t.zones) && TakenByDocument(r, s.zones, hi.zones, t.zones)
      && (r == hi.zones <==> SameOutside(s.zones, hi.zones, t.zones))
  {
    SurvivorsRefer(lo, hi);
    ReplacedByDocument(Survivors(lo, hi).zones, hi.zones, t.zones);
  }

  lemma Accepted(lo: Db, hi: Db, t: Touched, good: bool)
    requires ApplyFiles(lo, PackageOf(hi, t)) == if good then Some(WithZonesOf(lo, hi, t)) else None
    ensures ApplyPackage(lo, PackageOf(hi, t)) == Some(hi) <==>
      good && NothingVanished(lo, hi) && Replaced(Survivors(lo, hi).zones, hi.zones, t.zones) == hi.zones
  {
    MergeIsNew(Survivors(lo, hi).edges, hi.edges);
    MergeIsNew(Survivors(lo, hi).citations, hi.citations);
  }

  lemma FilesButZones(lo: Db, hi: Db, t: Touched)
    requires Consistent(lo) && Consistent(hi) && CoversButZones(lo, hi, t)
    ensures var s := Survivors(lo, hi);
      ApplyFiles(lo, PackageOf(hi, t)) ==
        if MovesForward(s.chunks, hi.chunks) && NoneBackward(s.zones, hi.zones, t.zones)
        then Some(WithZonesOf(lo, hi, t)) else None
  {
    var s := Survivors(lo, hi);
    BaseConverges(lo, hi, t);
    var base := s.(documents := hi.documents, responses := hi.responses);
    LinksConverge(base, hi, t);
    SurvivorsRefer(lo, hi);
    var linked := base.(edges := s.edges + hi.edges, roots := hi.roots, resolutions := hi.resolutions,
                        citations := s.citations + hi.citations);
    SetsButZones(linked, hi, t);
  }

  /** A document that is there at both ends of the window keeps its zone units through the deletions, even if
      it was deleted and recreated in between. */
  lemma RecreatedKeepsZones(lo: Db, hi: Db, doc: Key)
    requires doc in lo.documents && doc in hi.documents
    ensures SetOf(Survivors(lo, hi).zones, doc) == SetOf(lo.zones, doc)
  {
    var gone := lo.documents.Keys - hi.documents.Keys;
    forall k ensures OwnedBy(lo.zones, k, {doc}) ==> !OwnedBy(lo.zones, k, gone) {
    }
    assert SetOf(Drop(lo.zones, gone), doc).rows == SetOf(lo.zones, doc).rows;
    assert SetOf(Drop(lo.zones, gone), doc).embeddings == SetOf(lo.zones, doc).embeddings;
  }

  /** The new tables, but with the edges and citations that survive from the old ones, and with the zone units
      of the named documents only. */
  function WithZonesOf(lo: Db, hi: Db, t: Touched): Db {
    var s := Survivors(lo, hi);
    hi.(edges := s.edges + hi.edges, citations := s.citations + hi.citations,
        zones := Replaced(s.zones, hi.zones, t.zones))
  }

  lemma SetsButZones(linked: Db, hi: Db, t: Touched)
    requires linked.documents == hi.documents && Consistent(hi)
    requires DerivedRefers(linked.chunks, hi.documents.Keys) && DerivedRefers(linked.zones, hi.documents.Keys)
    requires DerivedWithin(linked.chunks, hi.chunks, t.WideChunks(), t.WideChunks() + t.embeddings)
    requires DiffersWithin(linked.decisionZones, hi.decisionZones, t.decisionZones)
    ensures ApplySets(linked, PackageOf(hi, t)) ==
      if MovesForward(linked.chunks, hi.chunks) && NoneBackward(linked.zones, hi.zones, t.zones)
      then Some(linked.(chunks := hi.chunks, zones := Replaced(linked.zones, hi.zones, t.zones), decisionZones := hi.decisionZones))
      else None
  {
    ChunksConverge(linked.chunks, hi, t);
    DecisionsConverge(linked.decisionZones, hi, t);
    SortedIsSorted(t.zones);
    ReplaceAllExactly(linked.zones, hi.zones, hi.documents.Keys, Sorted(t.zones));
    ClashesAreBackward(linked.zones, hi.zones, Sorted(t.zones));
  }

  /** Replacing some documents leaves the sets of the others, and makes the whole equal to `h` exactly if those
      are equal already. */
  lemma ReplacedByDocument(d: Derived, h: Derived, docs: set<Key>)
    requires NoneBackward(d, h, docs) && d.embeddings.Keys <= d.rows.Keys && h.embeddings.Keys <= h.rows.Keys
    ensures TakenByDocument(Replaced(d, h, docs), d, h, docs)
    ensures Replaced(d, h, docs) == h <==> SameOutside(d, h, docs)
  {
    var r := Replaced(d, h, docs);
    forall doc ensures SetOf(r, doc) == SetOf(if doc in docs then h else d, doc) {
      OneSet(d, h, docs, doc);
    }
    if SameOutside(d, h, docs) {
      forall doc ensures SetOf(r, doc) == SetOf(h, doc) {
        assert SetOf(r, doc) == SetOf(if doc in docs then h else d, doc);
      }
      SetsDecide(r, h);
    }
  }

  lemma OneSet(d: Derived, h: Derived, docs: set<Key>, doc: Key)
    requires NoneBackward(d, h, docs) && d.embeddings.Keys <= d.rows.Keys && h.embeddings.Keys <= h.rows.Keys
    ensures SetOf(Replaced(d, h, docs), doc) == SetOf(if doc in docs then h else d, doc)
  {
    var r, e := SetOf(Replaced(d, h, docs), doc), SetOf(if doc in docs then h else d, doc);
    forall k ensures Agree(r.rows, e.rows, k) && Agree(r.embeddings, e.embeddings, k) {
      assert !Backward(d, h, docs, k);
    }
    Extensional(r.rows, e.rows);
    Extensional(r.embeddings, e.embeddings);
  }

  /** Derived rows are told apart by the sets of their documents. */
  lemma SetsDecide(a: Derived, b: Derived)
    requires a.embeddings.Keys <= a.rows.Keys && b.embeddings.Keys <= b.rows.Keys
    requires forall doc :: SetOf(a, doc) == SetOf(b, doc)
    ensures a == b
  {
    forall k ensures Agree(a.rows, b.rows, k) && Agree(a.embeddings, b.embeddings, k) {
      if k in a.rows {
        SameRow(a, b, a.rows[k].doc, k);
      } else if k in b.rows {
        SameRow(a, b, b.rows[k].doc, k);
      }
    }
    Extensional(a.rows, b.rows);
    Extensional(a.embeddings, b.embeddings);
  }

  lemma SameRow(a: Derived, b: Derived, doc: Key, k: Key)
    requires SetOf(a, doc) == SetOf(b, doc) && (OwnedBy(a, k, {doc}) || OwnedBy(b, k, {doc}))
    ensures Agree(a.rows, b.rows, k) && Agree(a.embeddings, b.embeddings, k)
  {
    assert k in SetOf(a, doc).rows && k in SetOf(b, doc).rows;
    assert SetOf(a, doc).rows[k] == SetOf(b, doc).rows[k];
    assert k in a.embeddings <==> k in SetOf(a, doc).embeddings;
    assert k in b.embeddings <==> k in SetOf(b, doc).embeddings;
    if k in a.embeddings {
      assert SetOf(a, doc).embeddings[k] == SetOf(b, doc).embeddings[k];
    }
  }

  const NO_ROWS := Derived(map[], map[])
  const TWO_DOCUMENTS := Db(map[1 := 0, 2 := 0], map[], map[], map[], map[], map[], NO_ROWS, NO_ROWS, map[])
  const ONE_EDGE := TWO_DOCUMENTS.(edges := map[7 := Edge(1, Some(2), 0)])
  const NOTHING_TOUCHED := Touched({}, {}, {}, {}, {}, {}, {}, {}, {})

  /** Two databases with the same documents and responses: nothing is deleted between them. */
  lemma NothingDeleted(lo: Db, hi: Db)
    requires lo.documents == hi.documents && lo.responses == hi.responses
    ensures Survivors(lo, hi) == lo
  {
    assert lo.documents.Keys - hi.documents.Keys == {} && lo.responses.Keys - hi.responses.Keys == {};
    NoCascade(lo);
  }

  lemma VanishedEdgeIsCovered()
    ensures Consistent(ONE_EDGE) && Consistent(TWO_DOCUMENTS)
    ensures Covers(ONE_EDGE, TWO_DOCUMENTS, NOTHING_TOUCHED.(documents := {1}))
  {
    NothingDeleted(ONE_EDGE, TWO_DOCUMENTS);
  }

  /** An edge that vanishes while both its documents stay: the client would keep it, and so rejects the
      package although the scope of its document was recorded. */
  lemma VanishedEdgeIsRejected()
    ensures Covers(ONE_EDGE, TWO_DOCUMENTS, NOTHING_TOUCHED.(documents := {1}))
    ensures ApplyPackage(ONE_EDGE, PackageOf(TWO_DOCUMENTS, NOTHING_TOUCHED.(documents := {1}))) == None
  {
    VanishedEdgeIsCovered();
    NothingDeleted(ONE_EDGE, TWO_DOCUMENTS);
    assert 7 in ONE_EDGE.edges.Keys;
    assert !NothingVanished(ONE_EDGE, TWO_DOCUMENTS);
    FollowsOne(ONE_EDGE, TWO_DOCUMENTS, NOTHING_TOUCHED.(documents := {1}));
  }

  const BOTH := NOTHING_TOUCHED.(chunks := {1, 2})

  /** The database with the one chunk in `doc`. */
  function ChunkIn(doc: Key): Db {
    TWO_DOCUMENTS.(chunks := Derived(map[5 := Owned(doc, 0)], map[]))
  }

  lemma MoveIsCovered(from: Key, to: Key)
    requires from in {1, 2} && to in {1, 2}
    ensures Consistent(ChunkIn(from)) && Covers(ChunkIn(from), ChunkIn(to), BOTH)
  {
    NothingDeleted(ChunkIn(from), ChunkIn(to));
  }

  /** A chunk that moves to the document sorting first is inserted while the other still holds its key; the
      move the other way goes through. */
  lemma MoveIsFollowed(from: Key, to: Key)
    requires from in {1, 2} && to in {1, 2}
    ensures ApplyPackage(ChunkIn(from), PackageOf(ChunkIn(to), BOTH)) == if from <= to then Some(ChunkIn(to)) else None
  {
    NothingDeleted(ChunkIn(from), ChunkIn(to));
    MoveIsCovered(from, to);
    MoveIsCovered(to, from);
    assert 5 in ChunkIn(from).chunks.rows && 5 in ChunkIn(to).chunks.rows;
    assert Followable(ChunkIn(from), ChunkIn(to)) <==> from <= to;
    FollowsOne(ChunkIn(from), ChunkIn(to), BOTH);
  }
}
