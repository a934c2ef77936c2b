/** Whole runs: any interleaving of writes, cut by crashes anywhere. */
module PublishRuns {
  import opened Packages
  import opened RemoteManifest
  import opened PublishState

  function After(w: World, run: seq<Action>): World {
    if run == [] then w else Apply(After(w, run[..|run| - 1]), run[|run| - 1])
  }

  ghost predicate Legal(w: World, run: seq<Action>) {
    run != [] ==> Legal(w, run[..|run| - 1]) && Enabled(After(w, run[..|run| - 1]), run[|run| - 1])
  }

  /** Reachable from a fresh producer by legal writes. */
  ghost predicate Reachable(w: World) {
    exists start: World, run: seq<Action> :: Initial(start) && Legal(start, run) && After(start, run) == w
  }

  /** The invariant holds at the end of every legal run and at every point where a crash can cut it. */
  lemma {:induction false} EveryCrashPoint(w: World, run: seq<Action>, cut: nat)
    requires Inv(w) && Legal(w, run) && cut <= |run|
    ensures Legal(w, run[..cut]) && Inv(After(w, run[..cut]))
    decreases |run|
  {
    if cut == |run| {
      assert run[..cut] == run;
      if run != [] {
        EveryCrashPoint(w, run[..cut - 1], cut - 1);
        assert run[..cut - 1][..cut - 1] == run[..cut - 1];
        StepKeepsInv(After(w, run[..cut - 1]), run[cut - 1]);
      }
    } else {
      assert run[..|run| - 1][..cut] == run[..cut];
      EveryCrashPoint(w, run[..|run| - 1], cut);
    }
  }

  lemma ReachableKeepsInv(w: World)
    requires Reachable(w)
    ensures Inv(w)
  {
    var start: World, run: seq<Action> :| Initial(start) && Legal(start, run) && After(start, run) == w;
    EveryCrashPoint(start, run, |run|);
    assert run[..|run|] == run;
  }

  /** A run, cut anywhere, followed by another run is again a run. */
  lemma {:induction false} RunsCompose(w: World, first: seq<Action>, second: seq<Action>)
    requires Legal(w, first) && Legal(After(w, first), second)
    ensures Legal(w, first + second)
    ensures After(w, first + second) == After(After(w, first), second)
  {
    if second == [] {
      assert first + second == first;
    } else {
      var n := |second| - 1;
      RunsCompose(w, first, second[..n]);
      assert (first + second)[..|first| + n] == first + second[..n];
    }
  }

  /** `after` goes on from `before` and deletes no catalog row. */
  predicate KeepsRows(before: seq<Action>, after: seq<Action>) {
    before <= after && forall i | |before| <= i < |after| :: !after[i].Discard?
  }

  /** `run` is a legal run from `w` to `w'`. */
  ghost predicate Ran(w: World, run: seq<Action>, w': World) {
    Legal(w, run) && After(w, run) == w'
  }

  /** The later part of a run is a run. */
  lemma {:induction false} RunsSplit(w: World, run: seq<Action>, k: nat)
    requires Legal(w, run) && k <= |run|
    ensures Legal(w, run[..k]) && Ran(After(w, run[..k]), run[k..], After(w, run))
    decreases |run|
  {
    if k == |run| {
      assert run[..k] == run && run[k..] == [];
    } else {
      var n := |run| - 1;
      RunsSplit(w, run[..n], k);
      LaterPart(run, k);
    }
  }

  lemma LaterPart(run: seq<Action>, k: nat)
    requires k < |run|
    ensures var n, late := |run| - 1, run[k..];
      run[..n][..k] == run[..k] && late[..|late| - 1] == run[..n][k..] && late[|late| - 1] == run[n]
  {
  }

  predicate NoDiscard(run: seq<Action>) {
    forall i | 0 <= i < |run| :: !run[i].Discard?
  }

  /** What was written since `before` is a run of its own. */
  lemma NewWrites(origin: World, before: seq<Action>, after: seq<Action>)
    requires Legal(origin, after) && before <= after
    ensures Ran(After(origin, before), after[|before|..], After(origin, after))
    ensures KeepsRows(before, after) ==> NoDiscard(after[|before|..])
  {
    assert after[..|before|] == before;
    RunsSplit(origin, after, |before|);
  }

  /** Rows are added and marked, and none goes. */
  ghost predicate RowsGrow(c: seq<Row>, c': seq<Row>) {
    |c| <= |c'| && forall i: nat | i < |c| :: c'[i] == c[i] || c'[i] == c[i].(status := Published)
  }

  lemma GrowsOn(c: seq<Row>, d: seq<Row>, e: seq<Row>)
    requires RowsGrow(c, d) && RowsGrow(d, e)
    ensures RowsGrow(c, e)
  {
  }

  lemma StepGrows(w: World, a: Action)
    requires Chain(w.catalog) && Enabled(w, a) && !a.Discard?
    ensures RowsGrow(w.catalog, Apply(w, a).catalog)
  {
    CatalogStep(w, a);
  }

  lemma {:induction false} RowsOnlyGrow(w: World, run: seq<Action>)
    requires Inv(w) && Legal(w, run) && NoDiscard(run)
    ensures RowsGrow(w.catalog, After(w, run).catalog)
  {
    if run != [] {
      var n := |run| - 1;
      RowsOnlyGrow(w, run[..n]);
      EveryCrashPoint(w, run[..n], n);
      assert run[..n][..n] == run[..n];
      StepGrows(After(w, run[..n]), run[n]);
      GrowsOn(w.catalog, After(w, run[..n]).catalog, After(w, run).catalog);
    }
  }

  /** Wherever a run without a discard is cut, the catalog lies between those at its ends. */
  lemma CutCatalog(w: World, run: seq<Action>, cut: nat)
    requires Inv(w) && Legal(w, run) && NoDiscard(run) && cut <= |run|
    ensures var w' := After(w, run[..cut]);
      Inv(w') && RowsGrow(w.catalog, w'.catalog) && RowsGrow(w'.catalog, After(w, run).catalog)
  {
    EveryCrashPoint(w, run, cut);
    RunsSplit(w, run, cut);
    RowsOnlyGrow(w, run[..cut]);
    RowsOnlyGrow(After(w, run[..cut]), run[cut..]);
  }

  // --- What is never taken back ---------------------------------------------------------------

  /** Served directories never change, published rows stay as they are, and so does there being a first row
      and a remote manifest. */
  ghost predicate Extends(w: World, w': World) {
    && (w.catalog != [] ==> w'.catalog != [])
    && (w.remote.Some? ==> w'.remote.Some?)
    && (forall id | id in w.served :: id in w'.served && w'.served[id] == w.served[id])
    && RowsStay(w.catalog, w'.catalog)
  }

  ghost predicate RowsStay(c: seq<Row>, c': seq<Row>) {
    forall i: nat | i < |c| && c[i].status == Published :: i < |c'| && c'[i] == c[i]
  }

  /** The writes that touch the catalog, and what they make of it. */
  lemma CatalogStep(w: World, a: Action)
    requires Chain(w.catalog) && Enabled(w, a)
    ensures var c, c' := w.catalog, Apply(w, a).catalog;
      if a.Insert? then c' == c + [a.row]
      else if a.Mark? then Cataloged(c, a.id) && c' == MarkRows(c, a.id)
      else if a.Discard? then
        |c| > 1 && c[|c| - 1].id == a.id && c' == (if c[|c| - 1].status == Built then c[..|c| - 1] else c)
      else c' == c
  {
    if a.Discard? {
      DiscardCatalog(w.catalog, a.id);
    }
  }

  lemma ServedStep(w: World, a: Action)
    requires Enabled(w, a)
    ensures forall id | id in w.served :: id in Apply(w, a).served && Apply(w, a).served[id] == w.served[id]
  {
  }

  lemma StepExtends(w: World, a: Action)
    requires Chain(w.catalog) && Enabled(w, a)
    ensures Extends(w, Apply(w, a))
  {
    CatalogStep(w, a);
    ServedStep(w, a);
  }

  lemma {:induction false} RunsExtend(w: World, run: seq<Action>)
    requires Inv(w) && Legal(w, run)
    ensures Extends(w, After(w, run))
  {
    if run != [] {
      var n := |run| - 1;
      RunsExtend(w, run[..n]);
      EveryCrashPoint(w, run[..n], n);
      assert run[..n][..n] == run[..n];
      StepExtends(After(w, run[..n]), run[n]);
    }
  }

  /** A manifest that a client fetched in some reachable state stays coherent for ever: every artifact it
      names exists, complete, as the artifact its entry was built from. */
  lemma FetchedManifestStaysGood(w: World, run: seq<Action>)
    requires Reachable(w) && w.remote.Some? && Legal(w, run)
    ensures Coherent(w.remote.value, After(w, run).served) && WellShaped(w.remote.value)
    ensures forall e | e in w.remote.value.packages :: After(w, run).served[e.id] == Whole(e.signature)
    ensures After(w, run).served[w.remote.value.active.id] == Whole(w.remote.value.active.signature)
  {
    ReachableKeepsInv(w);
    RunsExtend(w, run);
    var r := w.remote.value;
    forall id | id in w.served ensures w.served[id] == Whole(w.served[id].manifest.value) {
      assert ServedAt(w.served[id], id, |w.catalog|);
    }
  }

  // --- The append-only log --------------------------------------------------------------------

  datatype Record = Record(id: PackageId, digest: Payload)

  /** The first baseline is published. */
  predicate Bootstrapped(c: seq<Row>) {
    c != [] && c[0].status == Published
  }

  function PublishedCount(c: seq<Row>): nat {
    var n := |c|;
    if n > 0 && c[n - 1].status == Built then n - 1 else n
  }

  /** The packages published so far: the abstract view of the catalog. */
  function Log(c: seq<Row>): seq<Record> {
    seq(PublishedCount(c), i requires 0 <= i < PublishedCount(c) => Record(c[i].id, c[i].digest))
  }

  lemma MarkAppends(c: seq<Row>, id: PackageId)
    requires Chain(c) && Bootstrapped(c) && Cataloged(c, id)
    requires forall i: nat | i < |c| - 1 :: c[i].status == Published
    ensures Bootstrapped(MarkRows(c, id))
    ensures Log(MarkRows(c, id)) == Log(c) || Log(MarkRows(c, id)) == Log(c) + [Record(id, c[|c| - 1].digest)]
  {
  }

  /** Once bootstrapped, every write either leaves the published log alone or appends one package to it,
      and only marking the newest row appends. */
  lemma StepAppends(w: World, a: Action)
    requires Inv(w) && Bootstrapped(w.catalog) && Enabled(w, a)
    ensures var c, c' := w.catalog, Apply(w, a).catalog;
      && Bootstrapped(c')
      && (Log(c') == Log(c) || (a.Mark? && Log(c') == Log(c) + [Record(a.id, c[|c| - 1].digest)]))
  {
    CatalogStep(w, a);
    AppendsOrKeeps(w.catalog, a, Apply(w, a).catalog);
  }

  lemma AppendsOrKeeps(c: seq<Row>, a: Action, c': seq<Row>)
    requires Chain(c) && Bootstrapped(c) && forall i: nat | i < |c| - 1 :: c[i].status == Published
    requires a.Insert? ==> c[|c| - 1].status == Published && a.row.status == Built
    requires
      if a.Insert? then c' == c + [a.row]
      else if a.Mark? then Cataloged(c, a.id) && c' == MarkRows(c, a.id)
      else if a.Discard? then |c| > 1 && c' == (if c[|c| - 1].status == Built then c[..|c| - 1] else c)
      else c' == c
    ensures Bootstrapped(c')
    ensures Log(c') == Log(c) || (a.Mark? && Log(c') == Log(c) + [Record(a.id, c[|c| - 1].digest)])
  {
    if a.Mark? {
      MarkAppends(c, a.id);
    } else {
      assert Log(c') == Log(c);
    }
  }

  lemma {:induction false} LogIsAppendOnly(w: World, run: seq<Action>)
    requires Inv(w) && Bootstrapped(w.catalog) && Legal(w, run)
    ensures Bootstrapped(After(w, run).catalog) && Log(w.catalog) <= Log(After(w, run).catalog)
  {
    if run != [] {
      var n := |run| - 1;
      LogIsAppendOnly(w, run[..n]);
      EveryCrashPoint(w, run[..n], n);
      assert run[..n][..n] == run[..n];
      StepAppends(After(w, run[..n]), run[n]);
    }
  }

  /** Exactly once: in the log every id occurs once, and it is served, then and ever after, as one
      complete artifact with the payload that was cataloged. */
  lemma ExactlyOnce(w: World, run: seq<Action>)
    requires Reachable(w) && Bootstrapped(w.catalog) && Legal(w, run)
    ensures var log, served := Log(w.catalog), After(w, run).served;
      && (forall i: nat, j: nat | i < j < |log| :: log[i].id != log[j].id)
      && (forall i: nat | i < |log| ::
            && log[i].id == IdAt(i)
            && log[i].id in w.served && log[i].id in served
            && served[log[i].id] == w.served[log[i].id]
            && served[log[i].id].files == log[i].digest)
  {
    ReachableKeepsInv(w);
    RunsExtend(w, run);
    var log := Log(w.catalog);
    forall i: nat | i < |log|
      ensures log[i].id == IdAt(i) && log[i].id in w.served && w.served[log[i].id].files == log[i].digest
    {
      OnlyLastIsUnpublished(w.catalog, w.pending, w.bootstrap);
      PublishedIsServed(w.catalog, w.served, i);
    }
  }

  lemma PublishedIsServed(c: seq<Row>, served: map<PackageId, Dir>, i: nat)
    requires Chain(c) && ServedSound(c, served) && i < |c| && c[i].status == Published
    ensures c[i].id == IdAt(i) && c[i].id in served && served[c[i].id].files == c[i].digest
  {
    assert LinkAt(c, i) && ServesPayload(served, c[i]);
    assert ServedAt(served[c[i].id], c[i].id, |c|);
  }

  /** No build starts over an unpublished head: once bootstrapped, a catalog insert finds every row
      published, and there is never more than one unpublished row, the newest, whole in its slot. */
  lemma NoSuccessorOnUnpublishedHead(w: World, row: Row)
    requires Reachable(w) && Bootstrapped(w.catalog)
    ensures Enabled(w, Insert(row)) ==> forall i: nat | i < |w.catalog| :: w.catalog[i].status == Published
    ensures forall i: nat | i < |w.catalog| && w.catalog[i].status == Built ::
      i == |w.catalog| - 1 && w.pending == Whole(w.catalog[i].manifestDigest)
  {
    ReachableKeepsInv(w);
    OnlyLastIsUnpublished(w.catalog, w.pending, w.bootstrap);
    if Enabled(w, Insert(row)) {
      AllPublished(w.catalog, w.pending, w.bootstrap);
    }
  }

  lemma AllPublished(c: seq<Row>, pending: Dir, bootstrap: Dir)
    requires UnpublishedAreStaged(c, pending, bootstrap) && Bootstrapped(c)
    requires |c| > 1 ==> c[|c| - 1].status == Published
    ensures forall i: nat | i < |c| :: c[i].status == Published
  {
  }

  lemma OnlyLastIsUnpublished(c: seq<Row>, pending: Dir, bootstrap: Dir)
    requires UnpublishedAreStaged(c, pending, bootstrap) && Bootstrapped(c)
    ensures forall i: nat | i < |c| && c[i].status == Built :: i == |c| - 1 && pending == Whole(c[i].manifestDigest)
  {
  }

  /** Package `i` of the catalog, and no other, covers the change. */
  ghost predicate HasChangeAlone(c: seq<Row>, i: nat, change: nat) {
    i < |c| && InWindow(c[i], change) && forall j: nat | j < |c| && InWindow(c[j], change) :: j == i
  }

  /** Each change of this corpus up to the newest high-water mark is in exactly one package, and that
      package keeps it in every later state. */
  lemma EachChangeInOnePackage(w: World, run: seq<Action>, change: nat)
    requires Reachable(w) && Bootstrapped(w.catalog) && Legal(w, run)
    requires 0 < change <= w.catalog[|w.catalog| - 1].high
    ensures InOnePackage(w.catalog, After(w, run).catalog, change)
  {
    LaterCatalog(w, run);
    StaysAlone(w.catalog, After(w, run).catalog, change);
  }

  ghost predicate InOnePackage(c: seq<Row>, later: seq<Row>, change: nat) {
    exists i: nat :: (
      HasChangeAlone(c, i, change) && (c[i].status == Published ==> HasChangeAlone(later, i, change)))
  }

  lemma LaterCatalog(w: World, run: seq<Action>)
    requires Reachable(w) && Legal(w, run)
    ensures Chain(w.catalog) && Chain(After(w, run).catalog) && RowsStay(w.catalog, After(w, run).catalog)
  {
    ReachableKeepsInv(w);
    RunsExtend(w, run);
    EveryCrashPoint(w, run, |run|);
    assert run[..|run|] == run;
  }

  lemma StaysAlone(c: seq<Row>, later: seq<Row>, change: nat)
    requires Chain(c) && Chain(later) && c != [] && RowsStay(c, later) && 0 < change <= c[|c| - 1].high
    ensures InOnePackage(c, later, change)
  {
    WindowsTile(c, change);
    var i: nat :| i < |c| && InWindow(c[i], change);
    assert HasChangeAlone(c, i, change);
    if c[i].status == Published {
      WindowsTile(later, change);
      assert HasChangeAlone(later, i, change);
    }
  }

  // --- Abandoned directories ------------------------------------------------------------------

  /** Every served directory is the artifact of the catalog row with its id. */
  ghost predicate NothingAbandoned(w: World) {
    forall id | id in w.served :: Holds(w, id)
  }

  /** `packages/<id>` is the artifact that the row with this id was seeded from. */
  ghost predicate Holds(w: World, id: PackageId) {
    exists i: nat :: i < |w.catalog| && w.catalog[i].id == id && Matches(w.catalog[i], w.served)
  }

  /** Deleting the row of a package that is already served. */
  predicate DiscardsServed(w: World, a: Action) {
    a.Discard? && a.id in w.served && w.catalog != [] && w.catalog[|w.catalog| - 1].status == Built
  }

  /** Of all the writes exactly one kind can abandon a served directory: discarding the row of a
      rebaseline that a crash caught between becoming visible and being marked. */
  lemma OnlyDiscardAbandons(w: World, a: Action)
    requires Inv(w) && NothingAbandoned(w) && Enabled(w, a)
    ensures NothingAbandoned(Apply(w, a)) <==> !DiscardsServed(w, a)
  {
    var w' := Apply(w, a);
    if DiscardsServed(w, a) {
      DiscardCatalog(w.catalog, a.id);
      forall i: nat | i < |w'.catalog| ensures w'.catalog[i].id != a.id {
        if w'.catalog[i].id == a.id {
          IdsDiffer(w.catalog, i, |w.catalog| - 1);
        }
      }
    } else {
      forall id | id in w'.served
        ensures Holds(w', id)
      {
        StillMatches(w, a, id);
      }
    }
  }

  lemma StillMatches(w: World, a: Action, id: PackageId)
    requires Inv(w) && NothingAbandoned(w) && Enabled(w, a) && !DiscardsServed(w, a) && id in Apply(w, a).served
    ensures Holds(Apply(w, a), id)
  {
    if id in w.served {
      assert Holds(w, id);
      ServedStillMatches(w, a, id);
    } else {
      RenamedMatches(w, id);
    }
  }

  lemma RenamedMatches(w: World, id: PackageId)
    requires Enabled(w, Rename(id))
    ensures Holds(Apply(w, Rename(id)), id)
  {
    var w' := Apply(w, Rename(id));
    var i: nat :| i < |w.catalog| && w.catalog[i].id == id && w.tmp[id] == Whole(w.catalog[i].manifestDigest);
    assert Matches(w'.catalog[i], w'.served);
  }

  lemma ServedStillMatches(w: World, a: Action, id: PackageId)
    requires Inv(w) && Enabled(w, a) && !DiscardsServed(w, a) && id in w.served && Holds(w, id)
    ensures Holds(Apply(w, a), id)
  {
    var w' := Apply(w, a);
    StepExtends(w, a);
    var i: nat :| i < |w.catalog| && w.catalog[i].id == id && Matches(w.catalog[i], w.served);
    RowSurvives(w, a, i);
    assert Matches(w'.catalog[i], w'.served);
  }

  lemma RowSurvives(w: World, a: Action, i: nat)
    requires Chain(w.catalog) && Enabled(w, a) && i < |w.catalog| && w.catalog[i].id in w.served && !DiscardsServed(w, a)
    ensures var c' := Apply(w, a).catalog;
      i < |c'| && c'[i].id == w.catalog[i].id && c'[i].manifestDigest == w.catalog[i].manifestDigest
  {
    CatalogStep(w, a);
  }
}
