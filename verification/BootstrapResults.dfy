/** What `bootstrap_first_baseline` achieves, and achieves again after a crash at any of its writes. */
module BootstrapResults {
  import opened Wrappers
  import opened Packages
  import opened RemoteManifest
  import opened PublishState
  import opened PublishRuns
  import opened Producers
  import opened Cycles
  import opened FirstBaselines
  import opened CycleResults

  /** The catalog has no later media root, and its first row was built with the settings of this run. */
  predicate SameBaseline(c: seq<Row>, run: Run)
    requires c != []
  {
    LastMedia(c) == 0 && c[0].baselineId == run.baselineId && c[0].stamps.fingerprint == run.stamps.fingerprint
  }

  lemma OnlyFirstIsCanonical(w: World, run: Run)
    requires Inv(w) && w.catalog != []
    ensures LastMedia(w.catalog) < |w.catalog|
    ensures Canonical(w.catalog[LastMedia(w.catalog)], run) <==> SameBaseline(w.catalog, run)
    ensures forall i: nat | 0 < i < |w.catalog| :: w.catalog[i].kind != Baseline
  {
    assert LinkAt(w.catalog, 0);
    assert w.catalog[0].Media();
    assert LinkAt(w.catalog, LastMedia(w.catalog));
    forall i: nat | 0 < i < |w.catalog| ensures w.catalog[i].kind != Baseline {
      assert LinkAt(w.catalog, i);
    }
  }

  /** Every row that a manifest over `c` would list after row 0 is served as cataloged. */
  predicate FollowersServed(c: seq<Row>, served: map<PackageId, Dir>, retain: nat) {
    forall i: nat | 0 < i < |c| && |c| - retain <= i :: Matches(c[i], served)
  }

  /** Over a catalog that has its first row, bootstrap never builds: it refuses, or it finishes with the
      artifact that is already cataloged and keeps every other row as it is. */
  ghost predicate Recovers(w: World, run: Run, s: Step<Report>)
    requires w.catalog != []
  {
    var c := w.catalog;
    if !SameBaseline(c, run) then s == Step(w, Failure(RepairRequired))
    else if w.remote.Some? then s == Step(w, Failure(AlreadyBaselined))
    else
      && s.world.catalog == c[0 := c[0].(status := Published)]
      && s.world.served == w.served[IdAt(0) := Whole(c[0].manifestDigest)]
      && s.world.bootstrap == EMPTY_DIR
      && (s.world.pending, s.world.top, s.world.changes) == (w.pending, w.top, w.changes)
      && (s.result.Success? <==> FollowersServed(c, w.served, run.retain))
      && (s.result.Success? ==> s.world.remote.Some? && (|c| == 1 ==> s.world.remote.value.head == 1))
      && (s.result.Failure? ==> s.world.remote == None)
  }

  lemma BootstrapRecovers(w: World, run: Run)
    requires Inv(w) && w.catalog != []
    ensures Recovers(w, run, BootstrapStep(w, run))
  {
    OnlyFirstIsCanonical(w, run);
    if SameBaseline(w.catalog, run) && w.remote == None {
      FirstRow(w, run);
      FirstIsWhole(w);
      MarkFirst(w.catalog);
      ResumesFirst(w);
      Finishes(w, run, ResumeFirstStep(w, w.catalog[0]));
    } else {
      Refuses(w, run);
    }
  }

  lemma Refuses(w: World, run: Run)
    requires w.catalog != [] && LastMedia(w.catalog) < |w.catalog|
    requires Canonical(w.catalog[LastMedia(w.catalog)], run) <==> SameBaseline(w.catalog, run)
    requires w.remote.Some? ==> Verifies(w)
    requires !SameBaseline(w.catalog, run) || w.remote.Some?
    ensures Recovers(w, run, BootstrapStep(w, run))
  {
  }

  lemma Finishes(w: World, run: Run, found: Step<()>)
    requires w.catalog != [] && Chain(w.catalog) && SameBaseline(w.catalog, run) && w.remote == None
    requires Canonical(w.catalog[0], run) && found == ResumeFirstStep(w, w.catalog[0]) && FirstFinished(w, found)
    requires Chain(w.catalog[0 := w.catalog[0].(status := Published)])
    ensures Recovers(w, run, BootstrapStep(w, run))
  {
    var c := w.catalog[0 := w.catalog[0].(status := Published)];
    FirstManifest(c, w.catalog, w.served, run.retain);
    VerificationPasses(found.world, run.retain, Some(PackageId(1, 1)));
    assert BootstrapStep(w, run) == AnnounceStep(found.world, run.retain, Some(PackageId(1, 1)));
  }

  lemma FirstIsWhole(w: World)
    requires Inv(w) && w.catalog != []
    ensures w.catalog[0].id == IdAt(0) && Last(w.catalog).sequence == |w.catalog|
    ensures IdAt(0) in w.served ==> w.served[IdAt(0)] == Whole(w.catalog[0].manifestDigest)
  {
    assert LinkAt(w.catalog, 0) && LinkAt(w.catalog, |w.catalog| - 1);
    if IdAt(0) in w.served {
      assert ServedAt(w.served[IdAt(0)], IdAt(0), |w.catalog|);
    }
  }

  lemma MarkFirst(c: seq<Row>)
    requires Chain(c) && c != []
    ensures Cataloged(c, IdAt(0))
    ensures Chain(c[0 := c[0].(status := Published)])
    ensures MarkRows(c, IdAt(0)) == c[0 := c[0].(status := Published)]
  {
    assert LinkAt(c, 0);
    MarkKeepsChain(c, IdAt(0));
    forall i: nat | i < |c| && c[i].id == IdAt(0) ensures i == 0 {
      IdsDiffer(c, i, 0);
    }
    assert MarkRows(c, IdAt(0)) == c[0 := c[0].(status := Published)];
  }

  /** Which manifest can be built once row 0 is served. */
  lemma FirstManifest(c: seq<Row>, before: seq<Row>, served: map<PackageId, Dir>, retain: nat)
    requires Chain(c) && before != [] && c == before[0 := before[0].(status := Published)]
    requires LastMedia(before) == 0
    ensures var s := served[IdAt(0) := Whole(c[0].manifestDigest)];
      && (RemoteFor(c, s, retain).Success? <==> FollowersServed(before, served, retain))
      && (RemoteFor(c, s, retain).Success? && |c| == 1 ==> RemoteFor(c, s, retain).value.head == 1)
  {
    var s := served[IdAt(0) := Whole(c[0].manifestDigest)];
    assert before[0].Media() && c[0].Media();
    assert LastMedia(c) == 0;
    BuildsExactlyWhenListedMatch(c, s, retain);
    assert LinkAt(c, 0);
    forall i: nat | 0 < i < |c|
      ensures Matches(c[i], s) <==> Matches(before[i], served)
      ensures Listed(c, retain, i) <==> |c| - retain <= i
    {
      assert LinkAt(c, i);
    }
    assert Matches(c[0], s);
    if RemoteFor(c, s, retain).Success? {
      BuiltIsSound(c, s, retain);
    }
  }

  /** Row 0 is published, its artifact served, and the slot empty. */
  predicate FirstFinished(w: World, found: Step<()>)
    requires w.catalog != []
  {
    && found.result.Success?
    && found.world.(tmp := map[]) == w.(
         tmp := map[], bootstrap := EMPTY_DIR,
         catalog := w.catalog[0 := w.catalog[0].(status := Published)],
         served := w.served[IdAt(0) := Whole(w.catalog[0].manifestDigest)])
  }

  lemma ResumesFirst(w: World)
    requires w.catalog != [] && w.catalog[0].id == IdAt(0)
    requires IdAt(0) in w.served ==> w.served[IdAt(0)] == Whole(w.catalog[0].manifestDigest)
    requires IdAt(0) !in w.served ==> w.catalog[0].status == Built && w.bootstrap == Whole(w.catalog[0].manifestDigest)
    requires Identifies(w.catalog[0], w.catalog[0].manifestDigest, false)
    requires Cataloged(w.catalog, IdAt(0))
    requires MarkRows(w.catalog, IdAt(0)) == w.catalog[0 := w.catalog[0].(status := Published)]
    ensures FirstFinished(w, ResumeFirstStep(w, w.catalog[0]))
  {
    var s := w.served[IdAt(0) := Whole(w.catalog[0].manifestDigest)];
    if IdAt(0) in w.served {
      assert s == w.served;
    }
    if w.catalog[0].status == Published {
      assert w.catalog[0 := w.catalog[0].(status := Published)] == w.catalog;
    }
  }

  /** Over an empty catalog bootstrap builds the first baseline, exactly when the preflight lets it. */
  predicate Builds(w: World, run: Run, s: Step<Report>) {
    && (s.result.Success? <==> run.preflight)
    && (s.result.Failure? ==> s == Step(w, Failure(PreflightFailed)))
    && (s.result.Success? ==>
          && s.world.catalog == [RowFor(FirstBaseline(run), 0, w.top, Published)]
          && s.world.served == w.served[IdAt(0) := Whole(FirstBaseline(run))]
          && s.world.bootstrap == EMPTY_DIR
          && s.world.remote.Some? && s.world.remote.value.head == 1
          && s.result.value == Report(Some(IdAt(0)), 1, w.top))
  }

  lemma BootstrapBuilds(w: World, run: Run)
    requires Inv(w) && w.catalog == []
    ensures Builds(w, run, BootstrapStep(w, run))
  {
    assert IdAt(0) !in w.served;
    assert LastMedia(w.catalog) == 0;
    if run.preflight {
      BuiltFirst(w, run);
      BuildsFrom(w, run, BuildFirstStep(w, run));
    }
  }

  /** The first baseline is published and its slot empty. */
  predicate FirstBuilt(w: World, run: Run, built: Step<()>) {
    && built.result.Success?
    && built.world.catalog == [RowFor(FirstBaseline(run), 0, w.top, Published)]
    && built.world.served == w.served[IdAt(0) := Whole(FirstBaseline(run))]
    && built.world.bootstrap == EMPTY_DIR
  }

  lemma BuiltFirst(w: World, run: Run)
    requires w.catalog == [] && IdAt(0) !in w.served && run.preflight
    ensures FirstBuilt(w, run, BuildFirstStep(w, run))
  {
    FinishOutcome(w.(bootstrap := EMPTY_DIR), Bootstrap, FirstBaseline(run), 0, run);
  }

  lemma BuildsFrom(w: World, run: Run, built: Step<()>)
    requires w.catalog == [] && run.preflight && LastMedia(w.catalog) == 0
    requires built == BuildFirstStep(w, run) && FirstBuilt(w, run, built)
    ensures Builds(w, run, BootstrapStep(w, run))
  {
    MediaAlone(RowFor(FirstBaseline(run), 0, w.top, Published), built.world.served, run.retain);
    VerificationPasses(built.world, run.retain, Some(PackageId(1, 1)));
    assert BootstrapStep(w, run) == AnnounceStep(built.world, run.retain, Some(PackageId(1, 1)));
  }

  lemma MediaAlone(row: Row, served: map<PackageId, Dir>, retain: nat)
    requires LinkAt([row], 0) && Matches(row, served)
    ensures Chain([row])
    ensures RemoteFor([row], served, retain).Success? && RemoteFor([row], served, retain).value.head == 1
  {
    assert Chain([row]);
    assert [row][0].Media();
    assert LastMedia([row]) == 0;
    BuildsExactlyWhenListedMatch([row], served, retain);
    BuiltIsSound([row], served, retain);
  }

  /** Once a bootstrap has succeeded, another with the same settings refuses and changes nothing. */
  lemma SecondBootstrapRefuses(w: World, run: Run, again: Run)
    requires Inv(w) && Inv(BootstrapStep(w, run).world) && BootstrapStep(w, run).result.Success?
    requires again.baselineId == run.baselineId && again.stamps.fingerprint == run.stamps.fingerprint
    ensures var s := BootstrapStep(w, run);
      BootstrapStep(s.world, again) == Step(s.world, Failure(AlreadyBaselined))
  {
    var s := BootstrapStep(w, run);
    if w.catalog == [] {
      BootstrapBuilds(w, run);
      assert s.world.catalog[0].Media();
    } else {
      BootstrapRecovers(w, run);
      assert s.world.catalog[0].kind == w.catalog[0].kind;
    }
    BootstrapRecovers(s.world, again);
  }

  // --- After a crash --------------------------------------------------------------------------

  predicate SameSettings(a: Run, b: Run) {
    a.baselineId == b.baselineId && a.stamps.fingerprint == b.stamps.fingerprint
  }

  /** What a bootstrap does with `w'`, which an interrupted one with the same settings has left of `w`: it
      builds if nothing was cataloged yet, refuses over a catalog that the interrupted run refused too or over
      a manifest that was already visible, and otherwise finishes, without building again. */
  ghost predicate RefusesOrFinishes(w: World, w': World, run: Run, s: Step<Report>) {
    if w'.catalog == [] then Builds(w', run, s)
    else if w.catalog != [] && !SameBaseline(w.catalog, run) then s == Step(w', Failure(RepairRequired))
    else if w'.remote.Some? then s == Step(w', Failure(AlreadyBaselined))
    else
      && s.world.catalog == w'.catalog[0 := w'.catalog[0].(status := Published)]
      && s.world.served == w'.served[IdAt(0) := Whole(w'.catalog[0].manifestDigest)]
      && (s.result.Success? <==> FollowersServed(w'.catalog, w'.served, run.retain))
      && (w.catalog == [] ==> s.result.Success? && s.world.remote.Some? && s.world.remote.value.head == 1)
  }

  /** Cut a run of bootstrap at any write: the same settings then refuse or finish. */
  lemma InterruptedBootstrapRecovers(w: World, run: Run, writes: seq<Action>, cut: nat, again: Run)
    requires Inv(w) && Ran(w, writes, BootstrapStep(w, run).world) && NoDiscard(writes)
    requires cut <= |writes| && SameSettings(again, run)
    ensures var w' := After(w, writes[..cut]); RefusesOrFinishes(w, w', again, BootstrapStep(w', again))
  {
    CutCatalog(w, writes, cut);
    var w' := After(w, writes[..cut]);
    if w.catalog == [] {
      BootstrapBuilds(w, run);
    } else {
      BootstrapRecovers(w, run);
    }
    if w'.catalog == [] {
      BootstrapBuilds(w', again);
    } else {
      BootstrapRecovers(w', again);
      CutIsSameBaseline(w.catalog, w'.catalog, BootstrapStep(w, run).world.catalog, run, again);
    }
  }

  lemma CutIsSameBaseline(c: seq<Row>, cut: seq<Row>, end: seq<Row>, run: Run, again: Run)
    requires cut != [] && RowsGrow(c, cut) && RowsGrow(cut, end) && SameSettings(again, run)
    requires if c == [] then |end| == 1 && end[0].kind == Baseline && SameBaseline(end, run) else |end| == |c|
    ensures SameBaseline(cut, again) <==> c == [] || SameBaseline(c, again)
    ensures c == [] ==> |cut| == 1
  {
    if c == [] {
      assert cut[0].kind == end[0].kind;
    } else {
      forall i: nat | i < |c| ensures c[i].kind == cut[i].kind {
        assert cut[i] == c[i] || cut[i] == c[i].(status := Published);
      }
      SameRoots(c, cut);
    }
  }

  lemma SameRoots(c: seq<Row>, d: seq<Row>)
    requires |c| == |d| && forall i: nat | i < |c| :: c[i].kind == d[i].kind
    ensures LastMedia(c) == LastMedia(d)
  {
    var j, k := LastMedia(c), LastMedia(d);
    assert j < |c| ==> d[j].Media();
    assert k < |c| ==> c[k].Media();
  }
}
