/** What operators rely on `producer_cycle` for. */
module Guarantees {
  import opened Wrappers
  import opened Packages
  import opened RemoteManifest
  import opened PublishState
  import opened PublishRuns
  import opened Producers
  import opened Cycles
  import opened CycleResults

  lemma HeldIsClaimable(w: World, i: nat)
    requires Inv(w) && NothingAbandoned(w) && i < |w.catalog|
    ensures Claimable(w, w.catalog[i].id, w.catalog[i].manifestDigest)
    ensures Compatible(w, w.catalog[i].id, w.catalog[i].digest)
  {
    assert LinkAt(w.catalog, i);
    if w.catalog[i].id in w.served {
      assert Holds(w, w.catalog[i].id);
      var j: nat :| j < |w.catalog| && w.catalog[j].id == w.catalog[i].id && Matches(w.catalog[j], w.served);
      IdsDiffer(w.catalog, i, j);
    }
  }

  lemma NextIdIsFree(w: World)
    requires Inv(w) && NothingAbandoned(w)
    ensures IdAt(|w.catalog|) !in w.served
  {
    forall j: nat | j < |w.catalog| ensures w.catalog[j].id != IdAt(|w.catalog|) {
      assert LinkAt(w.catalog, j);
    }
    assert !Holds(w, IdAt(|w.catalog|));
  }

  lemma UnabandonedIsServable(w: World, run: Run)
    requires Inv(w) && NothingAbandoned(w) && Bootstrapped(w.catalog) && run.stamps == Last(w.catalog).stamps
    ensures Servable(w, run)
  {
    NextIdIsFree(w);
    forall i: nat | i < |w.catalog|
      ensures Claimable(w, w.catalog[i].id, w.catalog[i].manifestDigest)
      ensures Compatible(w, w.catalog[i].id, w.catalog[i].digest)
    {
      HeldIsClaimable(w, i);
    }
    assert ServesPayload(w.served, w.catalog[0]);
    assert w.catalog[|w.catalog| - 1] == Last(w.catalog);
  }

  /** Everything is published, nothing is left in the slot, and clients see the newest package. */
  predicate Finished(w: World, retain: nat) {
    && w.catalog != []
    && (forall i | 0 <= i < |w.catalog| :: w.catalog[i].status == Published)
    && w.pending == EMPTY_DIR
    && w.remote.Some?
    && (retain > 0 ==> w.remote.value.head == |w.catalog|)
  }

  /** One uninterrupted `producer_cycle`, from any state that bootstrapped runs and crashes can reach without
      abandoning a served directory, finishes whatever was left and packages what is due: it adds one
      package, whose window ends at the newest change it saw, exactly when there was such a change. */
  lemma UninterruptedRunFinishes(w: World, run: Run)
    requires Reachable(w) && Bootstrapped(w.catalog) && NothingAbandoned(w) && run.stamps == Last(w.catalog).stamps
    ensures var s := ProducerStep(w, run);
      && s.result.Success?
      && Finished(s.world, run.retain)
      && s.result.value.head == |s.world.catalog| == |w.catalog| + (if Due(w) then 1 else 0)
      && Last(s.world.catalog).high == (if Due(w) then w.top else Last(w.catalog).high)
      && forall i | 0 <= i < |w.catalog| :: s.world.catalog[i] == w.catalog[i].(status := Published)
  {
    ReachableKeepsInv(w);
    UnabandonedIsServable(w, run);
    ProducerCycleExactly(w, run);
    TargetIsChain(w, run);
    FinishedState(w, run, ProducerStep(w, run));
  }

  lemma TargetRows(w: World, run: Run)
    requires Bootstrapped(w.catalog)
    requires forall i: nat | 0 < i < |w.catalog| - 1 :: w.catalog[i].status == Published
    ensures var c := TargetCatalog(w, run);
      && |c| == |w.catalog| + (if Due(w) then 1 else 0)
      && (forall i | 0 <= i < |c| :: c[i].status == Published)
      && Last(c).high == (if Due(w) then w.top else Last(w.catalog).high)
      && forall i | 0 <= i < |w.catalog| :: c[i] == w.catalog[i].(status := Published)
  {
  }

  lemma FinishedState(w: World, run: Run, s: Step<Report>)
    requires Bootstrapped(w.catalog) && UnpublishedAreStaged(w.catalog, w.pending, w.bootstrap)
    requires Servable(w, run) && ProducesRight(w, run, s) && Chain(TargetCatalog(w, run))
    ensures
      && s.result.Success?
      && Finished(s.world, run.retain)
      && s.result.value.head == |s.world.catalog| == |w.catalog| + (if Due(w) then 1 else 0)
      && Last(s.world.catalog).high == (if Due(w) then w.top else Last(w.catalog).high)
      && forall i | 0 <= i < |w.catalog| :: s.world.catalog[i] == w.catalog[i].(status := Published)
  {
    TargetRows(w, run);
    var c := s.world.catalog;
    ManifestHead(c, s.world.served, run.retain);
    assert Last(c).sequence == |c| by {
      assert LinkAt(c, |c| - 1);
    }
  }

  lemma ManifestHead(c: seq<Row>, served: map<PackageId, Dir>, retain: nat)
    requires Chain(c) && RemoteFor(c, served, retain).Success?
    ensures retain > 0 ==> RemoteFor(c, served, retain).value.head == |c|
  {
    BuiltIsSound(c, served, retain);
  }

  lemma {:induction false} PrefixAbandonsNothing(w: World, run: seq<Action>, cut: nat)
    requires cut <= |run| && !Abandons(w, run)
    ensures !Abandons(w, run[..cut])
    decreases |run|
  {
    if cut < |run| {
      var n := |run| - 1;
      PrefixAbandonsNothing(w, run[..n], cut);
      assert run[..n][..cut] == run[..cut];
    } else {
      assert run[..cut] == run;
    }
  }

  /** Recovery: cut any run of the producer that abandons nothing at any write.  If the first baseline was
      published by then, the next `producer_cycle` with the head's stamps succeeds and leaves nothing behind. */
  lemma RecoversFromEveryCrash(start: World, run: seq<Action>, cut: nat, w: World, next: Run)
    requires Initial(start) && Legal(start, run) && !Abandons(start, run)
    requires cut <= |run| && w == After(start, run[..cut])
    requires Bootstrapped(w.catalog) && next.stamps == Last(w.catalog).stamps
    ensures var s := ProducerStep(w, next); s.result.Success? && Finished(s.world, next.retain)
  {
    CutIsReachable(start, run, cut);
    UninterruptedRunFinishes(w, next);
  }

  lemma CutIsReachable(start: World, run: seq<Action>, cut: nat)
    requires Initial(start) && Legal(start, run) && !Abandons(start, run) && cut <= |run|
    ensures Reachable(After(start, run[..cut])) && NothingAbandoned(After(start, run[..cut]))
  {
    EveryCrashPoint(start, run, cut);
    PrefixAbandonsNothing(start, run, cut);
    NothingIsAbandoned(start, run[..cut]);
  }

  /** A second cycle, when nothing has been ingested since the snapshot of the first, publishes nothing and
      leaves the catalog, the served directories and the remote manifest as they are. */
  lemma SecondRunIsQuiet(w: World, run: Run, again: Run)
    requires Inv(w) && ProducerStep(w, run).result.Success?
    requires run.arrived == {} && again.arrived == {} && again.newTop == run.newTop
    requires again.stamps == run.stamps && again.retain == run.retain
    ensures var s, t := ProducerStep(w, run), ProducerStep(ProducerStep(w, run).world, again);
      t.result == Success(s.result.value.(built := None)) && t.world == s.world
  {
    ProducerCycleExactly(w, run);
    LastLinks(w);
    NothingDue(w, run, ProducerStep(w, run));
    NothingToDo(ProducerStep(w, run).world, again);
  }

  /** Nothing to resume, nothing to package, and the manifest is the one that would be built. */
  lemma NothingToDo(w: World, run: Run)
    requires w.catalog != [] && w.pending == EMPTY_DIR && run.stamps == Last(w.catalog).stamps && !Due(w)
    requires w.remote.Some? && RemoteFor(w.catalog, w.served, run.retain) == Success(w.remote.value)
    requires run.arrived == {} && run.newTop == w.top
    ensures ProducerStep(w, run) == Step(w, Success(HeadReport(w.catalog, None)))
  {
    assert IngestStep(w, run) == w;
  }

  lemma NothingDue(w: World, run: Run, s: Step<Report>)
    requires WindowsSeen(w.top, w.changes, w.catalog) && run.arrived == {}
    requires ProducesRight(w, run, s) && Servable(w, run)
    ensures !Due(s.world)
    ensures Last(s.world.catalog).stamps == run.stamps
  {
  }
}
