/** What the two cycles do when they are run before the first baseline has been published, when a bootstrap can
    still put that right, and when nothing can any more. */
module UnfinishedBootstraps {
  import opened Wrappers
  import opened Packages
  import opened RemoteManifest
  import opened PublishState
  import opened PublishRuns
  import opened Producers
  import opened Cycles
  import opened FirstBaselines
  import opened CycleResults
  import opened CycleEnds
  import opened RebaselineResults
  import opened BootstrapResults

  /** A published successor stands over an unpublished first baseline. */
  predicate Overtaken(c: seq<Row>) {
    c != [] && c[0].status == Built && exists i | 0 < i < |c| :: c[i].status == Published
  }

  // --- When a run leaves a published successor over an unpublished first baseline ----------------

  /** `producer_cycle` does so when one is there already, when it has one to resume, or when it has a first one
      to build and can publish it. */
  predicate ProducerOvertakes(w: World, run: Run)
    requires w.catalog != []
  {
    && w.catalog[0].status == Built
    && if |w.catalog| == 1
       then run.stamps == w.catalog[0].stamps && Due(w) && Compatible(w, IdAt(1), run.payload)
       else Overtaken(w.catalog) || HeadResumable(w)
  }

  /** `rebaseline_cycle` needs no change to be due, and replaces an unfinished rebaseline instead of resuming
      it. */
  predicate RebaselineOvertakes(w: World, run: Run)
    requires w.catalog != []
  {
    && w.catalog[0].status == Built
    && if |w.catalog| == 1 || (|w.catalog| == 2 && Unfinished(w))
       then Compatible(w, IdAt(1), run.payload)
       else Overtaken(w.catalog) || HeadResumable(w)
  }

  lemma ProducerOvertakesExactly(w: World, run: Run)
    requires Inv(w) && w.catalog != []
    ensures Overtaken(ProducerStep(w, run).world.catalog) <==> ProducerOvertakes(w, run)
  {
    ProducerCatalog(w, run);
    LastLinks(w);
    assert LinkAt(w.catalog, 0);
    ProducerLeavesOvertaken(w, run);
  }

  lemma ProducerLeavesOvertaken(w: World, run: Run)
    requires w.catalog != [] && UnpublishedAreStaged(w.catalog, w.pending, w.bootstrap)
    requires NextIncremental(Last(w.catalog), run).id == IdAt(|w.catalog|)
    ensures Overtaken(ProducerLeaves(w, run)) <==> ProducerOvertakes(w, run)
  {
    var c, d := w.catalog, ProducerLeaves(w, run);
    assert d[0].status == c[0].status;
    if |c| > 1 {
      assert HeadResumable(w) ==> d[|c| - 1].status == Published;
      assert |c| > 2 ==> c[1].status == Published && d[1].status == Published;
    } else if Due(w) && run.stamps == Last(c).stamps {
      assert d[1].status == if Compatible(w, IdAt(1), run.payload) then Published else Built;
    }
  }

  lemma RebaselineOvertakesExactly(w: World, run: Run)
    requires Inv(w) && w.catalog != []
    ensures Overtaken(RebaselineStep(w, run).world.catalog) <==> RebaselineOvertakes(w, run)
  {
    RebaselineCatalog(w, run);
    BaseFacts(w);
    RebaselineLeavesOvertaken(w, run);
  }

  lemma RebaselineLeavesOvertaken(w: World, run: Run)
    requires w.catalog != [] && UnpublishedAreStaged(w.catalog, w.pending, w.bootstrap)
    requires NextRebaseline(Base(w), run).id == IdAt(|ClearedCatalog(w)|)
    ensures Overtaken(RebaselineLeaves(w, run)) <==> RebaselineOvertakes(w, run)
  {
    var c, d := w.catalog, RebaselineLeaves(w, run);
    var n := |ClearedCatalog(w)|;
    assert d[0].status == c[0].status;
    if HeadResumable(w) || Unfinished(w) {
      assert d[n].status == if Compatible(w, IdAt(n), run.payload) then Published else Built;
    }
    assert |c| > 1 && !Unfinished(w) && HeadResumable(w) ==> d[|c| - 1].status == Published;
    assert |c| > 2 ==> c[1].status == Published && d[1].status == Published;
  }

  // --- Whether such a run succeeds --------------------------------------------------------------

  /** `Servable`, without row 0. */
  predicate ServableBesides(w: World, run: Run)
    requires w.catalog != []
  {
    var c, n := w.catalog, |w.catalog|;
    && GetsToAnnounce(w, run)
    && (Due(w) && run.retain > 0 ==> Claimable(w, IdAt(n), NextIncremental(Last(c), run)))
    && forall i: nat | 0 < i < n && Offered(LastMedia(c), if Due(w) then n + 1 else n, run.retain, i) :: CanServe(w, i)
  }

  /** While the first baseline is the media root, `producer_cycle` depends on whether it is served, not on
      whether it is marked.  If it is, the run succeeds and clients see the outcome; if it is not, the run fails
      at the manifest, with whatever it has packaged by then published. */
  lemma ProducerSplitsOnServed(w: World, run: Run)
    requires Inv(w) && w.catalog != []
    ensures var s := ProducerStep(w, run);
      && (s.result.Success? <==> ServableBesides(w, run) && (LastMedia(w.catalog) == 0 ==> IdAt(0) in w.served))
      && (s.result.Success? ==> s.world.remote.Some?)
      && (s.result.Failure? ==> s.world.remote == w.remote)
      && (GetsToAnnounce(w, run) && LastMedia(w.catalog) == 0 && IdAt(0) !in w.served ==>
            s.result == Failure(RemoteFailed(Missing(IdAt(0)))))
  {
    ProducerCycleExactly(w, run);
    ProducerCatalog(w, run);
    RowZeroServed(w);
    ServableSplits(w, run);
    if GetsToAnnounce(w, run) && LastMedia(w.catalog) == 0 && IdAt(0) !in w.served {
      TargetIsChain(w, run);
      LastLinks(w);
      assert LinkAt(w.catalog, 0) && LinkAt(w.catalog, |w.catalog| - 1);
      RootMissing(w, run);
    }
  }

  lemma RootMissing(w: World, run: Run)
    requires w.catalog != [] && GetsToAnnounce(w, run) && w.catalog[0].id == IdAt(0) && IdAt(0) !in w.served
    requires Last(w.catalog).sequence == |w.catalog| && Last(w.catalog).id == IdAt(|w.catalog| - 1)
    requires LastMedia(TargetCatalog(w, run)) == 0
    ensures RemoteFor(ProducerLeaves(w, run), ProducerServes(w, run), run.retain) == Failure(Missing(IdAt(0)))
  {
    assert ProducerLeaves(w, run) == TargetCatalog(w, run);
    assert TargetCatalog(w, run)[0].id == IdAt(0);
    assert IdAt(0) !in ProducerServes(w, run);
  }

  lemma RowZeroServed(w: World)
    requires Inv(w) && w.catalog != []
    ensures CanServe(w, 0) <==> IdAt(0) in w.served
  {
    assert LinkAt(w.catalog, 0);
  }

  lemma ServableSplits(w: World, run: Run)
    requires w.catalog != [] && (CanServe(w, 0) <==> IdAt(0) in w.served)
    ensures Servable(w, run) <==> ServableBesides(w, run) && (LastMedia(w.catalog) == 0 ==> IdAt(0) in w.served)
  {
    assert Offered(LastMedia(w.catalog), if Due(w) then |w.catalog| + 1 else |w.catalog|, run.retain, 0)
      <==> LastMedia(w.catalog) == 0;
  }

  // --- What bootstrap can still mend ------------------------------------------------------------

  /** The first baseline is not marked, and either clients see a manifest or a later media root is
      published. */
  ghost predicate Stuck(w: World) {
    && w.catalog != [] && w.catalog[0].status == Built
    && (w.remote.Some? || Superseded(w.catalog))
  }

  ghost predicate Superseded(c: seq<Row>) {
    exists i: nat :: Superseding(c, i)
  }

  predicate Superseding(c: seq<Row>, i: nat) {
    0 < i < |c| && c[i].kind == Rebaseline && c[i].status == Published
  }

  /** Bootstrap marks the first baseline exactly when its settings are those it was built with, it is still
      the media root, and clients see no manifest yet. */
  lemma BootstrapMendsExactly(w: World, run: Run)
    requires Inv(w) && w.catalog != [] && w.catalog[0].status == Built
    ensures Bootstrapped(BootstrapStep(w, run).world.catalog) <==> SameBaseline(w.catalog, run) && w.remote == None
  {
    BootstrapRecovers(w, run);
  }

  /** From a stuck state it refuses, whatever its settings, and changes nothing. */
  lemma StuckIsRefused(w: World, run: Run)
    requires Inv(w) && Stuck(w)
    ensures BootstrapStep(w, run) in {Step(w, Failure(RepairRequired)), Step(w, Failure(AlreadyBaselined))}
  {
    BootstrapRecovers(w, run);
    if w.remote == None {
      var i: nat :| Superseding(w.catalog, i);
      assert w.catalog[i].Media();
    }
  }

  /** The state that a `rebaseline_cycle` killed right after its first write leaves. */
  function WithoutUnfinished(w: World): World {
    if Unfinished(w) then w.(catalog := w.catalog[..|w.catalog| - 1]) else w
  }

  /** A state that is not stuck can be mended, at once or after an unfinished rebaseline has been thrown
      away. */
  lemma UnlessStuckItMends(w: World, run: Run)
    requires Inv(w) && w.catalog != [] && w.catalog[0].status == Built && !Stuck(w)
    requires run.baselineId == w.catalog[0].baselineId && run.stamps.fingerprint == w.catalog[0].stamps.fingerprint
    ensures Unfinished(w) ==>
      Enabled(w, Discard(Last(w.catalog).id)) && WithoutUnfinished(w) == Apply(w, Discard(Last(w.catalog).id))
    ensures Bootstrapped(BootstrapStep(WithoutUnfinished(w), run).world.catalog)
  {
    var w' := WithoutUnfinished(w);
    if Unfinished(w) {
      DiscardCatalog(w.catalog, Last(w.catalog).id);
      DiscardKeeps(w, Last(w.catalog).id);
    }
    OnlyFirstIsCanonical(w', run);
    assert LastMedia(w'.catalog) == 0 by {
      var k := LastMedia(w'.catalog);
      if k > 0 {
        assert !Superseding(w.catalog, k);
      }
    }
    BootstrapMendsExactly(w', run);
  }

  /** `producer_cycle` makes a state stuck exactly when it succeeds or resumes a rebaseline. */
  lemma ProducerSticksExactly(w: World, run: Run)
    requires Inv(w) && w.catalog != [] && w.catalog[0].status == Built
    ensures Stuck(ProducerStep(w, run).world) <==>
      Stuck(w) || ProducerStep(w, run).result.Success? || (Unfinished(w) && HeadResumable(w))
  {
    ProducerCatalog(w, run);
    ProducerSplitsOnServed(w, run);
    ProducerSupersedes(w, run);
    SticksFrom(w, ProducerStep(w, run), Unfinished(w) && HeadResumable(w));
  }

  lemma SticksFrom(w: World, s: Step<Report>, supersedes: bool)
    requires w.catalog != [] && w.catalog[0].status == Built
    requires s.world.catalog != [] && s.world.catalog[0].status == Built
    requires Superseded(s.world.catalog) <==> Superseded(w.catalog) || supersedes
    requires if s.result.Success? then s.world.remote.Some? else s.world.remote == w.remote
    ensures Stuck(s.world) <==> Stuck(w) || s.result.Success? || supersedes
  {
  }

  lemma ProducerSupersedes(w: World, run: Run)
    requires w.catalog != []
    ensures var d := ProducerLeaves(w, run); d != [] && d[0].status == w.catalog[0].status
    ensures Superseded(ProducerLeaves(w, run)) <==> Superseded(w.catalog) || (Unfinished(w) && HeadResumable(w))
  {
    var c, d := w.catalog, ProducerLeaves(w, run);
    if HeadResumable(w) {
      SettledSupersedes(w);
      if d != Settled(c) {
        AddedSupersedes(Settled(c), d[|c|]);
      }
    }
  }

  lemma SettledSupersedes(w: World)
    requires w.catalog != []
    ensures Superseded(Settled(w.catalog)) <==> Superseded(w.catalog) || Unfinished(w)
  {
    var c, d := w.catalog, Settled(w.catalog);
    if i: nat :| Superseding(c, i) {
      assert Superseding(d, i);
    }
    if Unfinished(w) {
      assert Superseding(d, |c| - 1);
    }
    if i: nat :| Superseding(d, i) {
      assert Superseding(c, i) || Unfinished(w);
    }
  }

  lemma AddedSupersedes(c: seq<Row>, row: Row)
    requires c != []
    ensures Superseded(c + [row]) <==> Superseded(c) || (row.kind == Rebaseline && row.status == Published)
  {
    var d := c + [row];
    if i: nat :| Superseding(c, i) {
      assert Superseding(d, i);
    }
    if row.kind == Rebaseline && row.status == Published {
      assert Superseding(d, |c|);
    }
    if i: nat :| Superseding(d, i) {
      assert i < |c| ==> Superseding(c, i);
    }
  }

  /** `rebaseline_cycle` does exactly when it publishes its package, whether or not it can list it. */
  lemma RebaselineSticksExactly(w: World, run: Run)
    requires Inv(w) && w.catalog != [] && w.catalog[0].status == Built
    ensures Stuck(RebaselineStep(w, run).world) <==> Stuck(w) || PublishesRoot(w, run)
  {
    RebaselineCatalog(w, run);
    RebaselineCycleExactly(w, run);
    BaseFacts(w);
    RebaselineSupersedes(w, run);
    SticksFrom(w, RebaselineStep(w, run), PublishesRoot(w, run));
  }

  /** The way to a new root is clear, and its id can be published with its payload. */
  predicate PublishesRoot(w: World, run: Run)
    requires w.catalog != []
  {
    (HeadResumable(w) || Unfinished(w)) && Compatible(w, IdAt(Base(w).sequence), run.payload)
  }

  lemma RebaselineSupersedes(w: World, run: Run)
    requires w.catalog != [] && Base(w).sequence == |ClearedCatalog(w)| > 0
    ensures var d := RebaselineLeaves(w, run); d != [] && d[0].status == w.catalog[0].status
    ensures Superseded(RebaselineLeaves(w, run)) <==> Superseded(w.catalog) || PublishesRoot(w, run)
  {
    var c, d := w.catalog, RebaselineLeaves(w, run);
    if HeadResumable(w) || Unfinished(w) {
      ClearedSupersedes(w);
      AddedSupersedes(ClearedCatalog(w), d[|d| - 1]);
    }
  }

  lemma ClearedSupersedes(w: World)
    requires w.catalog != []
    ensures Superseded(ClearedCatalog(w)) <==> Superseded(w.catalog)
  {
    var c := w.catalog;
    if Unfinished(w) {
      assert c[..|c| - 1] + [Last(c)] == c;
      AddedSupersedes(c[..|c| - 1], Last(c));
    } else {
      SettledSupersedes(w);
    }
  }

  // --- The two cycles over an unpublished first baseline -----------------------------------------

  /** `producer_cycle` over a first baseline that is cataloged and no more, with a change to package: it
      publishes the successor.  If the baseline is not served yet the run then fails, clients see what they
      saw before, and bootstrap can still mend it; if it is served the run goes through, and nothing can. */
  lemma CycleOverUnfinishedBootstrap(w: World, run: Run)
    requires Inv(w) && |w.catalog| == 1 && ProducerOvertakes(w, run)
    ensures var s := ProducerStep(w, run);
      && |s.world.catalog| == 2 && s.world.catalog[0].status == Built && s.world.catalog[1].status == Published
      && if IdAt(0) in w.served then
           && (s.result.Success? <==> (run.retain > 0 ==> Claimable(w, IdAt(1), NextIncremental(w.catalog[0], run))))
           && (s.result.Success? ==> s.world.remote.Some? && Stuck(s.world))
         else
           && s.result == Failure(RemoteFailed(Missing(IdAt(0)))) && s.world.remote == w.remote
           && (Stuck(s.world) <==> Stuck(w))
  {
    assert LinkAt(w.catalog, 0);
    ProducerCatalog(w, run);
    ProducerSplitsOnServed(w, run);
    ProducerSticksExactly(w, run);
    assert w.catalog[0].Media();
  }

  /** `rebaseline_cycle` does not look at the first baseline at all: whenever it goes through it leaves a
      published successor over it, which clients see and bootstrap refuses for ever. */
  lemma RebaselineOverUnfinishedBootstrap(w: World, run: Run)
    requires Inv(w) && w.catalog != [] && w.catalog[0].status == Built && Rebaselinable(w, run)
    ensures var s := RebaselineStep(w, run);
      s.result.Success? && s.world.remote.Some? && Overtaken(s.world.catalog) && Stuck(s.world)
  {
    RebaselineCycleExactly(w, run);
    RebaselineCatalog(w, run);
    BaseFacts(w);
    var n := |ClearedCatalog(w)|;
    var d := RebaselineStep(w, run).world.catalog;
    assert d[0].status == Built && d[n].status == Published;
  }

  // --- For ever -----------------------------------------------------------------------------------

  datatype Call = Produce | NewRoot | BootstrapFirst

  function CallStep(w: World, call: Call, run: Run): Step<Report> {
    match call
    case Produce => ProducerStep(w, run)
    case NewRoot => RebaselineStep(w, run)
    case BootstrapFirst => BootstrapStep(w, run)
  }

  /** `w'` is where some call from `w` ends, or where a crash cuts it. */
  ghost predicate Leads(w: World, w': World) {
    exists call: Call, run: Run, writes: seq<Action>, cut: nat ::
      cut <= |writes| && Ran(w, writes, CallStep(w, call, run).world) && After(w, writes[..cut]) == w'
  }

  lemma StuckCall(w: World, call: Call, run: Run)
    requires Inv(w) && Stuck(w)
    ensures var c := CallStep(w, call, run).world.catalog; c != [] && c[0].status == Built
  {
    match call {
      case Produce =>
        ProducerCatalog(w, run);
        ProducerSupersedes(w, run);
      case NewRoot =>
        RebaselineCatalog(w, run);
        BaseFacts(w);
        RebaselineSupersedes(w, run);
      case BootstrapFirst =>
        StuckIsRefused(w, run);
    }
  }

  lemma StuckStays(w: World, w': World)
    requires Inv(w) && Stuck(w) && Leads(w, w')
    ensures Inv(w') && Stuck(w')
  {
    var call: Call, run: Run, writes: seq<Action>, cut: nat :|
      cut <= |writes| && Ran(w, writes, CallStep(w, call, run).world) && After(w, writes[..cut]) == w';
    StuckCall(w, call, run);
    EveryCrashPoint(w, writes, cut);
    RunsExtend(w, writes[..cut]);
    RunsSplit(w, writes, cut);
    RunsExtend(w', writes[cut..]);
    StuckBetween(w, w', After(w, writes));
  }

  lemma StuckBetween(w: World, w': World, end: World)
    requires Stuck(w) && Extends(w, w') && Extends(w', end) && end.catalog != [] && end.catalog[0].status == Built
    ensures Stuck(w')
  {
    if w.remote == None {
      var i: nat :| Superseding(w.catalog, i);
      assert Superseding(w'.catalog, i);
    }
  }

  /** Calls one after the other, each starting from where the one before it ended or was cut. */
  ghost predicate History(h: seq<World>) {
    forall i | 0 < i < |h| :: Leads(h[i - 1], h[i])
  }

  /** Once stuck, always stuck: whatever entry points are called, with whatever settings, and wherever crashes
      cut them, the first baseline is never marked, so no state on the way is bootstrapped. */
  lemma {:induction false} StuckForEver(h: seq<World>, k: nat)
    requires History(h) && k < |h| && Inv(h[0]) && Stuck(h[0])
    ensures Inv(h[k]) && Stuck(h[k]) && !Bootstrapped(h[k].catalog)
  {
    if k > 0 {
      StuckForEver(h, k - 1);
      StuckStays(h[k - 1], h[k]);
    }
  }
}
