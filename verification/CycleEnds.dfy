/** What `producer_cycle` leaves in the catalog and the served directories, whether it succeeds or fails. */
module CycleEnds {
  import opened Wrappers
  import opened Packages
  import opened RemoteManifest
  import opened PublishState
  import opened Producers
  import opened Cycles
  import opened CycleResults

  predicate HeadResumable(w: World) {
    |w.catalog| > 1 ==> Compatible(w, Last(w.catalog).id, Last(w.catalog).digest)
  }

  /** A package cataloged after `c`, published if its id can be published with its payload. */
  function Added(w: World, c: seq<Row>, m: Manifest, low: nat): seq<Row> {
    c + [RowFor(m, low, w.top, if Compatible(w, m.id, m.digest) then Published else Built)]
  }

  function ProducerLeaves(w: World, run: Run): seq<Row>
    requires w.catalog != []
  {
    var prev := Last(w.catalog);
    if !HeadResumable(w) then w.catalog
    else if run.stamps != prev.stamps || !Due(w) then Settled(w.catalog)
    else Added(w, Settled(w.catalog), NextIncremental(prev, run), prev.high)
  }

  function ProducerServes(w: World, run: Run): map<PackageId, Dir>
    requires w.catalog != []
  {
    var prev := Last(w.catalog);
    var m := NextIncremental(prev, run);
    if !HeadResumable(w) then w.served
    else if run.stamps != prev.stamps || !Due(w) || !Compatible(w, m.id, m.digest) then SettledServed(w)
    else With(SettledServed(w), m)
  }

  ghost predicate ProducerEnds(w: World, run: Run, s: Step<Report>)
    requires w.catalog != []
  {
    && s.world.catalog == ProducerLeaves(w, run)
    && (s.result.Failure? ==> s.world.remote == w.remote)
    && s.world.served == ProducerServes(w, run)
    && (GetsToAnnounce(w, run) ==> AnnounceEnds(s, run.retain))
  }

  /** Nothing fails before the remote manifest is built. */
  predicate GetsToAnnounce(w: World, run: Run)
    requires w.catalog != []
  {
    HeadResumable(w) && run.stamps == Last(w.catalog).stamps && (Due(w) ==> Compatible(w, IdAt(|w.catalog|), run.payload))
  }

  ghost predicate AnnounceEnds(s: Step<Report>, retain: nat) {
    match RemoteFor(s.world.catalog, s.world.served, retain)
    case Success(remote) => s.result.Success? && s.world.remote == Some(remote)
    case Failure(error) => s.result == Failure(RemoteFailed(error))
  }

  lemma ProducerCatalog(w: World, run: Run)
    requires Inv(w) && w.catalog != []
    ensures ProducerEnds(w, run, ProducerStep(w, run))
  {
    ResumeOutcome(w);
    if ResumeStep(w).result.Success? {
      SettledIsChain(w);
      LastLinks(w);
      NextIdServed(w);
      ResumeSucceeds(w, run);
    } else {
      ResumeFails(w, run);
    }
  }

  lemma ResumeSucceeds(w: World, run: Run)
    requires w.catalog != [] && ResumesRight(w) && ResumeStep(w).result.Success?
    requires Chain(Settled(w.catalog)) && Last(w.catalog).sequence == |w.catalog|
    requires var id := IdAt(|w.catalog|);
      && (id in SettledServed(w) <==> id in w.served)
      && (id in w.served ==> SettledServed(w)[id] == w.served[id] && w.served[id].manifest.Some?)
    ensures ProducerEnds(w, run, ProducerStep(w, run))
  {
    var w1 := ResumeStep(w).world.(pending := EMPTY_DIR);
    var prev := Last(w.catalog);
    var m := NextIncremental(prev, run);
    assert m == NextIncremental(Last(w1.catalog), run);
    FinishOutcome(w1, Pending, m, prev.high, run);
    FreshOutcome(w1, run, ResumeStep(w).result.value, m);
    FreshEnds(w, w1, run, m, ProducerStep(w, run));
  }

  lemma ResumeFails(w: World, run: Run)
    requires w.catalog != [] && ResumesRight(w) && ResumeStep(w).result.Failure?
    ensures ProducerEnds(w, run, ProducerStep(w, run))
  {
  }

  /** What follows once nothing is left to resume. */
  ghost predicate FreshRight(w: World, run: Run, m: Manifest, s: Step<Report>)
    requires w.catalog != []
  {
    var prev := Last(w.catalog);
    && (s.result.Failure? ==> s.world.remote == w.remote)
    && if run.stamps == prev.stamps && Due(w) then
         && s.world.catalog == Added(w, w.catalog, m, prev.high)
         && s.world.served == (if Compatible(w, m.id, m.digest) then With(w.served, m) else w.served)
         && (Compatible(w, m.id, m.digest) ==> AnnounceEnds(s, run.retain))
       else
         && s.world.catalog == w.catalog && s.world.served == w.served
         && (run.stamps == prev.stamps ==> AnnounceEnds(s, run.retain))
  }

  lemma FreshOutcome(w: World, run: Run, resumed: Option<PackageId>, m: Manifest)
    requires w.catalog != [] && m == NextIncremental(Last(w.catalog), run)
    requires FinishesRight(w, Pending, m, Last(w.catalog).high, run)
    ensures FreshRight(w, run, m, FreshStep(w, run, resumed))
  {
    if run.stamps == Last(w.catalog).stamps && Due(w) {
      DueEnds(w, run, resumed, m);
    } else {
      QuietEnds(w, run, resumed);
    }
  }

  lemma FreshEnds(w: World, w1: World, run: Run, m: Manifest, s: Step<Report>)
    requires w.catalog != [] && IsResumed(w, w1) && HeadResumable(w)
    requires m == NextIncremental(Last(w.catalog), run) && FreshRight(w1, run, m, s)
    requires m.id == IdAt(|w.catalog|)
    requires m.id in SettledServed(w) <==> m.id in w.served
    requires m.id in w.served ==> SettledServed(w)[m.id] == w.served[m.id]
    ensures ProducerEnds(w, run, s)
  {
    var prev := Last(w1.catalog);
    assert prev == Last(w.catalog).(status := prev.status);
    assert Compatible(w1, m.id, m.digest) <==> Compatible(w, m.id, m.digest);
    assert Due(w1) <==> Due(w);
  }

  lemma QuietEnds(w: World, run: Run, resumed: Option<PackageId>)
    requires w.catalog != [] && (run.stamps != Last(w.catalog).stamps || !Due(w))
    ensures var s := FreshStep(w, run, resumed);
      && s.world.catalog == w.catalog && s.world.served == w.served
      && (s.result.Failure? ==> s.world.remote == w.remote)
      && (run.stamps == Last(w.catalog).stamps ==> AnnounceEnds(s, run.retain))
  {
  }

  lemma DueEnds(w: World, run: Run, resumed: Option<PackageId>, m: Manifest)
    requires w.catalog != [] && run.stamps == Last(w.catalog).stamps && Due(w)
    requires m == NextIncremental(Last(w.catalog), run) && FinishesRight(w, Pending, m, Last(w.catalog).high, run)
    ensures var s := FreshStep(w, run, resumed);
      && s.world.catalog == Added(w, w.catalog, m, Last(w.catalog).high)
      && s.world.served == (if Compatible(w, m.id, m.digest) then With(w.served, m) else w.served)
      && (s.result.Failure? ==> s.world.remote == w.remote)
      && (Compatible(w, m.id, m.digest) ==> AnnounceEnds(s, run.retain))
  {
    var staged := StageStep(w, Pending, m, Last(w.catalog).high, run);
    assert IncrementalStep(w, run) == Step(staged, Success(Some(m.id)));
    assert FreshStep(w, run, resumed) == FinishAndAnnounceStep(staged, m.id, Pending, run.retain);
    FinishEnds(staged, m.id, run.retain);
  }

  lemma FinishEnds(w: World, id: PackageId, retain: nat)
    ensures var s := FinishAndAnnounceStep(w, id, Pending, retain);
      && s.world.(remote := w.remote) == FinishStep(w, id, Pending).world.(remote := w.remote)
      && (s.result.Failure? ==> s.world.remote == w.remote)
      && (FinishStep(w, id, Pending).result.Success? ==> AnnounceEnds(s, retain))
  {
  }
}
