/** What is in the packages: each entry point puts the run's own content into the one it publishes, and reports
    the head that this makes. */
module PackageContents {
  import opened Wrappers
  import opened Packages
  import opened PublishState
  import opened Producers
  import opened Cycles
  import opened FirstBaselines
  import opened CycleResults
  import opened RebaselineResults
  import opened BootstrapResults

  /** The row and the directory served under its id hold what the run has materialised, under its settings. */
  predicate Carries(row: Row, served: map<PackageId, Dir>, run: Run) {
    && row.digest == run.payload && row.manifestDigest.digest == run.payload
    && row.stamps == run.stamps && row.manifestDigest.stamps == run.stamps
    && row.manifestDigest.createdAt == run.createdAt
    && row.id in served && served[row.id].files == run.payload && served[row.id].manifest.Some?
    && row.status == Published
  }

  /** The report names the newest row. */
  predicate Reports(report: Report, row: Row) {
    report == Report(Some(row.id), row.sequence, row.high)
  }

  /** After a bootstrap over an empty catalog, the one row and its directory are the run's. */
  lemma BootstrapContents(w: World, run: Run)
    requires Inv(w) && w.catalog == [] && BootstrapStep(w, run).result.Success?
    ensures var s := BootstrapStep(w, run);
      && |s.world.catalog| == 1
      && var row := s.world.catalog[0];
         && Carries(row, s.world.served, run) && Reports(s.result.value, row)
         && row.kind == Baseline && row.id == PackageId(1, 1) && row.sequence == 1 && row.generation == 1
         && row.baselineId == run.baselineId && row.previous == None && (row.low, row.high) == (0, w.top)
         && s.world.served[row.id].manifest == Some(row.manifestDigest)
  {
    BootstrapBuilds(w, run);
  }

  /** What a directory under the next id holds if the run's payload can be published there. */
  lemma HeldIsPayload(w: World, id: PackageId, payload: Payload)
    requires Inv(w) && id in w.served && Compatible(w, id, payload)
    ensures w.served[id].files == payload
  {
    assert ServedAt(w.served[id], id, |w.catalog|);
  }

  /** When a change is due, `producer_cycle` appends one incremental with the run's content, which goes on with the
      generation and the baseline of the row before it and covers the changes since that row. */
  lemma ProducerContents(w: World, run: Run)
    requires Inv(w) && ProducerStep(w, run).result.Success? && w.catalog != [] && Due(w)
    ensures var s, prev := ProducerStep(w, run), Last(w.catalog);
      && |s.world.catalog| == |w.catalog| + 1
      && var row := Last(s.world.catalog);
         && Carries(row, s.world.served, run) && Reports(s.result.value, row)
         && row.kind == Incremental && row.id == PackageId(|w.catalog|, |w.catalog| + 1)
         && row.sequence == |w.catalog| + 1 && row.generation == prev.generation && row.baselineId == prev.baselineId
         && row.previous == Some(Link(prev.id, prev.digest)) && (row.low, row.high) == (prev.high, w.top)
  {
    ProducerCycleExactly(w, run);
    LastLinks(w);
    NextIdServed(w);
    if IdAt(|w.catalog|) in w.served {
      HeldIsPayload(w, IdAt(|w.catalog|), run.payload);
    }
  }

  /** Without a due change it appends nothing, and reports the row it resumed, if any, and the head. */
  lemma QuietReport(w: World, run: Run)
    requires Inv(w) && ProducerStep(w, run).result.Success? && w.catalog != [] && !Due(w)
    ensures var s := ProducerStep(w, run);
      && |s.world.catalog| == |w.catalog|
      && (s.result.value.head, s.result.value.high) == (|w.catalog|, Last(w.catalog).high)
      && (s.result.value.built.Some? ==> s.result.value.built == Some(Last(w.catalog).id))
  {
    ProducerCycleExactly(w, run);
    LastLinks(w);
    InvGivesHeadFacts(w);
  }

  /** A rebaseline appends a new media root with the run's content and the run's baseline id, one generation on. */
  lemma RebaselineContents(w: World, run: Run)
    requires Inv(w) && RebaselineStep(w, run).result.Success?
    ensures w.catalog != []
    ensures var s, base := RebaselineStep(w, run), Base(w);
      && |s.world.catalog| == base.sequence + 1
      && var row := Last(s.world.catalog);
         && Carries(row, s.world.served, run) && Reports(s.result.value, row)
         && row.kind == Rebaseline && row.id == PackageId(base.sequence, base.sequence + 1)
         && row.sequence == base.sequence + 1 && row.generation == base.generation + 1 && row.baselineId == run.baselineId
         && row.previous == Some(Link(base.id, base.digest)) && (row.low, row.high) == (base.high, w.top)
         && s.world.served[row.id].manifest == Some(row.manifestDigest)
  {
    RebaselineCycleExactly(w, run);
    BaseFacts(w);
    ClearedIsChain(w);
    var id := IdAt(Base(w).sequence);
    if id in w.served {
      HeldIsPayload(w, id, run.payload);
    }
  }
}
