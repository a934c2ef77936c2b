/** What one uninterrupted run of each entry point achieves, from every state that crashed and finished
    runs can leave behind. */
module CycleResults {
  import opened Wrappers
  import opened Packages
  import opened RemoteManifest
  import opened PublishState
  import opened Producers
  import opened Cycles

  /** An id can be published with this payload: it is free, or already served with it. */
  predicate Compatible(w: World, id: PackageId, payload: Payload) {
    id in w.served ==> w.served[id].manifest.Some? && w.served[id].manifest.value.digest == payload
  }

  /** An id is free, or already serves exactly this artifact. */
  predicate Claimable(w: World, id: PackageId, m: Manifest) {
    id in w.served ==> w.served[id].manifest == Some(m)
  }

  /** Ingest has given this corpus a change that no package covers. */
  predicate Due(w: World)
    requires w.catalog != []
  {
    HasChange(w.changes, Last(w.catalog).high, w.top)
  }

  /** The catalog once its newest incremental or rebaseline has been published. */
  function Settled(c: seq<Row>): seq<Row> {
    if |c| > 1 then c[|c| - 1 := Last(c).(status := Published)] else c
  }

  function SettledServed(w: World): map<PackageId, Dir> {
    if |w.catalog| > 1 && Last(w.catalog).id !in w.served
    then w.served[Last(w.catalog).id := Whole(Last(w.catalog).manifestDigest)]
    else w.served
  }

  lemma SettledIsChain(w: World)
    requires Inv(w)
    ensures Chain(Settled(w.catalog))
    ensures |w.catalog| > 1 ==> MarkRows(w.catalog, Last(w.catalog).id) == Settled(w.catalog)
  {
    var c := w.catalog;
    var n := |c|;
    if n > 1 {
      MarkKeepsChain(c, Last(c).id);
      forall i: nat | i < n && c[i].id == Last(c).id ensures i == n - 1 {
        IdsDiffer(c, i, n - 1);
      }
      assert MarkRows(c, Last(c).id) == Settled(c);
    }
  }

  /** What the invariant says of the newest row and of the slot it would be resumed from. */
  ghost predicate HeadFacts(w: World) {
    var c := w.catalog;
    && (|c| > 1 ==>
          && Cataloged(c, Last(c).id)
          && Last(c).manifestDigest.id == Last(c).id && Last(c).manifestDigest.digest == Last(c).digest
          && MarkRows(c, Last(c).id) == Settled(c)
          && (Last(c).id in w.served ==> w.served[Last(c).id].manifest.Some?)
          && (if Last(c).status == Published then ServesPayload(w.served, Last(c)) && Settled(c) == c
              else w.pending == Whole(Last(c).manifestDigest)))
    && (w.pending.manifest.Some? && Cataloged(c, w.pending.manifest.value.id) ==>
          |c| > 1 && w.pending.manifest == Some(Last(c).manifestDigest))
  }

  lemma InvGivesHeadFacts(w: World)
    requires Inv(w)
    ensures HeadFacts(w)
  {
    var c := w.catalog;
    SettledIsChain(w);
    if |c| > 1 {
      assert LinkAt(c, |c| - 1);
      if Last(c).id in w.served {
        assert ServedAt(w.served[Last(c).id], Last(c).id, |c|);
      }
    }
    if w.pending.manifest.Some? && Cataloged(c, w.pending.manifest.value.id) {
      StagedIsLast(w);
    }
  }

  /** Resuming fails only where the newest id is served with another payload; otherwise it publishes the
      newest row if that is unpublished, and leaves no artifact to resume. */
  ghost predicate ResumesRight(w: World) {
    var s, c := ResumeStep(w), w.catalog;
    && (s.result.Success? <==> (|c| > 1 ==> Compatible(w, Last(c).id, Last(c).digest)))
    && (s.result.Failure? ==> s == Step(w, Failure(DifferentContent(Last(c).id))))
    && (s.result.Success? ==>
          && s.world.(pending := EMPTY_DIR, tmp := map[])
               == w.(pending := EMPTY_DIR, tmp := map[], catalog := Settled(c), served := SettledServed(w))
          && s.world.pending.manifest == None)
  }

  lemma ResumeFrom(w: World)
    requires HeadFacts(w)
    ensures ResumesRight(w)
  {
  }

  lemma ResumeOutcome(w: World)
    requires Inv(w)
    ensures ResumesRight(w)
  {
    InvGivesHeadFacts(w);
    ResumeFrom(w);
  }

  function Appended(c: seq<Row>, m: Manifest, low: nat, high: nat): seq<Row> {
    c + [RowFor(m, low, high, Published)]
  }

  function With(served: map<PackageId, Dir>, m: Manifest): map<PackageId, Dir> {
    if m.id in served then served else served[m.id := Whole(m)]
  }

  /** Staging, cataloging and publishing a next package: it fails exactly when its id is served with
      another payload. */
  ghost predicate FinishesRight(w: World, s: SlotName, m: Manifest, low: nat, run: Run) {
    var f := FinishStep(StageStep(w, s, m, low, run), m.id, s);
    && (f.result.Success? <==> Compatible(w, m.id, m.digest))
    && (f.result.Failure? ==> f == Step(StageStep(w, s, m, low, run), Failure(DifferentContent(m.id))))
    && (f.result.Success? ==>
          f.world.(tmp := map[]) == IngestStep(w, run).WithSlot(s, EMPTY_DIR).(
            tmp := map[], catalog := Appended(w.catalog, m, low, w.top), served := With(w.served, m)))
  }

  lemma MarkAppended(c: seq<Row>, m: Manifest, low: nat, high: nat)
    requires Chain(c) && m.id == IdAt(|c|)
    ensures MarkRows(c + [RowFor(m, low, high, Built)], m.id) == Appended(c, m, low, high)
    ensures Cataloged(c + [RowFor(m, low, high, Built)], m.id)
  {
    var d := c + [RowFor(m, low, high, Built)];
    assert d[|c|].id == m.id;
    forall i: nat | i < |c| ensures d[i].id != m.id {
      assert LinkAt(c, i);
    }
  }

  lemma FinishOutcome(w: World, s: SlotName, m: Manifest, low: nat, run: Run)
    requires Chain(w.catalog) && m.id == IdAt(|w.catalog|)
    requires m.id in w.served ==> w.served[m.id].manifest.Some?
    ensures FinishesRight(w, s, m, low, run)
  {
    MarkAppended(w.catalog, m, low, w.top);
    if m.id in w.served {
      FinishServed(w, s, m, low, run);
    } else {
      FinishFree(w, s, m, low, run);
    }
  }

  lemma FinishServed(w: World, s: SlotName, m: Manifest, low: nat, run: Run)
    requires MarkRows(w.catalog + [RowFor(m, low, w.top, Built)], m.id) == Appended(w.catalog, m, low, w.top)
    requires Cataloged(w.catalog + [RowFor(m, low, w.top, Built)], m.id)
    requires m.id in w.served && w.served[m.id].manifest.Some?
    ensures FinishesRight(w, s, m, low, run)
  {
  }

  lemma FinishFree(w: World, s: SlotName, m: Manifest, low: nat, run: Run)
    requires MarkRows(w.catalog + [RowFor(m, low, w.top, Built)], m.id) == Appended(w.catalog, m, low, w.top)
    requires Cataloged(w.catalog + [RowFor(m, low, w.top, Built)], m.id)
    requires m.id !in w.served
    ensures FinishesRight(w, s, m, low, run)
  {
  }

  // --- producer_cycle -------------------------------------------------------------------------

  /** Row `i` will be listed by a manifest over `n` rows whose newest media root is `k`. */
  predicate Offered(k: nat, n: nat, retain: nat, i: nat) {
    i == k || (k < i < n && n - retain <= i)
  }

  /** When `producer_cycle` succeeds, in terms of the state it starts from: there is a head with the same
      stamps, the ids it has to publish are free or hold what belongs there, and every row it has to list
      can be served (row 0 is never resumed here, so it must be served already). */
  predicate Servable(w: World, run: Run) {
    var c, n := w.catalog, |w.catalog|;
    && c != []
    && run.stamps == Last(c).stamps
    && (n > 1 ==> Compatible(w, Last(c).id, Last(c).digest))
    && (Due(w) ==> Compatible(w, IdAt(n), run.payload))
    && AllOffered(w, run)
  }

  /** The catalog and the served directories that a successful cycle ends with. */
  function TargetCatalog(w: World, run: Run): seq<Row>
    requires w.catalog != []
  {
    var prev := Last(w.catalog);
    if Due(w) then Appended(Settled(w.catalog), NextIncremental(prev, run), prev.high, w.top)
    else Settled(w.catalog)
  }

  function TargetServed(w: World, run: Run): map<PackageId, Dir>
    requires w.catalog != []
  {
    if Due(w) then With(SettledServed(w), NextIncremental(Last(w.catalog), run)) else SettledServed(w)
  }

  lemma SameMedia(c: seq<Row>, d: seq<Row>)
    requires c != [] && c[0].Media() && |c| <= |d|
    requires forall i | 0 <= i < |c| :: d[i].kind == c[i].kind
    requires forall i | |c| <= i < |d| :: d[i].kind == Incremental
    ensures LastMedia(d) == LastMedia(c) < |c|
  {
  }

  lemma TargetIsChain(w: World, run: Run)
    requires Inv(w) && w.catalog != [] && run.stamps == Last(w.catalog).stamps
    ensures Chain(TargetCatalog(w, run))
    ensures LastMedia(TargetCatalog(w, run)) == LastMedia(w.catalog) < |w.catalog|
  {
    var n := |w.catalog|;
    SettledIsChain(w);
    LastLinks(w);
    assert LinkAt(w.catalog, 0);
    var settled := Settled(w.catalog);
    if Due(w) {
      var row := RowFor(NextIncremental(Last(w.catalog), run), Last(w.catalog).high, w.top, Published);
      assert (settled + [row])[n - 1] == Last(settled);
      AppendIsChain(settled, row);
    }
    SameMedia(w.catalog, TargetCatalog(w, run));
  }

  /** The target rows that have to be listed match the target directories exactly when the starting state
      lets them. */
  lemma ListedAlike(w: World, run: Run, i: nat)
    requires Inv(w) && w.catalog != [] && i < |w.catalog|
    ensures Matches(TargetCatalog(w, run)[i], TargetServed(w, run)) <==> CanServe(w, i)
  {
    var c := w.catalog;
    var n := |c|;
    LastLinks(w);
    assert LinkAt(c, i) && LinkAt(c, n - 1);
    if c[i].status == Published {
      assert ServesPayload(w.served, c[i]);
    }
    RowAlike(w, run, i);
  }

  lemma RowAlike(w: World, run: Run, i: nat)
    requires i < |w.catalog| && w.catalog[i].id == IdAt(i)
    requires Last(w.catalog).id == IdAt(|w.catalog| - 1) && Last(w.catalog).sequence == |w.catalog|
    requires 0 < i < |w.catalog| - 1 ==> w.catalog[i].id in w.served
    requires i == |w.catalog| - 1 ==> w.catalog[i] == Last(w.catalog)
    ensures Matches(TargetCatalog(w, run)[i], TargetServed(w, run)) <==> CanServe(w, i)
  {
  }

  lemma NewestAlike(w: World, run: Run)
    requires Inv(w) && w.catalog != [] && Due(w)
    ensures Matches(Last(TargetCatalog(w, run)), TargetServed(w, run)) <==>
      Claimable(w, IdAt(|w.catalog|), NextIncremental(Last(w.catalog), run))
  {
    LastLinks(w);
    assert LinkAt(w.catalog, |w.catalog| - 1);
  }

  /** The starting state lets row `i` be served as cataloged. */
  predicate CanServe(w: World, i: nat)
    requires i < |w.catalog|
  {
    if i == 0 then Matches(w.catalog[0], w.served) else Claimable(w, w.catalog[i].id, w.catalog[i].manifestDigest)
  }

  /** Every row that has to be listed can be served. */
  predicate AllOffered(w: World, run: Run)
    requires w.catalog != []
  {
    var c, n := w.catalog, |w.catalog|;
    && (Due(w) && run.retain > 0 ==> Claimable(w, IdAt(n), NextIncremental(Last(c), run)))
    && forall i: nat | i < n && Offered(LastMedia(c), if Due(w) then n + 1 else n, run.retain, i) ::
         CanServe(w, i)
  }

  lemma AnnounceFrom(w: World, run: Run, target: seq<Row>, served: map<PackageId, Dir>)
    requires w.catalog != [] && Chain(target) && |target| == |w.catalog| + (if Due(w) then 1 else 0)
    requires LastMedia(target) == LastMedia(w.catalog) < |w.catalog|
    requires forall i: nat | i < |w.catalog| :: Matches(target[i], served) <==> CanServe(w, i)
    requires Due(w) ==>
      (Matches(Last(target), served) <==> Claimable(w, IdAt(|w.catalog|), NextIncremental(Last(w.catalog), run)))
    ensures RemoteFor(target, served, run.retain).Success? <==> AllOffered(w, run)
  {
    BuildsExactlyWhenListedMatch(target, served, run.retain);
    forall i: nat | i < |target|
      ensures Listed(target, run.retain, i) <==> Offered(LastMedia(w.catalog), |target|, run.retain, i)
    {
    }
  }

  lemma CanAnnounce(w: World, run: Run)
    requires Inv(w) && w.catalog != [] && run.stamps == Last(w.catalog).stamps
    ensures RemoteFor(TargetCatalog(w, run), TargetServed(w, run), run.retain).Success? <==> AllOffered(w, run)
  {
    TargetIsChain(w, run);
    forall i: nat | i < |w.catalog|
      ensures Matches(TargetCatalog(w, run)[i], TargetServed(w, run)) <==> CanServe(w, i)
    {
      ListedAlike(w, run, i);
    }
    if Due(w) {
      NewestAlike(w, run);
    }
    AnnounceFrom(w, run, TargetCatalog(w, run), TargetServed(w, run));
  }

  lemma NextIdServed(w: World)
    requires Inv(w) && w.catalog != []
    ensures IdAt(|w.catalog|) in w.served ==> w.served[IdAt(|w.catalog|)].manifest.Some?
    ensures IdAt(|w.catalog|) in SettledServed(w) <==> IdAt(|w.catalog|) in w.served
    ensures IdAt(|w.catalog|) in w.served ==> SettledServed(w)[IdAt(|w.catalog|)] == w.served[IdAt(|w.catalog|)]
  {
    var id := IdAt(|w.catalog|);
    assert LinkAt(w.catalog, |w.catalog| - 1);
    if id in w.served {
      assert ServedAt(w.served[id], id, |w.catalog|);
    }
  }

  /** `producer_cycle` succeeds exactly when the starting state is servable for the run, and then it ends
      with the target catalog, the slot empty, and the manifest built from what is then served. */
  predicate ProducesRight(w: World, run: Run, s: Step<Report>) {
    && (s.result.Success? <==> Servable(w, run))
    && (s.result.Success? ==>
          && s.world.catalog == TargetCatalog(w, run)
          && s.world.served == TargetServed(w, run)
          && s.world.pending == EMPTY_DIR
          && s.world.remote.Some?
          && RemoteFor(s.world.catalog, s.world.served, run.retain) == Success(s.world.remote.value)
          && (s.world.top, s.world.changes) == (run.newTop, w.changes + run.arrived)
          && s.world.bootstrap == w.bootstrap
          && s.result.value == HeadReport(s.world.catalog,
               if Due(w) then Some(IdAt(|w.catalog|))
               else if w.pending.manifest.Some? && Cataloged(w.catalog, w.pending.manifest.value.id)
               then Some(w.pending.manifest.value.id)
               else None))
  }

  /** `w1` is `w` once its newest package has been published and the slot cleared. */
  predicate IsResumed(w: World, w1: World) {
    w1.(tmp := map[]) == w.(tmp := map[], pending := EMPTY_DIR, catalog := Settled(w.catalog), served := SettledServed(w))
  }

  lemma DueFresh(w: World, w1: World, run: Run, resumed: Option<PackageId>)
    requires w.catalog != [] && run.stamps == Last(w.catalog).stamps && Due(w) && IsResumed(w, w1)
    requires |w.catalog| > 1 ==> Compatible(w, Last(w.catalog).id, Last(w.catalog).digest)
    requires RemoteFor(TargetCatalog(w, run), TargetServed(w, run), run.retain).Success? <==> AllOffered(w, run)
    requires FinishesRight(w1, Pending, NextIncremental(Last(w.catalog), run), Last(w.catalog).high, run)
    requires NextIncremental(Last(w.catalog), run).id == IdAt(|w.catalog|)
    requires IdAt(|w.catalog|) in SettledServed(w) <==> IdAt(|w.catalog|) in w.served
    requires IdAt(|w.catalog|) in w.served ==> SettledServed(w)[IdAt(|w.catalog|)] == w.served[IdAt(|w.catalog|)]
    ensures ProducesRight(w, run, FreshStep(w1, run, resumed))
  {
  }

  lemma QuietCycle(w: World, run: Run)
    requires w.catalog != [] && run.stamps == Last(w.catalog).stamps && !Due(w)
    requires ResumesRight(w) && ResumeStep(w).result.Success?
    requires RemoteFor(TargetCatalog(w, run), TargetServed(w, run), run.retain).Success? <==> AllOffered(w, run)
    ensures ProducesRight(w, run, ProducerStep(w, run))
  {
  }

  lemma ProducerCycleExactly(w: World, run: Run)
    requires Inv(w)
    ensures ProducesRight(w, run, ProducerStep(w, run))
  {
    ResumeOutcome(w);
    var resumed := ResumeStep(w);
    if resumed.result.Success? && w.catalog != [] && run.stamps == Last(w.catalog).stamps {
      var w1 := resumed.world.(pending := EMPTY_DIR);
      var prev := Last(w.catalog);
      SettledIsChain(w);
      LastLinks(w);
      CanAnnounce(w, run);
      if Due(w) {
        NextIdServed(w);
        FinishOutcome(w1, Pending, NextIncremental(prev, run), prev.high, run);
        DueFresh(w, w1, run, resumed.result.value);
      } else {
        QuietCycle(w, run);
      }
    }
  }
}
