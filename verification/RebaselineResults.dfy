/** What `rebaseline_cycle` achieves, and the one crash after which the corpus is stuck. */
module RebaselineResults {
  import opened Wrappers
  import opened Packages
  import opened RemoteManifest
  import opened PublishState
  import opened PublishRuns
  import opened Producers
  import opened Cycles
  import opened CycleResults
  import opened CycleEnds
  import opened Guarantees

  /** The newest row is an unpublished rebaseline, which the next `rebaseline_cycle` throws away. */
  predicate Unfinished(w: World) {
    |w.catalog| > 1 && Last(w.catalog).status == Built && Last(w.catalog).kind == Rebaseline
  }

  function ClearedCatalog(w: World): seq<Row> {
    if Unfinished(w) then w.catalog[..|w.catalog| - 1] else Settled(w.catalog)
  }

  function ClearedServed(w: World): map<PackageId, Dir> {
    if Unfinished(w) then w.served else SettledServed(w)
  }

  ghost predicate ClearsRight(w: World) {
    var s, c := ClearStep(w), w.catalog;
    && (s.result.Success? <==> (HeadResumable(w) || Unfinished(w)))
    && (s.result.Failure? ==> s == Step(w, Failure(DifferentContent(Last(c).id))))
    && (s.result.Success? ==>
          s.world.(pending := EMPTY_DIR, tmp := map[])
            == w.(pending := EMPTY_DIR, tmp := map[], catalog := ClearedCatalog(w), served := ClearedServed(w)))
  }

  lemma ClearOutcome(w: World)
    requires Inv(w)
    ensures ClearsRight(w)
  {
    InvGivesHeadFacts(w);
    ResumeFrom(w);
    var c := w.catalog;
    if w.pending.manifest.Some? {
      var id := w.pending.manifest.value.id;
      if Cataloged(c, id) {
        StagedIsLast(w);
        DiscardCatalog(c, id);
      } else {
        DeleteNothing(c, id);
      }
    }
    assert |c| > 1 ==> LinkAt(c, |c| - 1);
    ClearFrom(w);
  }

  lemma ClearFrom(w: World)
    requires HeadFacts(w) && ResumesRight(w)
    requires |w.catalog| > 1 ==> Last(w.catalog).manifestDigest.kind == Last(w.catalog).kind
    requires w.pending.manifest.Some? ==>
      DeleteUnpublished(w.catalog, w.pending.manifest.value.id) ==
        if |w.catalog| > 1 && w.pending.manifest.value.id == Last(w.catalog).id && Last(w.catalog).status == Built
        then w.catalog[..|w.catalog| - 1] else w.catalog
    ensures ClearsRight(w)
  {
    if w.pending.manifest.Some? && w.pending.manifest.value.kind == Rebaseline {
      ClearsRebaseline(w, w.pending.manifest.value);
    } else {
      ClearsIncremental(w);
    }
  }

  lemma ClearsRebaseline(w: World, m: Manifest)
    requires HeadFacts(w) && w.pending.manifest == Some(m) && m.kind == Rebaseline
    requires |w.catalog| > 1 ==> Last(w.catalog).manifestDigest.kind == Last(w.catalog).kind
    requires DeleteUnpublished(w.catalog, m.id) ==
      if |w.catalog| > 1 && m.id == Last(w.catalog).id && Last(w.catalog).status == Built
      then w.catalog[..|w.catalog| - 1] else w.catalog
    ensures ClearsRight(w)
  {
    assert ClearStep(w) ==
      Step(w.(catalog := DeleteUnpublished(w.catalog, m.id), pending := EMPTY_DIR), Success(()));
    if |w.catalog| > 1 && Last(w.catalog).status == Built {
      assert Unfinished(w) && m == Last(w.catalog).manifestDigest;
    } else {
      assert !Unfinished(w) && Settled(w.catalog) == w.catalog && SettledServed(w) == w.served;
    }
  }

  lemma ClearsIncremental(w: World)
    requires HeadFacts(w) && ResumesRight(w) && (w.pending.manifest.Some? ==> w.pending.manifest.value.kind != Rebaseline)
    requires |w.catalog| > 1 ==> Last(w.catalog).manifestDigest.kind == Last(w.catalog).kind
    ensures ClearsRight(w)
  {
    assert !Unfinished(w);
    if w.pending.manifest == None {
      assert Settled(w.catalog) == w.catalog && SettledServed(w) == w.served;
    }
  }

  lemma ClearedIsChain(w: World)
    requires Inv(w)
    ensures Chain(ClearedCatalog(w))
    ensures w.catalog != [] ==> ClearedCatalog(w) != []
    ensures IdAt(|ClearedCatalog(w)|) in ClearedServed(w) <==> IdAt(|ClearedCatalog(w)|) in w.served
    ensures var id := IdAt(|ClearedCatalog(w)|);
      id in w.served ==> ClearedServed(w)[id] == w.served[id] && w.served[id].manifest.Some?
  {
    SettledIsChain(w);
    if |w.catalog| > 1 {
      PrefixIsChain(w.catalog, |w.catalog| - 1);
      assert LinkAt(w.catalog, |w.catalog| - 1);
    }
    var id := IdAt(|ClearedCatalog(w)|);
    if id in w.served {
      assert ServedAt(w.served[id], id, |w.catalog|);
    }
  }

  /** The newest row is media, so a manifest lists it alone. */
  lemma MediaHead(c: seq<Row>, served: map<PackageId, Dir>, retain: nat)
    requires Chain(c) && c != [] && Last(c).Media()
    ensures RemoteFor(c, served, retain).Success? <==> Matches(Last(c), served)
    ensures RemoteFor(c, served, retain).Success? ==> RemoteFor(c, served, retain).value.head == |c|
  {
    assert LastMedia(c) == |c| - 1;
    BuildsExactlyWhenListedMatch(c, served, retain);
    forall i: nat | i < |c| ensures Listed(c, retain, i) <==> i == |c| - 1 {
    }
    if RemoteFor(c, served, retain).Success? {
      OnChain(c, served, retain);
      assert LinkAt(c, |c| - 1);
    }
  }

  /** The row that the rebaseline is built on. */
  function Base(w: World): Row
    requires w.catalog != []
  {
    if Unfinished(w) then w.catalog[|w.catalog| - 2] else Last(w.catalog)
  }

  /** When `rebaseline_cycle` succeeds: something to resume can be resumed, and the id of the new package is
      free or already serves the very artifact that this run rebuilds. */
  predicate Rebaselinable(w: World, run: Run) {
    && w.catalog != []
    && (HeadResumable(w) || Unfinished(w))
    && Claimable(w, IdAt(Base(w).sequence), NextRebaseline(Base(w), run))
  }

  /** `rebaseline_cycle` succeeds exactly then, and ends with the new media root as the published head. */
  predicate RebaselinesRight(w: World, run: Run, s: Step<Report>) {
    && (s.result.Success? <==> Rebaselinable(w, run))
    && (s.result.Success? ==>
          && s.world.catalog == Appended(ClearedCatalog(w), NextRebaseline(Base(w), run), Base(w).high, w.top)
          && s.world.served == With(ClearedServed(w), NextRebaseline(Base(w), run))
          && s.world.pending == EMPTY_DIR
          && s.world.remote.Some?
          && s.world.remote.value.head == |s.world.catalog|
          && s.result.value == HeadReport(s.world.catalog, Some(NextRebaseline(Base(w), run).id)))
  }

  lemma BaseFacts(w: World)
    requires Inv(w) && w.catalog != []
    ensures var b := Last(ClearedCatalog(w)); b.(status := Base(w).status) == Base(w)
    ensures Base(w).sequence == |ClearedCatalog(w)| && Base(w).high <= w.top
  {
    var c := ClearedCatalog(w);
    assert LinkAt(w.catalog, |c| - 1) && LinkAt(w.catalog, |w.catalog| - 1);
  }

  lemma RebaselineCycleExactly(w: World, run: Run)
    requires Inv(w)
    ensures RebaselinesRight(w, run, RebaselineStep(w, run))
  {
    ClearOutcome(w);
    if w.catalog != [] && ClearStep(w).result.Success? {
      var clean := ClearStep(w).world.(pending := EMPTY_DIR);
      ClearedIsChain(w);
      BaseFacts(w);
      var m := NextRebaseline(Base(w), run);
      FinishOutcome(clean, Pending, m, Base(w).high, run);
      NewHead(clean, m, Base(w), run);
      RebaselineFrom(w, run);
    }
  }

  /** What follows a successful publication of the new root. */
  lemma NewHead(clean: World, m: Manifest, base: Row, run: Run)
    requires Chain(clean.catalog) && clean.catalog != [] && m == NextRebaseline(base, run)
    requires Last(clean.catalog).(status := base.status) == base
    requires base.sequence == |clean.catalog| && base.high <= clean.top
    ensures var c, served := Appended(clean.catalog, m, base.high, clean.top), With(clean.served, m);
      && (RemoteFor(c, served, run.retain).Success? <==> Claimable(clean, m.id, m))
      && (RemoteFor(c, served, run.retain).Success? ==> RemoteFor(c, served, run.retain).value.head == |c|)
  {
    var row := RowFor(m, base.high, clean.top, Published);
    var c := clean.catalog + [row];
    assert c[|clean.catalog|] == row && c[|clean.catalog| - 1] == Last(clean.catalog);
    AppendIsChain(clean.catalog, row);
    MediaHead(c, With(clean.served, m), run.retain);
  }

  lemma RebaselineFrom(w: World, run: Run)
    requires ClearsRight(w) && ClearStep(w).result.Success? && w.catalog != []
    requires var b := Last(ClearedCatalog(w)); ClearedCatalog(w) != [] && b.(status := Base(w).status) == Base(w)
    requires var m := NextRebaseline(Base(w), run);
      && m.id == IdAt(Base(w).sequence)
      && (m.id in ClearedServed(w) <==> m.id in w.served)
      && (m.id in w.served ==> ClearedServed(w)[m.id] == w.served[m.id] && w.served[m.id].manifest.Some?)
      && FinishesRight(ClearStep(w).world.(pending := EMPTY_DIR), Pending, m, Base(w).high, run)
      && var c, served := Appended(ClearedCatalog(w), m, Base(w).high, w.top), With(ClearedServed(w), m);
        && (RemoteFor(c, served, run.retain).Success? <==> Claimable(w, m.id, m))
        && (RemoteFor(c, served, run.retain).Success? ==> RemoteFor(c, served, run.retain).value.head == |c|)
    ensures RebaselinesRight(w, run, RebaselineStep(w, run))
  {
    var clean := ClearStep(w).world.(pending := EMPTY_DIR);
    assert NextRebaseline(Last(clean.catalog), run) == NextRebaseline(Base(w), run);
  }

  // --- What it leaves, whether it succeeds or fails ----------------------------------------------

  function RebaselineLeaves(w: World, run: Run): seq<Row>
    requires w.catalog != []
  {
    if !HeadResumable(w) && !Unfinished(w) then w.catalog
    else Added(w, ClearedCatalog(w), NextRebaseline(Base(w), run), Base(w).high)
  }

  ghost predicate RebaselineEnds(w: World, run: Run, s: Step<Report>)
    requires w.catalog != []
  {
    s.world.catalog == RebaselineLeaves(w, run) && (s.result.Failure? ==> s.world.remote == w.remote)
  }

  lemma RebaselineCatalog(w: World, run: Run)
    requires Inv(w) && w.catalog != []
    ensures RebaselineEnds(w, run, RebaselineStep(w, run))
  {
    ClearOutcome(w);
    if ClearStep(w).result.Success? {
      ClearedIsChain(w);
      BaseFacts(w);
      FinishOutcome(ClearStep(w).world.(pending := EMPTY_DIR), Pending, NextRebaseline(Base(w), run), Base(w).high, run);
      ClearedEnds(w, ClearStep(w).world.(pending := EMPTY_DIR), run);
    }
  }

  lemma ClearedEnds(w: World, clean: World, run: Run)
    requires w.catalog != [] && clean == ClearStep(w).world.(pending := EMPTY_DIR) && ClearStep(w).result.Success?
    requires HeadResumable(w) || Unfinished(w)
    requires clean.(tmp := map[]) ==
      w.(tmp := map[], pending := EMPTY_DIR, catalog := ClearedCatalog(w), served := ClearedServed(w))
    requires ClearedCatalog(w) != [] && Last(ClearedCatalog(w)).(status := Base(w).status) == Base(w)
    requires var m := NextRebaseline(Base(w), run);
      && (m.id in ClearedServed(w) <==> m.id in w.served)
      && (m.id in w.served ==> ClearedServed(w)[m.id] == w.served[m.id])
      && FinishesRight(clean, Pending, m, Base(w).high, run)
    ensures RebaselineEnds(w, run, RebaselineStep(w, run))
  {
    var m := NextRebaseline(Base(w), run);
    assert m == NextRebaseline(Last(clean.catalog), run);
    var s := FinishAndAnnounceStep(StageStep(clean, Pending, m, Last(clean.catalog).high, run), m.id, Pending, run.retain);
    NewRootEnds(clean, run, m, s);
  }

  lemma NewRootEnds(clean: World, run: Run, m: Manifest, s: Step<Report>)
    requires clean.catalog != [] && FinishesRight(clean, Pending, m, Last(clean.catalog).high, run)
    requires s == FinishAndAnnounceStep(StageStep(clean, Pending, m, Last(clean.catalog).high, run), m.id, Pending, run.retain)
    ensures s.world.catalog == Added(clean, clean.catalog, m, Last(clean.catalog).high)
    ensures s.result.Failure? ==> s.world.remote == clean.remote
  {
    FinishEnds(StageStep(clean, Pending, m, Last(clean.catalog).high, run), m.id, run.retain);
  }

  /** With nothing abandoned, a rebaseline goes through unless it has to throw away one whose artifact is
      already served, and rebuilds it differently. */
  lemma RebaselineGoesThrough(w: World, run: Run)
    requires Inv(w) && NothingAbandoned(w) && w.catalog != []
    ensures RebaselineStep(w, run).result.Success? <==>
      (Unfinished(w) && Last(w.catalog).id in w.served ==> NextRebaseline(Base(w), run) == Last(w.catalog).manifestDigest)
  {
    RebaselineCycleExactly(w, run);
    HeadIsHeld(w);
    GoesThroughFrom(w, run, RebaselineStep(w, run));
  }

  lemma HeadIsHeld(w: World)
    requires Inv(w) && NothingAbandoned(w) && w.catalog != []
    ensures Base(w).sequence == |ClearedCatalog(w)| && Last(w.catalog).id == IdAt(|w.catalog| - 1)
    ensures Claimable(w, Last(w.catalog).id, Last(w.catalog).manifestDigest)
    ensures Compatible(w, Last(w.catalog).id, Last(w.catalog).digest)
    ensures IdAt(|w.catalog|) !in w.served
  {
    BaseFacts(w);
    HeldIsClaimable(w, |w.catalog| - 1);
    NextIdIsFree(w);
    assert LinkAt(w.catalog, |w.catalog| - 1);
  }

  lemma GoesThroughFrom(w: World, run: Run, s: Step<Report>)
    requires w.catalog != [] && RebaselinesRight(w, run, s)
    requires Base(w).sequence == |ClearedCatalog(w)| && Last(w.catalog).id == IdAt(|w.catalog| - 1)
    requires Claimable(w, Last(w.catalog).id, Last(w.catalog).manifestDigest)
    requires Compatible(w, Last(w.catalog).id, Last(w.catalog).digest)
    requires IdAt(|w.catalog|) !in w.served
    ensures s.result.Success? <==>
      (Unfinished(w) && Last(w.catalog).id in w.served ==> NextRebaseline(Base(w), run) == Last(w.catalog).manifestDigest)
  {
  }

  // --- The wedge ------------------------------------------------------------------------------

  /** The newest row is unpublished, and its id already serves a different payload. */
  predicate Wedged(w: World) {
    var c := w.catalog;
    && |c| > 1 && Last(c).status == Built
    && Last(c).id in w.served && w.served[Last(c).id].manifest.Some?
    && w.served[Last(c).id].manifest.value.digest != Last(c).digest
  }

  /** A rebaseline that finds its predecessor served but unmarked, and rebuilds it with another payload,
      fails and leaves the corpus wedged. */
  lemma DiscardingServedWedges(w: World, run: Run)
    requires Inv(w) && Unfinished(w) && Last(w.catalog).id in w.served
    requires w.served[Last(w.catalog).id].manifest.value.digest != run.payload
    ensures var s := RebaselineStep(w, run);
      s.result == Failure(DifferentContent(Last(w.catalog).id)) && Wedged(s.world)
  {
    ClearOutcome(w);
    ClearedIsChain(w);
    BaseFacts(w);
    assert LinkAt(w.catalog, |w.catalog| - 1);
    var clean := ClearStep(w).world.(pending := EMPTY_DIR);
    FinishOutcome(clean, Pending, NextRebaseline(Base(w), run), Base(w).high, run);
    WedgeFrom(w, run);
  }

  lemma WedgeFrom(w: World, run: Run)
    requires ClearsRight(w) && Unfinished(w)
    requires !Compatible(w, Last(w.catalog).id, run.payload) && w.served[Last(w.catalog).id].manifest.Some?
    requires Last(ClearedCatalog(w)) == Base(w)
    requires NextRebaseline(Base(w), run).id == Last(w.catalog).id
    requires FinishesRight(ClearStep(w).world.(pending := EMPTY_DIR), Pending, NextRebaseline(Base(w), run), Base(w).high, run)
    ensures var s := RebaselineStep(w, run);
      s.result == Failure(DifferentContent(Last(w.catalog).id)) && Wedged(s.world)
  {
  }

  /** From there `producer_cycle` fails on every run and changes nothing, whatever its inputs. */
  lemma WedgedStaysWedged(w: World, run: Run)
    requires Inv(w) && Wedged(w)
    ensures ProducerStep(w, run) == Step(w, Failure(DifferentContent(Last(w.catalog).id)))
  {
    ResumeOutcome(w);
  }

  /** The newest media root cannot be listed: its id serves another manifest than the cataloged one. */
  predicate Unlistable(w: World) {
    0 < LastMedia(w.catalog) < |w.catalog| && !CanServe(w, LastMedia(w.catalog))
  }

  /** What a rebaseline does that throws away one whose artifact is served already.  With another payload it
      cannot be published and the corpus is wedged.  With the same payload but another manifest it is marked
      over the old artifact, and then cannot be listed: clients see nothing of it, and the next id is free.
      Only the very same artifact goes through. */
  predicate Rebuilds(w: World, run: Run, s: Step<Report>)
    requires |w.catalog| > 1 && Last(w.catalog).id in w.served && w.served[Last(w.catalog).id].manifest.Some?
  {
    var id := Last(w.catalog).id;
    var held, m := w.served[id].manifest.value, NextRebaseline(Base(w), run);
    if held.digest != run.payload then s.result == Failure(DifferentContent(id)) && Wedged(s.world)
    else
      && s.world.catalog == Appended(ClearedCatalog(w), m, Base(w).high, w.top)
      && s.world.served == w.served && s.world.pending == EMPTY_DIR
      && if held != m
         then
           && s.result == Failure(RemoteFailed(Mismatch(id))) && s.world.remote == w.remote
           && Unlistable(s.world) && IdAt(|s.world.catalog|) !in s.world.served
         else s.result.Success?
  }

  lemma DiscardingServedExactly(w: World, run: Run)
    requires Inv(w) && Unfinished(w) && Last(w.catalog).id in w.served
    ensures w.served[Last(w.catalog).id].manifest.Some? && Rebuilds(w, run, RebaselineStep(w, run))
  {
    assert ServedAt(w.served[Last(w.catalog).id], Last(w.catalog).id, |w.catalog|);
    if w.served[Last(w.catalog).id].manifest.value.digest != run.payload {
      DiscardingServedWedges(w, run);
    } else {
      ClearOutcome(w);
      ClearedIsChain(w);
      BaseFacts(w);
      assert LinkAt(w.catalog, |w.catalog| - 1);
      var clean := ClearStep(w).world.(pending := EMPTY_DIR);
      var m := NextRebaseline(Base(w), run);
      FinishOutcome(clean, Pending, m, Base(w).high, run);
      AppendedRoot(ClearedCatalog(w), m, Base(w), w.top);
      RebaselineCycleExactly(w, run);
      RebuildsFrom(w, run, clean, m);
    }
  }

  lemma AppendedRoot(c: seq<Row>, m: Manifest, base: Row, top: nat)
    requires Chain(c) && c != [] && m.kind == Rebaseline
    ensures var d := Appended(c, m, base.high, top);
      LastMedia(d) == |c| && d[|c|] == RowFor(m, base.high, top, Published)
  {
  }

  lemma RebuildsFrom(w: World, run: Run, clean: World, m: Manifest)
    requires Unfinished(w) && ClearStep(w).result.Success? && clean == ClearStep(w).world.(pending := EMPTY_DIR)
    requires clean.(tmp := map[]) == w.(tmp := map[], pending := EMPTY_DIR, catalog := ClearedCatalog(w))
    requires ClearedCatalog(w) != [] && Last(ClearedCatalog(w)) == Base(w)
    requires m == NextRebaseline(Base(w), run) && m.id == Last(w.catalog).id && m.id in w.served
    requires w.served[m.id].manifest.Some? && w.served[m.id].manifest.value.digest == run.payload
    requires FinishesRight(clean, Pending, m, Base(w).high, run)
    requires var d := Appended(ClearedCatalog(w), m, Base(w).high, w.top);
      LastMedia(d) == |ClearedCatalog(w)| && d[|ClearedCatalog(w)|] == RowFor(m, Base(w).high, w.top, Published)
    requires RebaselineStep(w, run).result.Success? <==> w.served[m.id].manifest == Some(m)
    requires IdAt(|w.catalog|) !in w.served
    ensures Rebuilds(w, run, RebaselineStep(w, run))
  {
    var staged := StageStep(clean, Pending, m, Base(w).high, run);
    assert RebaselineStep(w, run) == FinishAndAnnounceStep(staged, m.id, Pending, run.retain);
    PublishedOver(clean, m, Base(w).high, run, RebaselineStep(w, run));
    OnlyRootListed(Appended(ClearedCatalog(w), m, Base(w).high, w.top), w.served, m, run.retain);
  }

  lemma PublishedOver(clean: World, m: Manifest, low: nat, run: Run, s: Step<Report>)
    requires FinishesRight(clean, Pending, m, low, run) && m.id in clean.served && Compatible(clean, m.id, m.digest)
    requires s == FinishAndAnnounceStep(StageStep(clean, Pending, m, low, run), m.id, Pending, run.retain)
    ensures s.world.catalog == Appended(clean.catalog, m, low, clean.top) && s.world.served == clean.served
    ensures s.world.pending == EMPTY_DIR && AnnounceEnds(s, run.retain)
    ensures s.result.Failure? ==> s.world.remote == clean.remote
  {
    FinishEnds(StageStep(clean, Pending, m, low, run), m.id, run.retain);
  }

  lemma OnlyRootListed(c: seq<Row>, served: map<PackageId, Dir>, m: Manifest, retain: nat)
    requires c != [] && LastMedia(c) == |c| - 1 && m.id in served && served[m.id].manifest.Some?
    requires Last(c).manifestDigest == m && Last(c).id == m.id
    ensures served[m.id].manifest.value != m ==> RemoteFor(c, served, retain) == Failure(Mismatch(m.id))
  {
  }

  /** From there `producer_cycle` may go on publishing packages, but every run fails, and clients keep seeing
      what they saw. */
  lemma UnlistableStays(w: World, run: Run)
    requires Inv(w) && Unlistable(w)
    ensures var s := ProducerStep(w, run);
      && s.result.Failure? && s.world.remote == w.remote
      && s.world.catalog == ProducerLeaves(w, run) && Unlistable(s.world)
      && (IdAt(|w.catalog|) !in w.served ==> IdAt(|s.world.catalog|) !in s.world.served)
  {
    ProducerCatalog(w, run);
    ProducerCycleExactly(w, run);
    assert LinkAt(w.catalog, 0) && LinkAt(w.catalog, |w.catalog| - 1);
    SameRoot(w, run);
    NotServable(w, run);
    NextButOneIsFree(w);
    StaysUnlistable(w, run, ProducerStep(w, run));
  }

  lemma SameRoot(w: World, run: Run)
    requires w.catalog != [] && w.catalog[0].Media()
    ensures LastMedia(ProducerLeaves(w, run)) == LastMedia(w.catalog)
  {
    SameMedia(w.catalog, ProducerLeaves(w, run));
  }

  lemma NotServable(w: World, run: Run)
    requires Unlistable(w)
    ensures !Servable(w, run)
  {
    var k := LastMedia(w.catalog);
    assert Offered(k, if Due(w) then |w.catalog| + 1 else |w.catalog|, run.retain, k);
  }

  lemma NextButOneIsFree(w: World)
    requires Inv(w)
    ensures IdAt(|w.catalog| + 1) !in w.served
  {
    forall id | id in w.served ensures id != IdAt(|w.catalog| + 1) {
      assert ServedAt(w.served[id], id, |w.catalog|);
    }
  }

  lemma StaysUnlistable(w: World, run: Run, s: Step<Report>)
    requires w.catalog != [] && Unlistable(w) && ProducerEnds(w, run, s)
    requires Last(w.catalog).id == IdAt(|w.catalog| - 1) && Last(w.catalog).sequence == |w.catalog|
    requires LastMedia(ProducerLeaves(w, run)) == LastMedia(w.catalog) && IdAt(|w.catalog| + 1) !in w.served
    ensures Unlistable(s.world)
    ensures IdAt(|w.catalog|) !in w.served ==> IdAt(|s.world.catalog|) !in s.world.served
  {
    var k := LastMedia(w.catalog);
    assert s.world.catalog[k] == w.catalog[k].(status := s.world.catalog[k].status);
    var id := w.catalog[k].id;
    assert id in w.served && s.world.served[id] == w.served[id];
  }

  /** A rebaseline under the next id mends it, as long as that id is free; `producer_cycle` then works
      again. */
  lemma NextRootMends(w: World, run: Run, next: Run)
    requires Inv(w) && Unlistable(w) && Last(w.catalog).status == Published && IdAt(|w.catalog|) !in w.served
    requires next.stamps == run.stamps
    ensures var s := RebaselineStep(w, run);
      s.result.Success? && s.world.remote.Some? && s.world.remote.value.head == |w.catalog| + 1 && Servable(s.world, next)
  {
    RebaselineCycleExactly(w, run);
    BaseFacts(w);
    ClearedIsChain(w);
    var n := |w.catalog|;
    assert HeadResumable(w) by {
      assert ServesPayload(w.served, Last(w.catalog));
    }
    NextButOneIsFree(w);
    AppendedRoot(ClearedCatalog(w), NextRebaseline(Base(w), run), Base(w), w.top);
    NewRootServable(RebaselineStep(w, run).world, NextRebaseline(Base(w), run), next);
  }

  lemma NewRootServable(w: World, m: Manifest, next: Run)
    requires w.catalog != [] && LastMedia(w.catalog) == |w.catalog| - 1 > 0 && next.stamps == m.stamps
    requires Last(w.catalog).manifestDigest == m && Last(w.catalog).id == m.id && Last(w.catalog).stamps == m.stamps
    requires Last(w.catalog).digest == m.digest && m.id in w.served && w.served[m.id] == Whole(m)
    requires IdAt(|w.catalog|) !in w.served
    ensures Servable(w, next)
  {
    forall i: nat | i < |w.catalog| && Offered(LastMedia(w.catalog), if Due(w) then |w.catalog| + 1 else |w.catalog|, next.retain, i)
      ensures CanServe(w, i)
    {
      assert i == |w.catalog| - 1;
    }
  }
}
