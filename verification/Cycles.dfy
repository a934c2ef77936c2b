/** The producer's entry points.  Each is stated as a function from the durable state and the inputs of the
    run to the state it leaves and its answer, and given as the sequence of writes that computes it. */
module Cycles {
  import opened Wrappers
  import opened Packages
  import opened PublishState
  import opened PublishRuns
  import opened Producers

  /** The inputs of one run: the operator's settings, what the build snapshot materialises, and the
      ingest that becomes visible once the snapshot is taken. */
  datatype Run = Run(
    stamps: Stamps, baselineId: string, createdAt: string, payload: Payload, retain: nat,
    preflight: bool, arrived: set<nat>, newTop: nat)

  datatype Report = Report(built: Option<PackageId>, head: nat, high: nat)

  /** The change numbers handed out after the snapshot lie above the ones it saw. */
  predicate Arrives(w: World, run: Run) {
    w.top <= run.newTop && forall c | c in run.arrived :: w.top < c <= run.newTop
  }

  function NextIncremental(prev: Row, run: Run): Manifest {
    Manifest(PackageId(prev.sequence, prev.sequence + 1), Incremental, Some(Link(prev.id, prev.digest)),
             prev.baselineId, prev.generation, run.stamps, run.createdAt, run.payload)
  }

  function NextRebaseline(prev: Row, run: Run): Manifest {
    Manifest(PackageId(prev.sequence, prev.sequence + 1), Rebaseline, Some(Link(prev.id, prev.digest)),
             run.baselineId, prev.generation + 1, run.stamps, run.createdAt, run.payload)
  }

  function FirstBaseline(run: Run): Manifest {
    Manifest(PackageId(1, 1), Baseline, None, run.baselineId, 1, run.stamps, run.createdAt, run.payload)
  }

  function Last(c: seq<Row>): Row
    requires c != []
  {
    c[|c| - 1]
  }

  // --- The steps as functions of the state ----------------------------------------------------

  /** Publish, then mark. */
  function PublishAndMarkStep(w: World, id: PackageId, s: SlotName): Step<()> {
    var copied := PublishStep(w, id, s);
    if copied.result.Failure? then copied else MarkStep(copied.world, id)
  }

  /** Publish, mark, clear the slot. */
  function FinishStep(w: World, id: PackageId, s: SlotName): Step<()> {
    var marked := PublishAndMarkStep(w, id, s);
    if marked.result.Failure? then marked else Step(marked.world.WithSlot(s, EMPTY_DIR), Success(()))
  }

  /** `resume_pending` */
  function ResumeStep(w: World): Step<Option<PackageId>> {
    match w.pending.manifest
    case None => Step(w, Success(None))
    case Some(m) =>
      if !Cataloged(w.catalog, m.id) then Step(w.(pending := EMPTY_DIR), Success(None))
      else
        var done := FinishStep(w, m.id, Pending);
        Step(done.world, if done.result.Failure? then Failure(done.result.error) else Success(Some(m.id)))
  }

  function IngestStep(w: World, run: Run): World {
    w.(changes := w.changes + run.arrived, top := run.newTop)
  }

  /** A builder freezes the newest change number, lets ingest go on, stages the artifact, catalogs it. */
  function StageStep(w: World, s: SlotName, m: Manifest, low: nat, run: Run): World {
    IngestStep(w, run).(catalog := w.catalog + [RowFor(m, low, w.top, Built)]).WithSlot(s, Whole(m))
  }

  /** `build_incremental` */
  function IncrementalStep(w: World, run: Run): Step<Option<PackageId>> {
    if w.catalog == [] then Step(w, Failure(NoBaseline))
    else
      var prev := Last(w.catalog);
      if run.stamps != prev.stamps then Step(w, Failure(RebaselineRequired))
      else if !HasChange(w.changes, prev.high, w.top) then
        Step(IngestStep(w, run), Success(None))
      else
        var m := NextIncremental(prev, run);
        Step(StageStep(w, Pending, m, prev.high, run), Success(Some(m.id)))
  }

  function HeadReport(c: seq<Row>, built: Option<PackageId>): Report {
    if c == [] then Report(built, 0, 0) else Report(built, Last(c).sequence, Last(c).high)
  }

  /** Refresh the remote manifest and report the head. */
  function AnnounceStep(w: World, retain: nat, built: Option<PackageId>): Step<Report> {
    var announced := RemoteStep(w, retain);
    Step(announced.world,
         if announced.result.Failure? then Failure(announced.result.error) else Success(HeadReport(w.catalog, built)))
  }

  /** What `producer_cycle` does once nothing is left to resume. */
  function FreshStep(w: World, run: Run, resumed: Option<PackageId>): Step<Report> {
    var built := IncrementalStep(w, run);
    if built.result.Failure? then Step(built.world, Failure(built.result.error))
    else match built.result.value
      case None => AnnounceStep(built.world, run.retain, resumed)
      case Some(id) => FinishAndAnnounceStep(built.world, id, Pending, run.retain)
  }

  function FinishAndAnnounceStep(w: World, id: PackageId, s: SlotName, retain: nat): Step<Report> {
    var done := FinishStep(w, id, s);
    if done.result.Failure? then Step(done.world, Failure(done.result.error))
    else AnnounceStep(done.world, retain, Some(id))
  }

  /** `producer_cycle` */
  function ProducerStep(w: World, run: Run): Step<Report> {
    var resumed := ResumeStep(w);
    if resumed.result.Failure? then Step(resumed.world, Failure(resumed.result.error))
    else FreshStep(resumed.world.(pending := EMPTY_DIR), run, resumed.result.value)
  }

  /** The start of `rebaseline_cycle`: an unfinished rebaseline is thrown away, an incremental resumed. */
  function ClearStep(w: World): Step<()> {
    match w.pending.manifest
    case None => Step(w, Success(()))
    case Some(m) =>
      if m.kind == Rebaseline then
        Step(w.(catalog := DeleteUnpublished(w.catalog, m.id), pending := EMPTY_DIR), Success(()))
      else
        var resumed := ResumeStep(w);
        Step(resumed.world, if resumed.result.Failure? then Failure(resumed.result.error) else Success(()))
  }

  /** `rebaseline_cycle` */
  function RebaselineStep(w: World, run: Run): Step<Report> {
    var cleared := ClearStep(w);
    if cleared.result.Failure? then Step(cleared.world, Failure(cleared.result.error))
    else
      var clean := cleared.world.(pending := EMPTY_DIR);
      if clean.catalog == [] then Step(clean, Failure(NoBaseline))
      else
        var m := NextRebaseline(Last(clean.catalog), run);
        FinishAndAnnounceStep(StageStep(clean, Pending, m, Last(clean.catalog).high, run), m.id, Pending, run.retain)
  }

  // --- Why every write is legal ---------------------------------------------------------------

  /** The slot holds the manifest of the row cataloged under `id`; if the id is not served yet, it holds the
      whole artifact. */
  ghost predicate Finishable(w: World, id: PackageId, s: SlotName) {
    exists i: nat :: i < |w.catalog| && FinishableAt(w, id, s, i)
  }

  predicate FinishableAt(w: World, id: PackageId, s: SlotName, i: nat)
    requires i < |w.catalog|
  {
    && w.catalog[i].id == id
    && w.Slot(s).manifest == Some(w.catalog[i].manifestDigest)
    && (id !in w.served ==> w.Slot(s) == Whole(w.catalog[i].manifestDigest))
  }

  lemma CanFinish(w: World, id: PackageId, s: SlotName)
    requires Chain(w.catalog) && Finishable(w, id, s)
    ensures id in w.served || StagedRow(w, id, w.Slot(s))
    ensures var copied := PublishStep(w, id, s);
      copied.result.Success? ==>
        && Cataloged(copied.world.catalog, id)
        && Enabled(copied.world, Mark(id))
        && !Needed(MarkStep(copied.world, id).world, w.Slot(s))
  {
    var i: nat :| i < |w.catalog| && FinishableAt(w, id, s, i);
    assert LinkAt(w.catalog, i);
    if PublishStep(w, id, s).result.Success? {
      CopiedServes(w, id, s, i);
      MarkedIsFree(w.catalog, i);
    }
  }

  lemma CopiedServes(w: World, id: PackageId, s: SlotName, i: nat)
    requires i < |w.catalog| && FinishableAt(w, id, s, i) && PublishStep(w, id, s).result.Success?
    requires w.catalog[i].manifestDigest.digest == w.catalog[i].digest
    ensures ServesPayload(PublishStep(w, id, s).world.served, w.catalog[i])
    ensures PublishStep(w, id, s).world.catalog == w.catalog
  {
  }

  /** Once a row is marked, no unpublished row has its manifest. */
  lemma MarkedIsFree(c: seq<Row>, i: nat)
    requires Chain(c) && i < |c|
    ensures forall j: nat | j < |c| && c[j].manifestDigest == c[i].manifestDigest ::
      MarkRows(c, c[i].id)[j].status == Published
  {
    assert LinkAt(c, i);
    forall j: nat | j < |c| && c[j].manifestDigest == c[i].manifestDigest
      ensures MarkRows(c, c[i].id)[j].status == Published
    {
      assert LinkAt(c, j);
    }
  }

  /** A staged manifest whose id is cataloged is the newest row's, whole unless it is already served. */
  lemma StagedIsLast(w: World)
    requires Inv(w) && w.pending.manifest.Some? && Cataloged(w.catalog, w.pending.manifest.value.id)
    ensures |w.catalog| > 1
    ensures w.pending.manifest == Some(Last(w.catalog).manifestDigest)
    ensures w.pending.manifest.value.id == Last(w.catalog).id
    ensures Finishable(w, w.pending.manifest.value.id, Pending)
  {
    var n := |w.catalog|;
    var id := w.pending.manifest.value.id;
    var i: nat :| i < n && w.catalog[i].id == id;
    assert LinkAt(w.catalog, i) && LinkAt(w.catalog, n - 1);
    if w.catalog[n - 1].status == Published {
      assert ServesPayload(w.served, w.catalog[n - 1]);
    }
    assert FinishableAt(w, id, Pending, n - 1);
  }

  /** A staged manifest whose id is not cataloged belongs to no row. */
  lemma UncatalogedIsFree(w: World, s: SlotName)
    requires Chain(w.catalog)
    requires w.Slot(s).manifest.Some? ==> !Cataloged(w.catalog, w.Slot(s).manifest.value.id)
    ensures !Needed(w, w.Slot(s))
  {
    forall i: nat | i < |w.catalog| && w.Slot(s).manifest == Some(w.catalog[i].manifestDigest)
      ensures Cataloged(w.catalog, w.Slot(s).manifest.value.id)
    {
      assert LinkAt(w.catalog, i);
    }
  }

  /** Building over a published head (or over the first baseline, whatever its status) is legal. */
  lemma CanStage(w: World, s: SlotName, m: Manifest, row: Row)
    requires Inv(w) && w.Slot(s) == Whole(m) && s == SlotOf(m.kind) && row == RowFor(m, row.low, row.high, Built)
    requires |w.catalog| > 1 ==> Last(w.catalog).status == Published
    requires m.id == IdAt(|w.catalog|) && row.high <= w.top
    requires if w.catalog == [] then First(row) else Succeeds(Last(w.catalog), row)
    requires m.kind == Incremental ==> HasChange(w.changes, row.low, row.high)
    ensures Enabled(w, Insert(row)) && !Cataloged(w.catalog, row.id)
  {
    forall i: nat | i < |w.catalog| ensures w.catalog[i].id != row.id {
      assert LinkAt(w.catalog, i);
    }
  }

  lemma LastLinks(w: World)
    requires Inv(w) && w.catalog != []
    ensures Last(w.catalog).sequence == |w.catalog| && Last(w.catalog).high <= w.top
    ensures IdAt(|w.catalog|) == PackageId(Last(w.catalog).sequence, Last(w.catalog).sequence + 1)
    ensures w.pending.manifest == None ==> |w.catalog| > 1 ==> Last(w.catalog).status == Published
  {
    assert LinkAt(w.catalog, |w.catalog| - 1);
  }

  // --- The entry points -----------------------------------------------------------------------

  method PublishAndMark(p: Producer, id: PackageId, s: SlotName) returns (r: Result<(), CycleError>)
    requires p.Valid() && Finishable(p.State(), id, s)
    modifies p
    ensures p.Valid() && KeepsRows(old(p.writes), p.writes) && p.abandoned == old(p.abandoned)
    ensures Step(p.State(), r) == PublishAndMarkStep(old(p.State()), id, s)
    ensures r.Success? ==> p.Clearable(s)
  {
    assert Chain(p.catalog) by {
      p.Sound();
    }
    CanFinish(p.State(), id, s);
    r := p.PublishPackage(id, s);
    if r.Success? {
      r := p.MarkPublished(id);
    }
  }

  method Finish(p: Producer, id: PackageId, s: SlotName) returns (r: Result<(), CycleError>)
    requires p.Valid() && Finishable(p.State(), id, s)
    modifies p
    ensures p.Valid() && KeepsRows(old(p.writes), p.writes) && p.abandoned == old(p.abandoned)
    ensures Step(p.State(), r) == FinishStep(old(p.State()), id, s)
  {
    r := PublishAndMark(p, id, s);
    if r.Success? {
      p.CleanDir(s);
    }
  }

  method ResumePending(p: Producer) returns (r: Result<Option<PackageId>, CycleError>)
    requires p.Valid()
    modifies p
    ensures p.Valid() && KeepsRows(old(p.writes), p.writes) && p.abandoned == old(p.abandoned)
    ensures Step(p.State(), r) == ResumeStep(old(p.State()))
    ensures p.top == old(p.top) && (r.Success? ==> p.pending.manifest == None)
  {
    if p.pending.manifest == None {
      return Success(None);
    }
    var id := p.pending.manifest.value.id;
    if !exists i | 0 <= i < |p.catalog| :: p.catalog[i].id == id {
      assert p.Clearable(Pending) by {
        p.Sound();
        UncatalogedIsFree(p.State(), Pending);
      }
      p.CleanDir(Pending);
      return Success(None);
    }
    assert Finishable(p.State(), id, Pending) by {
      p.Sound();
      StagedIsLast(p.State());
    }
    var done := Finish(p, id, Pending);
    r := if done.Failure? then Failure(done.error) else Success(Some(id));
  }

  /** The ingest that becomes visible after the snapshot. */
  method LetIngest(p: Producer, run: Run)
    requires p.Valid() && Arrives(p.State(), run)
    modifies p
    ensures p.Valid() && KeepsRows(old(p.writes), p.writes) && p.abandoned == old(p.abandoned)
    ensures p.State() == IngestStep(old(p.State()), run)
  {
    p.Write(Ingest(run.arrived, run.newTop), IngestStep(p.State(), run));
  }

  /** The body every builder shares: the frozen `high` is read first, ingest may go on while the artifact is
      written into the empty slot, and the catalog row comes last. */
  method StageAndCatalog(p: Producer, s: SlotName, m: Manifest, low: nat, run: Run)
    requires p.Valid() && Arrives(p.State(), run)
    requires p.State().Slot(s) == EMPTY_DIR && s == SlotOf(m.kind) && m.id == IdAt(|p.catalog|)
    requires |p.catalog| > 1 ==> Last(p.catalog).status == Published
    requires var row := RowFor(m, low, p.top, Built);
      && (if p.catalog == [] then First(row) else Succeeds(Last(p.catalog), row))
      && (m.kind == Incremental ==> HasChange(p.changes, low, p.top))
    modifies p
    ensures p.Valid() && KeepsRows(old(p.writes), p.writes) && p.abandoned == old(p.abandoned)
    ensures p.State() == StageStep(old(p.State()), s, m, low, run)
    ensures Finishable(p.State(), m.id, s)
  {
    var row := RowFor(m, low, p.top, Built);
    LetIngest(p, run);
    p.StageArtifact(s, m);
    assert Enabled(p.State(), Insert(row)) && !Cataloged(p.catalog, row.id) by {
      p.Sound();
      CanStage(p.State(), s, m, row);
    }
    var inserted := p.InsertRow(row);
    assert FinishableAt(p.State(), m.id, s, |p.catalog| - 1);
  }

  method BuildIncremental(p: Producer, run: Run) returns (r: Result<Option<PackageId>, CycleError>)
    requires p.Valid() && Arrives(p.State(), run) && p.pending == EMPTY_DIR
    modifies p
    ensures p.Valid() && KeepsRows(old(p.writes), p.writes) && p.abandoned == old(p.abandoned)
    ensures Step(p.State(), r) == IncrementalStep(old(p.State()), run)
    ensures r.Success? && r.value.Some? ==> Finishable(p.State(), r.value.value, Pending)
  {
    if p.catalog == [] {
      return Failure(NoBaseline);
    }
    var prev := Last(p.catalog);
    if run.stamps != prev.stamps {
      return Failure(RebaselineRequired);
    }
    if !exists c | c in p.changes :: prev.high < c <= p.top {
      LetIngest(p, run);
      return Success(None);
    }
    var m := NextIncremental(prev, run);
    p.Sound();
    LastLinks(p.State());
    StageAndCatalog(p, Pending, m, prev.high, run);
    r := Success(Some(m.id));
  }

  method AnnounceHead(p: Producer, retain: nat, built: Option<PackageId>) returns (r: Result<Report, CycleError>)
    requires p.Valid()
    modifies p
    ensures p.Valid() && KeepsRows(old(p.writes), p.writes) && p.abandoned == old(p.abandoned)
    ensures Step(p.State(), r) == AnnounceStep(old(p.State()), retain, built)
  {
    var announced := p.RefreshRemote(retain);
    r := if announced.Failure? then Failure(announced.error) else Success(HeadReport(p.catalog, built));
  }

  method FinishAndAnnounce(p: Producer, id: PackageId, s: SlotName, retain: nat)
    returns (r: Result<Report, CycleError>)
    requires p.Valid() && Finishable(p.State(), id, s)
    modifies p
    ensures p.Valid() && KeepsRows(old(p.writes), p.writes) && p.abandoned == old(p.abandoned)
    ensures Step(p.State(), r) == FinishAndAnnounceStep(old(p.State()), id, s, retain)
  {
    var done := Finish(p, id, s);
    if done.Failure? {
      return Failure(done.error);
    }
    r := AnnounceHead(p, retain, Some(id));
  }

  method BuildFresh(p: Producer, run: Run, resumed: Option<PackageId>) returns (r: Result<Report, CycleError>)
    requires p.Valid() && Arrives(p.State(), run) && p.pending == EMPTY_DIR
    modifies p
    ensures p.Valid() && KeepsRows(old(p.writes), p.writes) && p.abandoned == old(p.abandoned)
    ensures Step(p.State(), r) == FreshStep(old(p.State()), run, resumed)
  {
    var built := BuildIncremental(p, run);
    if built.Failure? {
      return Failure(built.error);
    }
    match built.value {
      case None => r := AnnounceHead(p, run.retain, resumed);
      case Some(id) => r := FinishAndAnnounce(p, id, Pending, run.retain);
    }
  }

  method ProducerCycle(p: Producer, run: Run) returns (r: Result<Report, CycleError>)
    requires p.Valid() && Arrives(p.State(), run)
    modifies p
    ensures p.Valid() && KeepsRows(old(p.writes), p.writes) && p.abandoned == old(p.abandoned)
    ensures Step(p.State(), r) == ProducerStep(old(p.State()), run)
    ensures Ran(old(p.State()), p.writes[|old(p.writes)|..], p.State())
  {
    var resumed := ResumePending(p);
    if resumed.Failure? {
      r := Failure(resumed.error);
    } else {
      p.CleanDir(Pending);
      r := BuildFresh(p, run, resumed.value);
    }
    NewWrites(p.origin, old(p.writes), p.writes);
  }

  method ClearPending(p: Producer) returns (r: Result<(), CycleError>)
    requires p.Valid()
    modifies p
    ensures p.Valid() && old(p.writes) <= p.writes
    ensures p.abandoned ==> old(p.abandoned) || DiscardsStaged(old(p.State()))
    ensures Step(p.State(), r) == ClearStep(old(p.State()))
    ensures p.top == old(p.top) && (r.Success? ==> p.pending.manifest == None)
  {
    if p.pending.manifest == None {
      return Success(());
    }
    var m := p.pending.manifest.value;
    if m.kind == Rebaseline {
      p.Sound();
      CanDiscard(p.State());
      p.DeleteUnpublishedRow(m.id);
      p.CleanDir(Pending);
      return Success(());
    }
    var resumed := ResumePending(p);
    r := if resumed.Failure? then Failure(resumed.error) else Success(());
  }

  /** A staged rebaseline whose row is unpublished, but whose artifact is already served. */
  predicate DiscardsStaged(w: World) {
    && w.pending.manifest.Some?
    && w.pending.manifest.value.kind == Rebaseline
    && DiscardsServed(w, Discard(w.pending.manifest.value.id))
  }

  /** Throwing away a staged rebaseline deletes its own row or nothing, and then no row needs the slot. */
  lemma CanDiscard(w: World)
    requires Inv(w) && w.pending.manifest.Some? && w.pending.manifest.value.kind == Rebaseline
    ensures var id := w.pending.manifest.value.id;
      && (DeleteUnpublished(w.catalog, id) != w.catalog ==> Enabled(w, Discard(id)))
      && !Needed(w.(catalog := DeleteUnpublished(w.catalog, id)), w.pending)
  {
    var m := w.pending.manifest.value;
    if Cataloged(w.catalog, m.id) {
      StagedIsLast(w);
      assert LinkAt(w.catalog, |w.catalog| - 1) && LinkAt(w.catalog, 0);
      DiscardCatalog(w.catalog, m.id);
    } else {
      DeleteNothing(w.catalog, m.id);
      UncatalogedIsFree(w, Pending);
    }
  }

  method BuildRebaseline(p: Producer, run: Run) returns (r: Result<Report, CycleError>)
    requires p.Valid() && Arrives(p.State(), run) && p.pending == EMPTY_DIR && p.catalog != []
    modifies p
    ensures p.Valid() && KeepsRows(old(p.writes), p.writes) && p.abandoned == old(p.abandoned)
    ensures var w := old(p.State());
      var m := NextRebaseline(Last(w.catalog), run);
      Step(p.State(), r) ==
        FinishAndAnnounceStep(StageStep(w, Pending, m, Last(w.catalog).high, run), m.id, Pending, run.retain)
  {
    var m := NextRebaseline(Last(p.catalog), run);
    p.Sound();
    LastLinks(p.State());
    StageAndCatalog(p, Pending, m, Last(p.catalog).high, run);
    r := FinishAndAnnounce(p, m.id, Pending, run.retain);
  }

  method RebaselineCycle(p: Producer, run: Run) returns (r: Result<Report, CycleError>)
    requires p.Valid() && Arrives(p.State(), run)
    modifies p
    ensures p.Valid() && old(p.writes) <= p.writes
    ensures p.abandoned ==> old(p.abandoned) || DiscardsStaged(old(p.State()))
    ensures Step(p.State(), r) == RebaselineStep(old(p.State()), run)
    ensures Ran(old(p.State()), p.writes[|old(p.writes)|..], p.State())
  {
    var cleared := ClearPending(p);
    if cleared.Failure? {
      r := Failure(cleared.error);
    } else {
      p.CleanDir(Pending);
      if p.catalog == [] {
        r := Failure(NoBaseline);
      } else {
        r := BuildRebaseline(p, run);
      }
    }
    NewWrites(p.origin, old(p.writes), p.writes);
  }
}
