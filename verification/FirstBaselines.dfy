/** `bootstrap_first_baseline`: build the first baseline, or finish one that a crash interrupted, or
    refuse. */
module FirstBaselines {
  import opened Wrappers
  import opened Packages
  import opened RemoteManifest
  import opened PublishState
  import opened PublishRuns
  import opened Producers
  import opened Cycles

  /** `classify_first_baseline_row` */
  predicate Canonical(row: Row, run: Run) {
    && row.id == PackageId(1, 1)
    && row.sequence == 1
    && row.kind == Baseline
    && row.generation == 1
    && row.baselineId == run.baselineId
    && row.stamps.fingerprint == run.stamps.fingerprint
  }

  /** Where `resume_first_baseline` takes the artifact from: the served directory, else the slot. */
  function RecoverStep(w: World, row: Row): Step<()> {
    if ReadManifest(w.served, row.id).Some? then Step(w, Success(()))
    else if w.bootstrap.manifest == None then Step(w, Failure(RepairRequired))
    else PublishStep(w, row.id, Bootstrap)
  }

  /** The served artifact must be the cataloged one; then its row is marked. */
  function BindStep(w: World, row: Row): Step<()> {
    match ReadManifest(w.served, row.id)
    case None => Step(w, Failure(Unreadable))
    case Some(m) =>
      if !Identifies(row, m, false) then Step(w, Failure(RepairRequired))
      else if row.status == Built then MarkStep(w, row.id)
      else Step(w, Success(()))
  }

  /** `resume_first_baseline` */
  function ResumeFirstStep(w: World, row: Row): Step<()> {
    var found := RecoverStep(w, row);
    if found.result.Failure? then found
    else
      var bound := BindStep(found.world, row);
      if bound.result.Failure? then bound else Step(bound.world.(bootstrap := EMPTY_DIR), Success(()))
  }

  /** The full build, allowed only by the preflight over the database. */
  function BuildFirstStep(w: World, run: Run): Step<()> {
    if !run.preflight then Step(w, Failure(PreflightFailed))
    else
      var m := FirstBaseline(run);
      FinishStep(StageStep(w.(bootstrap := EMPTY_DIR), Bootstrap, m, 0, run), m.id, Bootstrap)
  }

  /** `bootstrap_locked` */
  function BootstrapLockedStep(w: World, run: Run): Step<()> {
    var k := LastMedia(w.catalog);
    if k == |w.catalog| then BuildFirstStep(w, run)
    else if !Canonical(w.catalog[k], run) then Step(w, Failure(RepairRequired))
    else if Verifies(w) then Step(w, Failure(AlreadyBaselined))
    else ResumeFirstStep(w, w.catalog[k])
  }

  /** `bootstrap_first_baseline` */
  function BootstrapStep(w: World, run: Run): Step<Report> {
    var locked := BootstrapLockedStep(w, run);
    if locked.result.Failure? then Step(locked.world, Failure(locked.result.error))
    else VerifiedAnnounceStep(locked.world, run.retain, Some(PackageId(1, 1)))
  }

  /** Unlike the cycles, bootstrap verifies the manifest before it becomes visible, and reads it back after. */
  function VerifiedAnnounceStep(w: World, retain: nat, built: Option<PackageId>): Step<Report> {
    match RemoteFor(w.catalog, w.served, retain)
    case Failure(error) => Step(w, Failure(RemoteFailed(error)))
    case Success(remote) =>
      if !Coherent(remote, w.served) then Step(w, Failure(Unverified))
      else
        var announced := w.(remote := Some(remote));
        Step(announced, if Verifies(announced) then Success(HeadReport(w.catalog, built)) else Failure(Unverified))
  }

  /** `verify_published_root` */
  predicate Verifies(w: World) {
    w.remote.Some? && Coherent(w.remote.value, w.served)
  }

  /** What was built from a chain always verifies. */
  lemma VerificationPasses(w: World, retain: nat, built: Option<PackageId>)
    requires Chain(w.catalog)
    ensures VerifiedAnnounceStep(w, retain, built) == AnnounceStep(w, retain, built)
  {
    if RemoteFor(w.catalog, w.served, retain).Success? {
      BuiltIsSound(w.catalog, w.served, retain);
    }
  }

  // --- The entry point ------------------------------------------------------------------------

  /** The row that `bootstrap_locked` finds is the first one of the catalog; if it is published its artifact
      is served, otherwise the artifact is whole in its slot. */
  lemma FirstRow(w: World, run: Run)
    requires Inv(w) && LastMedia(w.catalog) < |w.catalog| && Canonical(w.catalog[LastMedia(w.catalog)], run)
    ensures LastMedia(w.catalog) == 0
    ensures IdAt(0) in w.served ==> ReadManifest(w.served, IdAt(0)) == Some(w.catalog[0].manifestDigest)
    ensures IdAt(0) !in w.served ==>
      w.catalog[0].status == Built && w.bootstrap == Whole(w.catalog[0].manifestDigest)
    ensures StagedRow(w, IdAt(0), Whole(w.catalog[0].manifestDigest))
    ensures Identifies(w.catalog[0], w.catalog[0].manifestDigest, false)
  {
    assert LinkAt(w.catalog, LastMedia(w.catalog)) && LinkAt(w.catalog, 0);
    if w.catalog[0].status == Published {
      assert ServesPayload(w.served, w.catalog[0]);
    }
  }

  /** Once row 0 is published nothing needs the bootstrap slot. */
  lemma BootstrapIsFree(w: World)
    requires Inv(w) && w.catalog != [] && w.catalog[0].status == Published
    ensures !Needed(w, w.bootstrap)
  {
  }

  method RecoverArtifact(p: Producer, row: Row) returns (r: Result<(), CycleError>)
    requires p.Valid() && p.catalog != [] && row == p.catalog[0] && row.id == IdAt(0)
    requires IdAt(0) !in p.served ==> p.bootstrap == Whole(row.manifestDigest)
    modifies p
    ensures p.Valid() && KeepsRows(old(p.writes), p.writes) && p.abandoned == old(p.abandoned)
    ensures Step(p.State(), r) == RecoverStep(old(p.State()), row)
  {
    if row.id in p.served && p.served[row.id].manifest.Some? {
      return Success(());
    }
    if p.bootstrap.manifest == None {
      return Failure(RepairRequired);
    }
    assert row.id !in p.served ==> StagedRow(p.State(), row.id, p.bootstrap);
    r := p.PublishPackage(row.id, Bootstrap);
  }

  method BindAndMark(p: Producer, row: Row) returns (r: Result<(), CycleError>)
    requires p.Valid() && p.catalog != [] && row == p.catalog[0] && row.id == IdAt(0)
    modifies p
    ensures p.Valid() && KeepsRows(old(p.writes), p.writes) && p.abandoned == old(p.abandoned)
    ensures Step(p.State(), r) == BindStep(old(p.State()), row)
    ensures r.Success? ==> p.catalog != [] && p.catalog[0].status == Published
  {
    var m := ReadManifest(p.served, row.id);
    if m == None {
      return Failure(Unreadable);
    }
    if !Identifies(row, m.value, false) {
      return Failure(RepairRequired);
    }
    if row.status == Built {
      r := p.MarkPublished(row.id);
      return;
    }
    r := Success(());
  }

  method ResumeFirst(p: Producer, row: Row) returns (r: Result<(), CycleError>)
    requires p.Valid() && p.catalog != [] && row == p.catalog[0] && row.id == IdAt(0)
    requires IdAt(0) !in p.served ==> p.bootstrap == Whole(row.manifestDigest)
    modifies p
    ensures p.Valid() && KeepsRows(old(p.writes), p.writes) && p.abandoned == old(p.abandoned)
    ensures Step(p.State(), r) == ResumeFirstStep(old(p.State()), row)
  {
    r := RecoverArtifact(p, row);
    if r.Failure? {
      return;
    }
    r := BindAndMark(p, row);
    if r.Failure? {
      return;
    }
    assert p.Clearable(Bootstrap) by {
      p.Sound();
      BootstrapIsFree(p.State());
    }
    p.CleanDir(Bootstrap);
  }

  method BuildFirst(p: Producer, run: Run) returns (r: Result<(), CycleError>)
    requires p.Valid() && Arrives(p.State(), run) && p.catalog == []
    modifies p
    ensures p.Valid() && KeepsRows(old(p.writes), p.writes) && p.abandoned == old(p.abandoned)
    ensures Step(p.State(), r) == BuildFirstStep(old(p.State()), run)
  {
    if !run.preflight {
      return Failure(PreflightFailed);
    }
    p.CleanDir(Bootstrap);
    var m := FirstBaseline(run);
    StageAndCatalog(p, Bootstrap, m, 0, run);
    r := Finish(p, m.id, Bootstrap);
  }

  method VerifyRoot(p: Producer) returns (verified: bool)
    ensures verified == Verifies(p.State())
  {
    if p.remote == None {
      return false;
    }
    verified := VerifyRemote(p.remote.value, p.served);
  }

  method VerifyAndAnnounce(p: Producer, retain: nat, built: Option<PackageId>) returns (r: Result<Report, CycleError>)
    requires p.Valid()
    modifies p
    ensures p.Valid() && KeepsRows(old(p.writes), p.writes) && p.abandoned == old(p.abandoned)
    ensures Step(p.State(), r) == VerifiedAnnounceStep(old(p.State()), retain, built)
  {
    var remote := BuildInner(p.catalog, p.served, retain);
    if remote.Failure? {
      return Failure(RemoteFailed(remote.error));
    }
    var verified := VerifyRemote(remote.value, p.served);
    if !verified {
      return Failure(Unverified);
    }
    p.Write(Announce(remote.value), p.State().(remote := Some(remote.value)));
    verified := VerifyRoot(p);
    r := if verified then Success(HeadReport(p.catalog, built)) else Failure(Unverified);
  }

  method BootstrapLocked(p: Producer, run: Run) returns (r: Result<(), CycleError>)
    requires p.Valid() && Arrives(p.State(), run)
    modifies p
    ensures p.Valid() && KeepsRows(old(p.writes), p.writes) && p.abandoned == old(p.abandoned)
    ensures Step(p.State(), r) == BootstrapLockedStep(old(p.State()), run)
  {
    p.Sound();
    var k := LastMedia(p.catalog);
    if k == |p.catalog| {
      assert p.catalog != [] ==> LinkAt(p.catalog, 0);
      r := BuildFirst(p, run);
      return;
    }
    var row := p.catalog[k];
    if !Canonical(row, run) {
      return Failure(RepairRequired);
    }
    var verified := VerifyRoot(p);
    if verified {
      return Failure(AlreadyBaselined);
    }
    FirstRow(p.State(), run);
    r := ResumeFirst(p, row);
  }

  method BootstrapFirstBaseline(p: Producer, run: Run) returns (r: Result<Report, CycleError>)
    requires p.Valid() && Arrives(p.State(), run)
    modifies p
    ensures p.Valid() && KeepsRows(old(p.writes), p.writes) && p.abandoned == old(p.abandoned)
    ensures Step(p.State(), r) == BootstrapStep(old(p.State()), run)
    ensures var writes := p.writes[|old(p.writes)|..]; Ran(old(p.State()), writes, p.State()) && NoDiscard(writes)
  {
    var locked := BootstrapLocked(p, run);
    if locked.Failure? {
      r := Failure(locked.error);
    } else {
      r := VerifyAndAnnounce(p, run.retain, Some(PackageId(1, 1)));
    }
    NewWrites(p.origin, old(p.writes), p.writes);
  }
}
