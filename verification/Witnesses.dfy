/** The states in which the protocol falls short do occur: a run of legal writes leads to each. */
module Witnesses {
  import opened Wrappers
  import opened Packages
  import opened PublishState
  import opened PublishRuns
  import opened Cycles
  import opened CycleResults
  import opened RebaselineResults
  import opened UnfinishedBootstraps

  const STAMPS := Stamps(1, "bge", "builders")
  const ROOT := Manifest(PackageId(1, 1), Baseline, None, "b1", 1, STAMPS, "t1", map[])
  const NEXT_ROOT :=
    Manifest(PackageId(1, 2), Rebaseline, Some(Link(PackageId(1, 1), map[])), "b2", 2, STAMPS, "t2", map[])
  const FRESH := World(0, {}, [], EMPTY_DIR, EMPTY_DIR, map[], map[], None)

  lemma Reach(w: World, a: Action)
    requires Reachable(w) && Enabled(w, a)
    ensures Reachable(Apply(w, a))
  {
    var start: World, run: seq<Action> :| Initial(start) && Legal(start, run) && After(start, run) == w;
    assert (run + [a])[..|run|] == run;
    assert Legal(start, run + [a]) && After(start, run + [a]) == Apply(w, a);
  }

  /** The first baseline is staged and cataloged; the process dies before publishing it. */
  lemma StagedRoot() returns (w: World)
    ensures Reachable(w)
    ensures w == FRESH.(bootstrap := Whole(ROOT), catalog := [RowFor(ROOT, 0, 0, Built)])
  {
    w := FRESH;
    assert Initial(w) && Legal(w, []) && After(w, []) == w;
    Reach(w, Stage(Bootstrap, ROOT));
    w := Apply(w, Stage(Bootstrap, ROOT));
    var row := RowFor(ROOT, 0, 0, Built);
    assert w.catalog + [row] == [row];
    Reach(w, Insert(row));
    w := Apply(w, Insert(row));
  }

  /** An unfinished bootstrap with a change to package is reachable. */
  lemma UnfinishedBootstrapOccurs() returns (w: World)
    ensures Reachable(w) && |w.catalog| == 1 && w.catalog[0].status == Built
    ensures IdAt(0) !in w.served && IdAt(1) !in w.served && Due(w)
  {
    w := StagedRoot();
    Reach(w, Ingest({1}, 1));
    w := Apply(w, Ingest({1}, 1));
    assert 1 in w.changes;
  }

  /** The process dies between making the first baseline visible and marking it. */
  lemma ServedRoot() returns (w: World)
    ensures Reachable(w)
    ensures w == FRESH.(bootstrap := Whole(ROOT), catalog := [RowFor(ROOT, 0, 0, Built)],
                        served := map[PackageId(1, 1) := Whole(ROOT)])
  {
    w := StagedRoot();
    var id := PackageId(1, 1);
    Reach(w, Copy(id, Whole(ROOT)));
    w := Apply(w, Copy(id, Whole(ROOT)));
    assert w.catalog[0].id == id;
    Reach(w, Rename(id));
    w := Apply(w, Rename(id));
    assert w.tmp == map[];
  }

  /** A first baseline that is served and not marked, with a change to package, is reachable, and the next
      `producer_cycle` with the same stamps gets stuck over it. */
  lemma UnmarkedBootstrapOccurs(run: Run) returns (w: World)
    requires run.stamps == STAMPS
    ensures Reachable(w) && |w.catalog| == 1 && w.catalog[0].status == Built
    ensures IdAt(0) in w.served && !Stuck(w) && ProducerOvertakes(w, run)
    ensures ProducerStep(w, run).result.Success? && Stuck(ProducerStep(w, run).world)
  {
    w := ServedRoot();
    Reach(w, Ingest({1}, 1));
    w := Apply(w, Ingest({1}, 1));
    assert 1 in w.changes;
    ReachableKeepsInv(w);
    CycleOverUnfinishedBootstrap(w, run);
  }

  lemma PublishedRoot() returns (w: World)
    ensures Reachable(w)
    ensures w == FRESH.(bootstrap := Whole(ROOT), catalog := [RowFor(ROOT, 0, 0, Published)],
                        served := map[PackageId(1, 1) := Whole(ROOT)])
  {
    w := ServedRoot();
    var id := PackageId(1, 1);
    assert w.catalog[0].id == id && ServesPayload(w.served, w.catalog[0]);
    Reach(w, Mark(id));
    w := Apply(w, Mark(id));
    assert w.catalog == [RowFor(ROOT, 0, 0, Published)];
  }

  lemma StagedRebaseline() returns (w: World)
    ensures Reachable(w)
    ensures w == FRESH.(
      bootstrap := Whole(ROOT), pending := Whole(NEXT_ROOT),
      catalog := [RowFor(ROOT, 0, 0, Published), RowFor(NEXT_ROOT, 0, 0, Built)],
      served := map[PackageId(1, 1) := Whole(ROOT)])
  {
    w := PublishedRoot();
    var row := RowFor(NEXT_ROOT, 0, 0, Built);
    Reach(w, Stage(Pending, NEXT_ROOT));
    w := Apply(w, Stage(Pending, NEXT_ROOT));
    assert w.catalog + [row] == [RowFor(ROOT, 0, 0, Published), row];
    Reach(w, Insert(row));
    w := Apply(w, Insert(row));
  }

  /** A rebaseline that is served and not marked is reachable. */
  lemma UnmarkedRebaselineOccurs() returns (w: World)
    ensures Reachable(w) && Unfinished(w) && Last(w.catalog).id in w.served
  {
    w := StagedRebaseline();
    var id := PackageId(1, 2);
    Reach(w, Copy(id, Whole(NEXT_ROOT)));
    w := Apply(w, Copy(id, Whole(NEXT_ROOT)));
    assert w.catalog[1].id == id;
    Reach(w, Rename(id));
    w := Apply(w, Rename(id));
  }
}
