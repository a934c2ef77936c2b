/** The durable store of one corpus and the file-tree and catalog operations on it.  Every write is
    recorded in a ghost log; a method that keeps `Valid()` has observed the discipline of `PublishState` at
    every one of them, so every prefix of the log (every point at which the process can die) is covered by
    the lemmas about runs. */
module Producers {
  import opened Wrappers
  import opened Packages
  import opened RemoteManifest
  import opened PublishState
  import opened PublishRuns

  datatype CycleError =
    | NoBaseline
    | RebaselineRequired
    | Unreadable
    | DifferentContent(id: PackageId)
    | Uncataloged(id: PackageId)
    | Conflict(id: PackageId)
    | RemoteFailed(error: RemoteError)
    | PreflightFailed
    | RepairRequired
    | AlreadyBaselined
    | Unverified

  /** What an operation leaves behind, and what it answers. */
  datatype Step<+R> = Step(world: World, result: Result<R, CycleError>)

  predicate SamePayload(a: Dir, b: Dir) {
    a.manifest.Some? && b.manifest.Some? && a.manifest.value.digest == b.manifest.value.digest
  }

  /** `publish_package`: a served id is immutable, so an existing directory is only compared. */
  function PublishStep(w: World, id: PackageId, s: SlotName): Step<()> {
    var src := w.Slot(s);
    if id !in w.served then Step(w.(tmp := w.tmp - {id}, served := w.served[id := src]), Success(()))
    else if w.served[id].manifest == None || src.manifest == None then Step(w, Failure(Unreadable))
    else Step(w, if SamePayload(src, w.served[id]) then Success(()) else Failure(DifferentContent(id)))
  }

  function MarkStep(w: World, id: PackageId): Step<()> {
    if Cataloged(w.catalog, id) then Step(w.(catalog := MarkRows(w.catalog, id)), Success(()))
    else Step(w, Failure(Uncataloged(id)))
  }

  /** The identity columns that a re-insert of a cataloged id is compared on. */
  predicate SameIdentity(a: Row, b: Row) {
    && a.sequence == b.sequence && a.kind == b.kind && a.baselineId == b.baselineId
    && a.generation == b.generation && a.low == b.low && a.high == b.high
    && a.digest == b.digest && a.manifestDigest == b.manifestDigest
    && a.stamps.schemaVersion == b.stamps.schemaVersion && a.stamps.fingerprint == b.stamps.fingerprint
  }

  /** Rows seeded from manifests agree on these columns exactly if they are the same row, published or not. */
  lemma IdentityIsAll(a: Row, b: Row)
    requires a == RowFor(a.manifestDigest, a.low, a.high, a.status) && b == RowFor(b.manifestDigest, b.low, b.high, b.status)
    ensures SameIdentity(a, b) <==> a == b.(status := a.status)
  {
  }

  /** `src` is the complete artifact of the row cataloged under `id`. */
  ghost predicate StagedRow(w: World, id: PackageId, src: Dir) {
    exists i: nat :: i < |w.catalog| && w.catalog[i].id == id && src == Whole(w.catalog[i].manifestDigest)
  }

  /** Some write of the run deletes the row of a package that is already served. */
  ghost predicate Abandons(w: World, run: seq<Action>) {
    && run != []
    && (Abandons(w, run[..|run| - 1]) || DiscardsServed(After(w, run[..|run| - 1]), run[|run| - 1]))
  }

  /** As long as no write does, every served directory is the artifact of its catalog row. */
  lemma {:induction false} NothingIsAbandoned(w: World, run: seq<Action>)
    requires Inv(w) && NothingAbandoned(w) && Legal(w, run) && !Abandons(w, run)
    ensures NothingAbandoned(After(w, run))
  {
    if run != [] {
      var n := |run| - 1;
      NothingIsAbandoned(w, run[..n]);
      EveryCrashPoint(w, run, n);
      OnlyDiscardAbandons(After(w, run[..n]), run[n]);
    }
  }

  lemma Advance(origin: World, writes: seq<Action>, a: Action)
    requires Legal(origin, writes) && Enabled(After(origin, writes), a)
    ensures Legal(origin, writes + [a])
    ensures After(origin, writes + [a]) == Apply(After(origin, writes), a)
    ensures Abandons(origin, writes + [a]) <==> Abandons(origin, writes) || DiscardsServed(After(origin, writes), a)
  {
  }

  lemma MissingFile(a: Payload, b: Payload)
    requires Submap(a, b)
    ensures a == b || exists name :: name in b && name !in a
  {
  }

  /** A copy of `src` gains its manifest or one more file. */
  method NextPart(copy: Dir, src: Dir) returns (next: Dir)
    requires LeftOf(copy, src) && copy != src
    ensures LeftOf(next, src)
    ensures (copy.manifest != src.manifest == next.manifest && next.files == copy.files) ||
      (next.manifest == copy.manifest && src.files.Keys - next.files.Keys < src.files.Keys - copy.files.Keys)
  {
    if {
      case copy.manifest != src.manifest => next := copy.(manifest := src.manifest);
      case copy.files != src.files =>
        MissingFile(copy.files, src.files);
        var name :| name in src.files && name !in copy.files;
        next := copy.(files := copy.files[name := src.files[name]]);
        assert name in src.files.Keys - copy.files.Keys && name !in src.files.Keys - next.files.Keys;
    }
  }

  /** Taking entries out of a directory that no unpublished row needs is always allowed. */
  lemma RemoveIsAllowed(w: World, s: SlotName, left: Dir)
    requires !Needed(w, w.Slot(s)) && LeftOf(left, w.Slot(s))
    ensures Enabled(w, Remove(s, left))
    ensures !Needed(Apply(w, Remove(s, left)), left)
  {
  }

  lemma RenameIsAllowed(w: World, id: PackageId, src: Dir)
    requires StagedRow(w, id, src) && id !in w.served && id in w.tmp && w.tmp[id] == src
    ensures Enabled(w, Rename(id))
  {
  }

  class Producer {
    var top: nat
    var changes: set<nat>
    var catalog: seq<Row>
    var pending: Dir
    var bootstrap: Dir
    var tmp: map<PackageId, Dir>
    var served: map<PackageId, Dir>
    var remote: Option<Remote>

    /** every write so far, from `origin` on */
    ghost var writes: seq<Action>
    /** some write has deleted the row of a package that was already served */
    ghost var abandoned: bool
    ghost const origin: World

    function State(): World
      reads this
    {
      World(top, changes, catalog, pending, bootstrap, tmp, served, remote)
    }

    ghost predicate Valid()
      reads this
    {
      && Initial(origin)
      && Legal(origin, writes)
      && State() == After(origin, writes)
      && abandoned == Abandons(origin, writes)
    }

    constructor ()
      ensures Valid() && Initial(State()) && writes == [] && !abandoned
    {
      top, changes, catalog, pending, bootstrap := 0, {}, [], EMPTY_DIR, EMPTY_DIR;
      tmp, served, remote := map[], map[], None;
      writes, abandoned := [], false;
      origin := World(0, {}, [], EMPTY_DIR, EMPTY_DIR, map[], map[], None);
    }

    /** A valid state is reachable, so everything proved of runs holds of it. */
    lemma Sound()
      requires Valid()
      ensures Reachable(State()) && Inv(State())
      ensures !abandoned ==> NothingAbandoned(State())
    {
      ReachableKeepsInv(State());
      if !abandoned {
        NothingIsAbandoned(origin, writes);
      }
    }

    /** One write has happened; it keeps `Valid()` if it observes the discipline. */
    twostate predicate Wrote(a: Action)
      reads this
    {
      && State() == Apply(old(State()), a)
      && writes == old(writes) + [a]
      && abandoned == (old(abandoned) || DiscardsServed(old(State()), a))
      && (old(Valid()) && Enabled(old(State()), a) ==> Valid())
    }

    method Write(ghost a: Action, w: World)
      requires w == Apply(State(), a)
      modifies this
      ensures Wrote(a)
    {
      ghost var before := State();
      if Valid() && Enabled(before, a) {
        Advance(origin, writes, a);
      }
      abandoned := abandoned || DiscardsServed(before, a);
      top, changes, catalog, pending, bootstrap := w.top, w.changes, w.catalog, w.pending, w.bootstrap;
      tmp, served, remote := w.tmp, w.served, w.remote;
      writes := writes + [a];
    }

    /** `mark_package_published`: it must hit the one row with the id. */
    method MarkPublished(id: PackageId) returns (r: Result<(), CycleError>)
      modifies this
      ensures State() == MarkStep(old(State()), id).world && r == MarkStep(old(State()), id).result
      ensures KeepsRows(old(writes), writes) && abandoned == old(abandoned)
      ensures old(Valid()) && (r.Success? ==> Enabled(old(State()), Mark(id))) ==> Valid()
    {
      if !exists i | 0 <= i < |catalog| :: catalog[i].id == id {
        return Failure(Uncataloged(id));
      }
      Write(Mark(id), State().(catalog := MarkRows(catalog, id)));
      r := Success(());
    }

    /** `insert_package_catalog_row`: a conflicting id is accepted only when the identity columns agree. */
    method InsertRow(row: Row) returns (r: Result<(), CycleError>)
      modifies this
      ensures if old(Cataloged(catalog, row.id)) then
          && State() == old(State()) && writes == old(writes) && abandoned == old(abandoned) && old(Valid()) == Valid()
          && (r.Success? <==> exists i | 0 <= i < |catalog| :: catalog[i].id == row.id && SameIdentity(catalog[i], row))
        else r.Success? && Wrote(Insert(row))
    {
      if exists i | 0 <= i < |catalog| :: catalog[i].id == row.id {
        if exists i | 0 <= i < |catalog| :: catalog[i].id == row.id && SameIdentity(catalog[i], row) {
          return Success(());
        }
        return Failure(Conflict(row.id));
      }
      Write(Insert(row), State().(catalog := catalog + [row]));
      r := Success(());
    }

    /** `delete_unpublished_package_row`: nothing is written when no unpublished row has the id. */
    method DeleteUnpublishedRow(id: PackageId)
      modifies this
      ensures State() == old(State()).(catalog := DeleteUnpublished(old(catalog), id))
      ensures old(writes) <= writes
      ensures abandoned == (old(abandoned) || (DiscardsServed(old(State()), Discard(id)) && State() != old(State())))
      ensures old(Valid()) && (State() != old(State()) ==> Enabled(old(State()), Discard(id))) ==> Valid()
    {
      var kept := DeleteUnpublished(catalog, id);
      if kept != catalog {
        Write(Discard(id), State().(catalog := kept));
      }
    }

    /** The state is valid and no unpublished row needs what is in the slot. */
    ghost predicate Clearable(s: SlotName)
      reads this
    {
      Valid() && !Needed(State(), State().Slot(s))
    }

    method RemoveEntry(s: SlotName, left: Dir)
      requires LeftOf(left, State().Slot(s))
      modifies this
      ensures State() == old(State()).WithSlot(s, left)
      ensures KeepsRows(old(writes), writes) && abandoned == old(abandoned)
      ensures old(Clearable(s)) ==> Clearable(s)
    {
      if Clearable(s) {
        RemoveIsAllowed(State(), s, left);
      }
      Write(Remove(s, left), State().WithSlot(s, left));
    }

    /** `clean_dir`: entries go one by one, in whatever order the file system lists them. */
    method CleanDir(s: SlotName)
      modifies this
      ensures State() == old(State()).WithSlot(s, EMPTY_DIR)
      ensures KeepsRows(old(writes), writes) && abandoned == old(abandoned)
      ensures old(Clearable(s)) ==> Clearable(s)
    {
      ghost var w := State();
      var d := State().Slot(s);
      while d != EMPTY_DIR
        invariant State() == w.WithSlot(s, d)
        invariant KeepsRows(old(writes), writes) && abandoned == old(abandoned)
        invariant old(Clearable(s)) ==> Clearable(s)
        decreases d.manifest.Some?, d.files.Keys
      {
        var left := d;
        if {
          case d.manifest.Some? => left := d.(manifest := None);
          case d.files != map[] =>
            var name :| name in d.files;
            left := d.(files := d.files - {name});
            assert left.files.Keys == d.files.Keys - {name};
        }
        RemoveEntry(s, left);
        d := left;
      }
    }

    method CopyPart(id: PackageId, copy: Dir)
      modifies this
      ensures State() == old(State()).(tmp := old(tmp)[id := copy])
      ensures KeepsRows(old(writes), writes) && abandoned == old(abandoned)
      ensures old(Valid()) ==> Valid()
    {
      Write(Copy(id, copy), State().(tmp := tmp[id := copy]));
    }

    /** `copy_dir_recursive` into `packages/<id>.tmp`, entry by entry in any order. */
    method CopyAside(id: PackageId, src: Dir)
      modifies this
      ensures State() == old(State()).(tmp := old(tmp)[id := src])
      ensures KeepsRows(old(writes), writes) && abandoned == old(abandoned)
      ensures old(Valid()) ==> Valid()
    {
      ghost var w := State();
      var copy := EMPTY_DIR;
      CopyPart(id, copy);
      while copy != src
        invariant State() == w.(tmp := w.tmp[id := copy])
        invariant LeftOf(copy, src)
        invariant KeepsRows(old(writes), writes) && abandoned == old(abandoned)
        invariant old(Valid()) ==> Valid()
        decreases copy.manifest != src.manifest, src.files.Keys - copy.files.Keys
      {
        copy := NextPart(copy, src);
        CopyPart(id, copy);
      }
    }

    /** `publish_package`: copy aside, then rename into place. */
    method PublishPackage(id: PackageId, s: SlotName) returns (r: Result<(), CycleError>)
      modifies this
      ensures State() == PublishStep(old(State()), id, s).world && r == PublishStep(old(State()), id, s).result
      ensures KeepsRows(old(writes), writes) && abandoned == old(abandoned)
      ensures old(Valid()) && (id in old(served) || StagedRow(old(State()), id, old(State()).Slot(s))) ==> Valid()
    {
      var src := State().Slot(s);
      if id in served {
        if served[id].manifest == None || src.manifest == None {
          return Failure(Unreadable);
        }
        return if SamePayload(src, served[id]) then Success(()) else Failure(DifferentContent(id));
      }
      ghost var w := State();
      CopyAside(id, src);
      if StagedRow(w, id, src) {
        assert StagedRow(State(), id, src);
        RenameIsAllowed(State(), id, src);
      }
      Write(Rename(id), State().(served := served[id := src], tmp := tmp - {id}));
      assert State().tmp == w.tmp - {id};
      r := Success(());
    }

    /** One payload file, possibly torn while it is being written. */
    method WriteFile(s: SlotName, files: Payload, name: string, content: int)
      requires State().Slot(s).manifest == None
      modifies this
      ensures State() == old(State()).WithSlot(s, Dir(None, files[name := content]))
      ensures KeepsRows(old(writes), writes) && abandoned == old(abandoned)
      ensures old(Valid()) ==> Valid()
    {
      var torn: int := *;
      Write(Fill(s, files[name := torn]), State().WithSlot(s, Dir(None, files[name := torn])));
      Write(Fill(s, files[name := content]), State().WithSlot(s, Dir(None, files[name := content])));
    }

    /** A builder writing an artifact into an empty slot: the payload files one by one, and the embedded
        manifest last. */
    method StageArtifact(s: SlotName, m: Manifest)
      requires State().Slot(s) == EMPTY_DIR
      modifies this
      ensures State() == old(State()).WithSlot(s, Whole(m))
      ensures KeepsRows(old(writes), writes) && abandoned == old(abandoned)
      ensures old(Valid()) && Enabled(old(State()).WithSlot(s, Dir(None, m.digest)), Stage(s, m)) ==> Valid()
    {
      ghost var w := State();
      var files: Payload := map[];
      while files != m.digest
        invariant State() == w.WithSlot(s, Dir(None, files))
        invariant Submap(files, m.digest)
        invariant KeepsRows(old(writes), writes) && abandoned == old(abandoned)
        invariant old(Valid()) ==> Valid()
        decreases m.digest.Keys - files.Keys
      {
        MissingFile(files, m.digest);
        var name :| name in m.digest && name !in files;
        WriteFile(s, files, name, m.digest[name]);
        assert name in m.digest.Keys - files.Keys;
        files := files[name := m.digest[name]];
      }
      Write(Stage(s, m), State().WithSlot(s, Whole(m)));
    }

    /** Publishing the remote manifest built from the catalog and the served artifacts; the temporary file
        it is written to first is never read. */
    method RefreshRemote(retain: nat) returns (r: Result<(), CycleError>)
      modifies this
      ensures State() == RemoteStep(old(State()), retain).world && r == RemoteStep(old(State()), retain).result
      ensures KeepsRows(old(writes), writes) && abandoned == old(abandoned)
      ensures old(Valid()) ==> Valid()
    {
      var built := BuildInner(catalog, served, retain);
      if built.Failure? {
        return Failure(RemoteFailed(built.error));
      }
      Write(Announce(built.value), State().(remote := Some(built.value)));
      r := Success(());
    }
  }

  function RemoteStep(w: World, retain: nat): Step<()> {
    match RemoteFor(w.catalog, w.served, retain)
    case Failure(error) => Step(w, Failure(RemoteFailed(error)))
    case Success(remote) => Step(w.(remote := Some(remote)), Success(()))
  }
}
