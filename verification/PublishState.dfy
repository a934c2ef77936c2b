/** The durable state behind publishing one corpus, the atomic writes that change it, and what every
    one of them keeps.  A run of a cycle is a sequence of these writes; a crash cuts the sequence at any
    point, and the next run starts from whatever state is then on disk. */
module PublishState {
  import opened Wrappers
  import opened Packages
  import opened RemoteManifest

  /** The two staging slots: `.staging/pending` and `.staging/bootstrap-baseline`. */
  datatype SlotName = Pending | Bootstrap

  datatype World = World(
    /** highest change number of the outbox, over all corpora */
    top: nat,
    /** change numbers that belong to this corpus */
    changes: set<nat>,
    /** catalog rows in sequence order */
    catalog: seq<Row>,
    pending: Dir,
    bootstrap: Dir,
    /** `packages/<id>.tmp` */
    tmp: map<PackageId, Dir>,
    /** `packages/<id>` */
    served: map<PackageId, Dir>,
    /** `manifest.json` */
    remote: Option<Remote>)
  {
    function Slot(s: SlotName): Dir {
      match s case Pending => pending case Bootstrap => bootstrap
    }

    function WithSlot(s: SlotName, d: Dir): World {
      match s case Pending => this.(pending := d) case Bootstrap => this.(bootstrap := d)
    }
  }

  datatype Action =
    | Ingest(arrived: set<nat>, newTop: nat)     // an ingest transaction becomes visible
    | Fill(slot: SlotName, files: Payload)     // payload files being written into a slot
    | Stage(slot: SlotName, manifest: Manifest)
    | Insert(row: Row)                         // catalog insert
    | Copy(id: PackageId, dir: Dir)            // the copy into `.tmp`, complete or not
    | Rename(id: PackageId)                    // `.tmp` becomes `packages/<id>`
    | Mark(id: PackageId)                      // the row becomes published
    | Remove(slot: SlotName, left: Dir)        // some of a slot's entries are removed
    | Discard(id: PackageId)                   // an unpublished row is deleted
    | Announce(remote: Remote)                 // `manifest.json` is renamed into place

  function MarkRows(c: seq<Row>, id: PackageId): (r: seq<Row>)
    ensures |r| == |c|
    ensures forall i | 0 <= i < |c| :: r[i] == if c[i].id == id then c[i].(status := Published) else c[i]
  {
    if c == [] then []
    else
      var row := c[|c| - 1];
      MarkRows(c[..|c| - 1], id) + [if row.id == id then row.(status := Published) else row]
  }

  /** `delete_unpublished_package_row`: only a row that is still `built` goes. */
  function DeleteUnpublished(c: seq<Row>, id: PackageId): seq<Row> {
    if c == [] then []
    else
      var row := c[|c| - 1];
      DeleteUnpublished(c[..|c| - 1], id) + if row.id == id && row.status == Built then [] else [row]
  }

  predicate Cataloged(c: seq<Row>, id: PackageId) {
    exists i | 0 <= i < |c| :: c[i].id == id
  }

  /** The state after one write. */
  function Apply(w: World, a: Action): World {
    match a
    case Ingest(arrived, newTop) => w.(changes := w.changes + arrived, top := newTop)
    case Fill(slot, files) => w.WithSlot(slot, Dir(None, files))
    case Stage(slot, m) => w.WithSlot(slot, Dir(Some(m), w.Slot(slot).files))
    case Insert(row) => w.(catalog := w.catalog + [row])
    case Copy(id, dir) => w.(tmp := w.tmp[id := dir])
    case Rename(id) => w.(served := if id in w.tmp then w.served[id := w.tmp[id]] else w.served, tmp := w.tmp - {id})
    case Mark(id) => w.(catalog := MarkRows(w.catalog, id))
    case Remove(slot, left) => w.WithSlot(slot, left)
    case Discard(id) => w.(catalog := DeleteUnpublished(w.catalog, id))
    case Announce(remote) => w.(remote := Some(remote))
  }

  /** The slot that a package of this kind is built in. */
  function SlotOf(kind: PackageKind): SlotName {
    if kind == Baseline then Bootstrap else Pending
  }

  predicate HasChange(changes: set<nat>, low: nat, high: nat) {
    exists c | c in changes :: low < c <= high
  }

  /** The discipline each write has to observe; the cycles are proved to observe it at every write. */
  ghost predicate Enabled(w: World, a: Action) {
    var n := |w.catalog|;
    match a
    case Ingest(arrived, newTop) => w.top <= newTop && forall c | c in arrived :: w.top < c <= newTop
    case Fill(slot, files) => w.Slot(slot).manifest == None
    case Stage(slot, m) =>
      && w.Slot(slot) == Dir(None, m.digest)
      && m.id == IdAt(n)
      && slot == SlotOf(m.kind)
      && (m.kind == Baseline <==> n == 0)
    case Insert(row) =>
      && row.status == Built
      && w.Slot(SlotOf(row.kind)) == Whole(row.manifestDigest)
      && LinkAt(w.catalog + [row], n)
      && row.high <= w.top
      && (row.kind == Incremental ==> HasChange(w.changes, row.low, row.high))
      && (n > 1 ==> w.catalog[n - 1].status == Published)
    case Copy(id, dir) => true
    case Rename(id) =>
      && id !in w.served && id in w.tmp
      && exists i: nat :: i < n && w.catalog[i].id == id && w.tmp[id] == Whole(w.catalog[i].manifestDigest)
    case Mark(id) =>
      exists i: nat :: i < n && w.catalog[i].id == id && ServesPayload(w.served, w.catalog[i])
    case Remove(slot, left) => LeftOf(left, w.Slot(slot)) && !Needed(w, w.Slot(slot))
    case Discard(id) =>
      n > 1 && w.catalog[n - 1].id == id && w.catalog[n - 1].kind == Rebaseline
    case Announce(remote) => exists retain: nat :: RemoteFor(w.catalog, w.served, retain) == Success(remote)
  }

  /** `d` holds the artifact of a row that is not published yet. */
  ghost predicate Needed(w: World, d: Dir) {
    exists i: nat :: i < |w.catalog| && w.catalog[i].status == Built && d.manifest == Some(w.catalog[i].manifestDigest)
  }

  // --- The invariant --------------------------------------------------------------------------

  ghost predicate WindowsSeen(top: nat, changes: set<nat>, c: seq<Row>) {
    && (forall x | x in changes :: x <= top)
    && forall i: nat | i < |c| ::
         c[i].high <= top && (c[i].kind == Incremental ==> HasChange(changes, c[i].low, c[i].high))
  }

  /** Only the first and the last row can be unpublished, and either then has its complete artifact in its
      own slot. */
  ghost predicate UnpublishedAreStaged(c: seq<Row>, pending: Dir, bootstrap: Dir) {
    var n := |c|;
    && (forall i: nat | 0 < i < n - 1 :: c[i].status == Published)
    && (n > 1 && c[n - 1].status == Built ==> pending == Whole(c[n - 1].manifestDigest))
    && (n > 0 && c[0].status == Built ==> bootstrap == Whole(c[0].manifestDigest))
  }

  /** A staged manifest is the newest row's, or that of the package that would come next. */
  ghost predicate SlotsCurrent(c: seq<Row>, pending: Dir, bootstrap: Dir) {
    var n := |c|;
    && (pending.manifest.Some? ==>
          var m := pending.manifest.value;
          n > 0 && m.kind != Baseline && Submap(pending.files, m.digest) &&
          (m.id == IdAt(n) || (n > 1 && m == c[n - 1].manifestDigest)))
    && (bootstrap.manifest.Some? ==>
          var m := bootstrap.manifest.value;
          m.kind == Baseline && Submap(bootstrap.files, m.digest) &&
          if n == 0 then m.id == IdAt(0) else m == c[0].manifestDigest)
  }

  /** Served directories are complete, belong to a cataloged id or to the next one, and a published row has
      one with its payload. */
  ghost predicate ServedSound(c: seq<Row>, served: map<PackageId, Dir>) {
    var n := |c|;
    && (forall id | id in served :: ServedAt(served[id], id, n))
    && (forall i: nat | i < n && c[i].status == Published :: ServesPayload(served, c[i]))
    && (IdAt(0) in served ==> served[IdAt(0)].manifest == Some(c[0].manifestDigest))
    && (n > 1 && c[n - 1].status == Built ==> IdAt(n) !in served)
  }

  predicate ServedAt(d: Dir, id: PackageId, n: nat) {
    && d.manifest.Some?
    && d == Whole(d.manifest.value)
    && d.manifest.value.id == id
    && n > 0 && (id == IdAt(0) || (1 <= id.from <= n && id == IdAt(id.from)))
  }

  predicate ServesPayload(served: map<PackageId, Dir>, row: Row) {
    row.id in served && served[row.id].manifest.Some? && served[row.id].manifest.value.digest == row.digest
  }

  ghost predicate RemoteSound(remote: Option<Remote>, served: map<PackageId, Dir>) {
    remote.Some? ==> Coherent(remote.value, served) && WellShaped(remote.value)
  }

  ghost predicate Inv(w: World) {
    && Chain(w.catalog)
    && WindowsSeen(w.top, w.changes, w.catalog)
    && UnpublishedAreStaged(w.catalog, w.pending, w.bootstrap)
    && SlotsCurrent(w.catalog, w.pending, w.bootstrap)
    && ServedSound(w.catalog, w.served)
    && RemoteSound(w.remote, w.served)
  }

  predicate Initial(w: World) {
    && w.catalog == [] && w.pending == EMPTY_DIR && w.bootstrap == EMPTY_DIR
    && w.tmp == map[] && w.served == map[] && w.remote == None && w.changes == {}
  }

  lemma IdsDiffer(c: seq<Row>, i: nat, j: nat)
    requires Chain(c) && i < |c| && j < |c| && c[i].id == c[j].id
    ensures i == j
  {
    assert LinkAt(c, i) && LinkAt(c, j);
  }

  lemma PrefixIsChain(c: seq<Row>, n: nat)
    requires Chain(c) && n <= |c|
    ensures Chain(c[..n])
  {
    forall i: nat | i < n ensures LinkAt(c[..n], i) {
      assert LinkAt(c, i);
    }
  }

  lemma AppendIsChain(c: seq<Row>, row: Row)
    requires Chain(c) && LinkAt(c + [row], |c|)
    ensures Chain(c + [row])
  {
    forall i: nat | i <= |c| ensures LinkAt(c + [row], i) {
      if i < |c| {
        assert LinkAt(c, i);
      }
    }
  }

  lemma MarkKeepsChain(c: seq<Row>, id: PackageId)
    requires Chain(c)
    ensures Chain(MarkRows(c, id))
  {
    var d := MarkRows(c, id);
    forall i: nat | i < |c| ensures LinkAt(d, i) {
      assert LinkAt(c, i);
    }
  }

  /** On a chain at most one row has the id, so deleting it by id drops the last row or nothing. */
  lemma {:induction false} DeleteDropsLast(c: seq<Row>, id: PackageId)
    requires Chain(c)
    requires forall i: nat | i < |c| - 1 :: c[i].id != id
    ensures DeleteUnpublished(c, id) == if |c| > 0 && c[|c| - 1].id == id && c[|c| - 1].status == Built then c[..|c| - 1] else c
  {
    if c != [] {
      DeleteNothing(c[..|c| - 1], id);
    }
  }

  lemma {:induction false} DeleteNothing(c: seq<Row>, id: PackageId)
    requires forall i: nat | i < |c| :: c[i].id != id || c[i].status == Published
    ensures DeleteUnpublished(c, id) == c
  {
    if c != [] {
      DeleteNothing(c[..|c| - 1], id);
    }
  }

  // --- Each write keeps it --------------------------------------------------------------------

  lemma InsertCatalog(c: seq<Row>, row: Row, top: nat, changes: set<nat>, served: map<PackageId, Dir>)
    requires Chain(c) && WindowsSeen(top, changes, c) && ServedSound(c, served)
    requires LinkAt(c + [row], |c|) && row.high <= top && row.status == Built
    requires row.kind == Incremental ==> HasChange(changes, row.low, row.high)
    ensures Chain(c + [row]) && WindowsSeen(top, changes, c + [row]) && ServedSound(c + [row], served)
  {
    AppendIsChain(c, row);
    forall id | id in served ensures ServedAt(served[id], id, |c| + 1) && id != IdAt(|c| + 1) {
      assert ServedAt(served[id], id, |c|);
    }
  }

  lemma InsertKeeps(w: World, row: Row)
    requires Inv(w) && Enabled(w, Insert(row))
    ensures Inv(Apply(w, Insert(row)))
  {
    var n := |w.catalog|;
    InsertCatalog(w.catalog, row, w.top, w.changes, w.served);
    assert (w.catalog + [row])[n] == row;
    assert row.id == IdAt(n);
  }

  lemma StageKeeps(w: World, slot: SlotName, m: Manifest)
    requires Inv(w) && Enabled(w, Stage(slot, m))
    ensures Inv(Apply(w, Stage(slot, m)))
  {
  }

  lemma RenameServes(c: seq<Row>, served: map<PackageId, Dir>, i: nat)
    requires Chain(c) && ServedSound(c, served) && i < |c| && c[i].id !in served
    ensures ServedSound(c, served[c[i].id := Whole(c[i].manifestDigest)])
  {
    assert LinkAt(c, i);
    var id := c[i].id;
    var d := Whole(c[i].manifestDigest);
    assert ServedAt(d, id, |c|) by {
      assert i > 0 ==> id.from == i;
    }
    assert ServesPayload(served[id := d], c[i]);
    forall j: nat | j < |c| && c[j].status == Published ensures ServesPayload(served[id := d], c[j]) {
      if c[j].id == id {
        IdsDiffer(c, i, j);
      }
    }
  }

  lemma RenameKeeps(w: World, id: PackageId)
    requires Inv(w) && Enabled(w, Rename(id))
    ensures Inv(Apply(w, Rename(id)))
  {
    var i: nat :| i < |w.catalog| && w.catalog[i].id == id && w.tmp[id] == Whole(w.catalog[i].manifestDigest);
    RenameServes(w.catalog, w.served, i);
  }

  lemma MarkCatalog(c: seq<Row>, id: PackageId, top: nat, changes: set<nat>, served: map<PackageId, Dir>)
    requires Chain(c) && WindowsSeen(top, changes, c) && ServedSound(c, served)
    requires exists i: nat :: i < |c| && c[i].id == id && ServesPayload(served, c[i])
    ensures Chain(MarkRows(c, id)) && WindowsSeen(top, changes, MarkRows(c, id)) && ServedSound(MarkRows(c, id), served)
  {
    MarkKeepsChain(c, id);
    var i: nat :| i < |c| && c[i].id == id && ServesPayload(served, c[i]);
    forall j: nat | j < |c| && MarkRows(c, id)[j].status == Published ensures ServesPayload(served, MarkRows(c, id)[j]) {
      if c[j].id == id {
        IdsDiffer(c, i, j);
      } else {
        assert ServesPayload(served, c[j]);
      }
    }
  }

  lemma MarkKeeps(w: World, id: PackageId)
    requires Inv(w) && Enabled(w, Mark(id))
    ensures Inv(Apply(w, Mark(id)))
  {
    MarkCatalog(w.catalog, id, w.top, w.changes, w.served);
  }

  lemma RemoveKeeps(w: World, slot: SlotName, left: Dir)
    requires Inv(w) && Enabled(w, Remove(slot, left))
    ensures Inv(Apply(w, Remove(slot, left)))
  {
  }

  lemma DiscardCatalog(c: seq<Row>, id: PackageId)
    requires Chain(c) && |c| > 1 && c[|c| - 1].id == id
    ensures DeleteUnpublished(c, id) == if c[|c| - 1].status == Built then c[..|c| - 1] else c
  {
    forall i: nat | i < |c| - 1 ensures c[i].id != id {
      if c[i].id == id {
        IdsDiffer(c, i, |c| - 1);
      }
    }
    DeleteDropsLast(c, id);
  }

  lemma DiscardKeeps(w: World, id: PackageId)
    requires Inv(w) && Enabled(w, Discard(id))
    ensures Inv(Apply(w, Discard(id)))
  {
    var n := |w.catalog|;
    DiscardCatalog(w.catalog, id);
    if w.catalog[n - 1].status == Built {
      PrefixIsChain(w.catalog, n - 1);
      assert LinkAt(w.catalog, n - 1);
    }
  }

  lemma AnnounceKeeps(w: World, remote: Remote)
    requires Inv(w) && Enabled(w, Announce(remote))
    ensures Inv(Apply(w, Announce(remote)))
  {
    var retain: nat :| RemoteFor(w.catalog, w.served, retain) == Success(remote);
    BuiltIsSound(w.catalog, w.served, retain);
  }

  lemma IngestKeeps(w: World, arrived: set<nat>, newTop: nat)
    requires Inv(w) && Enabled(w, Ingest(arrived, newTop))
    ensures Inv(Apply(w, Ingest(arrived, newTop)))
  {
  }

  lemma FillKeeps(w: World, slot: SlotName, files: Payload)
    requires Inv(w) && Enabled(w, Fill(slot, files))
    ensures Inv(Apply(w, Fill(slot, files)))
  {
  }

  /** Every write that observes the discipline keeps the invariant. */
  lemma StepKeepsInv(w: World, a: Action)
    requires Inv(w) && Enabled(w, a)
    ensures Inv(Apply(w, a))
  {
    match a {
      case Ingest(arrived, newTop) => IngestKeeps(w, arrived, newTop);
      case Fill(slot, files) => FillKeeps(w, slot, files);
      case Stage(slot, m) => StageKeeps(w, slot, m);
      case Insert(row) => InsertKeeps(w, row);
      case Copy(id, dir) =>
      case Rename(id) => RenameKeeps(w, id);
      case Mark(id) => MarkKeeps(w, id);
      case Remove(slot, left) => RemoveKeeps(w, slot, left);
      case Discard(id) => DiscardKeeps(w, id);
      case Announce(remote) => AnnounceKeeps(w, remote);
    }
  }
}
