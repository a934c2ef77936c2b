/** The remote manifest that clients poll: how it is built from the catalog and the served artifacts,
    and what the catch-up planner makes of it. */
module RemoteManifest {
  import opened Wrappers
  import opened Packages

  datatype Entry = Entry(id: PackageId, from: nat, to: nat, digest: Payload, signature: Manifest)

  datatype BaselineRef = BaselineRef(
    id: PackageId, kind: PackageKind, baselineId: string, generation: nat, sequence: nat,
    digest: Payload, signature: Manifest)

  /** Clients positioned in `from..=to` must load the baseline. */
  datatype BaselineRange = BaselineRange(from: nat, to: nat, baselineId: string)

  datatype Remote = Remote(
    head: nat, minAvailable: nat, active: BaselineRef, packages: seq<Entry>, ranges: seq<BaselineRange>)

  datatype RemoteError = NoMediaRoot | Missing(id: PackageId) | Mismatch(id: PackageId) | Gap

  /** `verify_catalog_identity`: the served embedded manifest is the one the row was seeded from. */
  predicate Identifies(row: Row, m: Manifest, expectIncremental: bool) {
    && row.digest == m.digest
    && row.manifestDigest == m
    && m.id == row.id
    && m.kind == row.kind
    && m.baselineId == row.baselineId
    && m.generation == row.generation
    && m.id.to == row.sequence
    && (expectIncremental ==> m.kind == Incremental && m.id.to == m.id.from + 1)
  }

  /** The index of the newest media root, or `|c|` when there is none. */
  function LastMedia(c: seq<Row>): (k: nat)
    ensures k <= |c|
    ensures k < |c| ==> c[k].Media()
    ensures forall i | 0 <= i < |c| && c[i].Media() :: i <= k < |c|
  {
    if c == [] then 0
    else if c[|c| - 1].Media() then |c| - 1
    else
      var k := LastMedia(c[..|c| - 1]);
      if k == |c| - 1 then |c| else k
  }

  /** The incrementals after a media root, in catalog order. */
  function Followers(c: seq<Row>, mediaSequence: nat): seq<Row> {
    if c == [] then []
    else
      var rest := Followers(c[..|c| - 1], mediaSequence);
      var r := c[|c| - 1];
      if r.kind == Incremental && r.sequence > mediaSequence then rest + [r] else rest
  }

  function Newest<T>(s: seq<T>, limit: nat): seq<T> {
    if |s| > limit then s[|s| - limit..] else s
  }

  function ReadManifest(served: map<PackageId, Dir>, id: PackageId): Option<Manifest> {
    if id in served then served[id].manifest else None
  }

  function EntryFor(m: Manifest): Entry {
    Entry(m.id, m.id.from, m.id.to, m.digest, m)
  }

  function ReadEntries(rows: seq<Row>, served: map<PackageId, Dir>): Result<seq<Entry>, RemoteError> {
    if rows == [] then Success([])
    else
      var rest := ReadEntries(rows[..|rows| - 1], served);
      var row := rows[|rows| - 1];
      if rest.Failure? then rest
      else match ReadManifest(served, row.id)
        case None => Failure(Missing(row.id))
        case Some(m) =>
          if !Identifies(row, m, true) then Failure(Mismatch(row.id))
          else Success(rest.value + [EntryFor(m)])
  }

  predicate GapFree(packages: seq<Entry>) {
    forall i | 0 <= i < |packages| - 1 :: packages[i].to == packages[i + 1].from
  }

  function Assemble(media: Manifest, id: PackageId, packages: seq<Entry>): Remote {
    var active := BaselineRef(id, media.kind, media.baselineId, media.generation, media.id.to, media.digest, media);
    var head := if packages == [] then active.sequence else packages[|packages| - 1].to;
    var min := if packages == [] then active.sequence else packages[0].from;
    var ranges := if min > 1 then [BaselineRange(0, min - 1, active.baselineId)] else [];
    Remote(head, min, active, packages, ranges)
  }

  /** The remote manifest for a catalog in sequence order, or why none can be built. */
  function RemoteFor(c: seq<Row>, served: map<PackageId, Dir>, retain: nat): Result<Remote, RemoteError> {
    var k := LastMedia(c);
    if k == |c| then Failure(NoMediaRoot)
    else match ReadManifest(served, c[k].id)
      case None => Failure(Missing(c[k].id))
      case Some(media) =>
        if !Identifies(c[k], media, false) then Failure(Mismatch(c[k].id))
        else
          var entries := ReadEntries(Newest(Followers(c, c[k].sequence), retain), served);
          if entries.Failure? then Failure(entries.error)
          else if !GapFree(entries.value) then Failure(Gap)
          else Success(Assemble(media, c[k].id, entries.value))
  }

  /** `build_inner`: scan back for the media root, collect and trim the incrementals after it, read and
      check each, then refuse a chain with a hole. */
  method BuildInner(rows: seq<Row>, served: map<PackageId, Dir>, retain: nat)
    returns (result: Result<Remote, RemoteError>)
    ensures result == RemoteFor(rows, served, retain)
  {
    var k := |rows|;
    while k > 0 && !rows[k - 1].Media()
      invariant 0 <= k <= |rows|
      invariant forall i | k <= i < |rows| :: !rows[i].Media()
    {
      k := k - 1;
    }
    if k == 0 {
      return Failure(NoMediaRoot);
    }
    var media := rows[k - 1];
    var embedded := ReadManifest(served, media.id);
    if embedded == None {
      return Failure(Missing(media.id));
    }
    if !Identifies(media, embedded.value, false) {
      return Failure(Mismatch(media.id));
    }
    var incrementals := Retain(rows, media.sequence, retain);
    var entries := ReadAll(incrementals, served);
    if entries.Failure? {
      return Failure(entries.error);
    }
    var coherent := EnsureGapFree(entries.value);
    if !coherent {
      return Failure(Gap);
    }
    return Success(Assemble(embedded.value, media.id, entries.value));
  }

  /** Collect the incrementals after the media root and drain all but the newest `retain`. */
  method Retain(rows: seq<Row>, mediaSequence: nat, retain: nat) returns (incrementals: seq<Row>)
    ensures incrementals == Newest(Followers(rows, mediaSequence), retain)
  {
    incrementals := [];
    for i := 0 to |rows|
      invariant incrementals == Followers(rows[..i], mediaSequence)
    {
      assert rows[..i + 1][..i] == rows[..i];
      if rows[i].kind == Incremental && rows[i].sequence > mediaSequence {
        incrementals := incrementals + [rows[i]];
      }
    }
    assert rows[..|rows|] == rows;
    if |incrementals| > retain {
      incrementals := incrementals[|incrementals| - retain..];
    }
  }

  method ReadAll(rows: seq<Row>, served: map<PackageId, Dir>) returns (result: Result<seq<Entry>, RemoteError>)
    ensures result == ReadEntries(rows, served)
  {
    var packages: seq<Entry> := [];
    for i := 0 to |rows|
      invariant ReadEntries(rows[..i], served) == Success(packages)
    {
      assert rows[..i + 1][..i] == rows[..i];
      var signed := ReadManifest(served, rows[i].id);
      if signed == None || !Identifies(rows[i], signed.value, true) {
        FailsEarly(rows, served, i + 1);
        return Failure(if signed == None then Missing(rows[i].id) else Mismatch(rows[i].id));
      }
      packages := packages + [EntryFor(signed.value)];
    }
    assert rows[..|rows|] == rows;
    result := Success(packages);
  }

  method EnsureGapFree(packages: seq<Entry>) returns (coherent: bool)
    ensures coherent == GapFree(packages)
  {
    for i := 0 to if packages == [] then 0 else |packages| - 1
      invariant forall j | 0 <= j < i :: packages[j].to == packages[j + 1].from
    {
      if packages[i].to != packages[i + 1].from {
        return false;
      }
    }
    coherent := true;
  }

  /** A failure while reading a prefix of the rows is the failure of the whole read. */
  lemma {:induction false} FailsEarly(rows: seq<Row>, served: map<PackageId, Dir>, n: nat)
    requires n <= |rows| && ReadEntries(rows[..n], served).Failure?
    ensures ReadEntries(rows, served) == ReadEntries(rows[..n], served)
    decreases |rows| - n
  {
    if n == |rows| {
      assert rows[..n] == rows;
    } else {
      assert rows[..n + 1][..n] == rows[..n];
      FailsEarly(rows, served, n + 1);
    }
  }

  // --- What is listed -------------------------------------------------------------------------

  /** The artifact served under the row's id is the one that the row was seeded from. */
  predicate Matches(row: Row, served: map<PackageId, Dir>) {
    row.id in served && served[row.id].manifest == Some(row.manifestDigest)
  }

  /** The index of the oldest incremental that is listed, `|c|` when none is. */
  function FirstListed(c: seq<Row>, retain: nat): (first: nat)
    requires LastMedia(c) < |c|
    ensures LastMedia(c) < first <= |c|
    ensures |c| - first <= retain
  {
    var k := LastMedia(c);
    if |c| - (k + 1) > retain then |c| - retain else k + 1
  }

  predicate Listed(c: seq<Row>, retain: nat, i: nat)
    requires LastMedia(c) < |c|
  {
    i == LastMedia(c) || FirstListed(c, retain) <= i < |c|
  }

  /** On a chain the retained incrementals are exactly the newest suffix after the newest media root. */
  lemma {:induction false} RetainedSuffix(c: seq<Row>, retain: nat)
    requires Chain(c) && LastMedia(c) < |c|
    ensures Newest(Followers(c, c[LastMedia(c)].sequence), retain) == c[FirstListed(c, retain)..]
  {
    var k := LastMedia(c);
    Numbered(c);
    FollowersAfter(c, k, |c|);
    assert c[..|c|] == c && c[k + 1..|c|] == c[k + 1..];
  }

  lemma Numbered(c: seq<Row>)
    requires Chain(c)
    ensures forall i: nat | i < |c| :: c[i].sequence == i + 1
  {
    forall i: nat | i < |c| ensures c[i].sequence == i + 1 {
      assert LinkAt(c, i);
    }
  }

  lemma {:induction false} FollowersAfter(c: seq<Row>, k: nat, n: nat)
    requires k < |c| && n <= |c| && (forall i | k < i < |c| :: !c[i].Media())
    requires forall i: nat | i < |c| :: c[i].sequence == i + 1
    ensures Followers(c[..n], c[k].sequence) == if n <= k then [] else c[k + 1..n]
  {
    if n > 0 {
      FollowersAfter(c, k, n - 1);
      LastFollower(c, c[k].sequence, n);
      StretchGrows(c, k + 1, n);
    }
  }

  lemma StretchGrows(c: seq<Row>, first: nat, n: nat)
    requires 0 < n <= |c|
    ensures first < n ==> c[first..n] == c[first..n - 1] + [c[n - 1]]
    ensures first == n ==> c[first..n] == []
  {
  }

  lemma LastFollower(c: seq<Row>, mediaSequence: nat, n: nat)
    requires 0 < n <= |c|
    ensures var r, rest := c[n - 1], Followers(c[..n - 1], mediaSequence);
      Followers(c[..n], mediaSequence) == if r.kind == Incremental && r.sequence > mediaSequence then rest + [r] else rest
  {
    assert c[..n][..n - 1] == c[..n - 1] && c[..n][n - 1] == c[n - 1];
  }

  /** Reading a stretch of a chain succeeds exactly when every row of it matches its artifact, and lists
      those rows one to one. */
  lemma {:induction false} ReadStretch(c: seq<Row>, served: map<PackageId, Dir>, first: nat, n: nat)
    requires Chain(c) && 0 < first <= n <= |c|
    requires forall i | first <= i < n :: c[i].kind == Incremental
    ensures var r := ReadEntries(c[first..n], served);
      && (r.Success? <==> forall i | first <= i < n :: Matches(c[i], served))
      && (r.Success? ==> r.value == EntriesOf(c, first, n))
  {
    if first < n {
      ReadStretch(c, served, first, n - 1);
      assert c[first..n][..n - 1 - first] == c[first..n - 1];
      assert LinkAt(c, n - 1);
      if Matches(c[n - 1], served) {
        assert Identifies(c[n - 1], c[n - 1].manifestDigest, true);
      }
    }
  }

  function EntriesOf(c: seq<Row>, first: nat, n: nat): seq<Entry>
    requires first <= n <= |c|
  {
    seq(n - first, j requires 0 <= j < n - first => EntryFor(c[first + j].manifestDigest))
  }

  /** The rows listed after the media root are contiguous `+1` links. */
  lemma {:induction false} ListedAreLinks(c: seq<Row>, first: nat)
    requires Chain(c) && 0 < first <= |c|
    ensures GapFree(EntriesOf(c, first, |c|))
    ensures forall j | 0 <= j < |c| - first :: EntriesOf(c, first, |c|)[j].from == first + j && EntriesOf(c, first, |c|)[j].to == first + j + 1
  {
    forall j | 0 <= j < |c| - first
      ensures EntriesOf(c, first, |c|)[j].from == first + j && EntriesOf(c, first, |c|)[j].to == first + j + 1
    {
      var i := first + j;
      assert LinkAt(c, i) && c[i].manifestDigest.id == IdAt(i);
      assert EntriesOf(c, first, |c|)[j] == EntryFor(c[i].manifestDigest);
    }
  }

  /** What `RemoteFor` does with a chain, in terms of the rows it has to list. */
  lemma {:induction false} OnChain(c: seq<Row>, served: map<PackageId, Dir>, retain: nat)
    requires Chain(c) && LastMedia(c) < |c|
    ensures var k, first := LastMedia(c), FirstListed(c, retain);
      if Matches(c[k], served) && forall i | first <= i < |c| :: Matches(c[i], served) then
        RemoteFor(c, served, retain) == Success(Assemble(c[k].manifestDigest, c[k].id, EntriesOf(c, first, |c|)))
      else RemoteFor(c, served, retain).Failure?
  {
    var k, first := LastMedia(c), FirstListed(c, retain);
    RetainedSuffix(c, retain);
    assert c[first..|c|] == c[first..];
    forall i | first <= i < |c| ensures c[i].kind == Incremental {
      assert !c[i].Media();
    }
    ReadStretch(c, served, first, |c|);
    ListedAreLinks(c, first);
    assert LinkAt(c, k);
    if Matches(c[k], served) {
      assert Identifies(c[k], c[k].manifestDigest, false);
    }
  }

  /** A remote manifest can be built from a chain exactly when every artifact it has to list is served
      and is the cataloged one. */
  lemma {:induction false} BuildsExactlyWhenListedMatch(c: seq<Row>, served: map<PackageId, Dir>, retain: nat)
    requires Chain(c)
    ensures RemoteFor(c, served, retain).Success? <==>
      LastMedia(c) < |c| && forall i: nat | i < |c| && Listed(c, retain, i) :: Matches(c[i], served)
  {
    if LastMedia(c) < |c| {
      OnChain(c, served, retain);
    }
  }

  /** Every entry names a served artifact, which is the one that the entry was built from. */
  predicate Coherent(r: Remote, served: map<PackageId, Dir>) {
    && r.active.id in served
    && served[r.active.id].manifest == Some(r.active.signature)
    && r.active.digest == r.active.signature.digest
    && forall i | 0 <= i < |r.packages| :: EntryCoherent(r.packages[i], served)
  }

  predicate EntryCoherent(e: Entry, served: map<PackageId, Dir>) {
    && e.id in served
    && served[e.id].manifest == Some(e.signature)
    && e.digest == e.signature.digest
  }

  /** `verify_signed_remote_manifest`: the active baseline and every package exist, with the signature and the
      digest that are listed. */
  method VerifyRemote(r: Remote, served: map<PackageId, Dir>) returns (verified: bool)
    ensures verified == Coherent(r, served)
  {
    if ReadManifest(served, r.active.id) != Some(r.active.signature) || r.active.digest != r.active.signature.digest {
      return false;
    }
    for i := 0 to |r.packages|
      invariant forall j | 0 <= j < i :: EntryCoherent(r.packages[j], served)
    {
      if !EntryCoherent(r.packages[i], served) {
        return false;
      }
    }
    verified := true;
  }

  /** The packages are the `+1` links from `minAvailable` to `head`, after the active media root, and
      whoever is below `minAvailable` (when that is not the first sequence) is told to load the baseline. */
  ghost predicate WellShaped(r: Remote) {
    && r.active.kind != Incremental
    && 1 <= r.active.sequence <= r.minAvailable <= r.head
    && |r.packages| == r.head - r.minAvailable
    && (forall i | 0 <= i < |r.packages| ::
          r.packages[i].from == r.minAvailable + i && r.packages[i].to == r.minAvailable + i + 1)
    && r.ranges == if r.minAvailable > 1 then [BaselineRange(0, r.minAvailable - 1, r.active.baselineId)] else []
  }

  lemma {:induction false} BuiltIsCoherent(c: seq<Row>, served: map<PackageId, Dir>, retain: nat)
    requires Chain(c) && RemoteFor(c, served, retain).Success?
    ensures Coherent(RemoteFor(c, served, retain).value, served)
  {
    var k, first := LastMedia(c), FirstListed(c, retain);
    OnChain(c, served, retain);
    assert LinkAt(c, k);
    EntriesCoherent(c, served, first);
  }

  /** Entries of rows that match their artifacts name those artifacts. */
  lemma EntriesCoherent(c: seq<Row>, served: map<PackageId, Dir>, first: nat)
    requires Chain(c) && first <= |c| && forall i | first <= i < |c| :: Matches(c[i], served)
    ensures forall e | e in EntriesOf(c, first, |c|) :: EntryCoherent(e, served)
  {
    var entries := EntriesOf(c, first, |c|);
    forall j | 0 <= j < |entries| ensures EntryCoherent(entries[j], served) {
      assert LinkAt(c, first + j) && Matches(c[first + j], served);
      assert entries[j] == EntryFor(c[first + j].manifestDigest);
    }
  }

  /** The reference names the row, with everything that clients route by. */
  predicate Describes(b: BaselineRef, row: Row) {
    && b.id == row.id && b.sequence == row.sequence && b.kind == row.kind && b.generation == row.generation
    && b.baselineId == row.baselineId && b.digest == row.digest && b.signature == row.manifestDigest
  }

  /** A manifest built from a chain is coherent and well shaped; it lists the newest suffix after the
      newest media root, and its head is the catalog head unless retention keeps no incremental. */
  lemma {:induction false} BuiltIsSound(c: seq<Row>, served: map<PackageId, Dir>, retain: nat)
    requires Chain(c) && RemoteFor(c, served, retain).Success?
    ensures LastMedia(c) < |c|
    ensures var r := RemoteFor(c, served, retain).value;
      && Coherent(r, served) && WellShaped(r)
      && r.active.sequence == LastMedia(c) + 1
      && Describes(r.active, c[LastMedia(c)])
      && (r.packages == [] ==> r.head == r.active.sequence)
      && r.packages == EntriesOf(c, FirstListed(c, retain), |c|)
      && (retain > 0 ==> r.head == |c| && r.minAvailable == FirstListed(c, retain))
      && r.head <= |c|
  {
    var k, first := LastMedia(c), FirstListed(c, retain);
    OnChain(c, served, retain);
    BuiltIsCoherent(c, served, retain);
    ListedAreLinks(c, first);
    assert LinkAt(c, k);
    AssembledShape(c[k].manifestDigest, c[k].id, EntriesOf(c, first, |c|), first);
  }

  /** The links from `first` on, over a media root that comes before them. */
  lemma AssembledShape(media: Manifest, id: PackageId, entries: seq<Entry>, first: nat)
    requires media.kind != Incremental && 1 <= media.id.to <= first
    requires forall j | 0 <= j < |entries| :: entries[j].from == first + j && entries[j].to == first + j + 1
    ensures WellShaped(Assemble(media, id, entries))
    ensures entries != [] ==>
      Assemble(media, id, entries).head == first + |entries| && Assemble(media, id, entries).minAvailable == first
  {
  }

  // --- What clients make of it ----------------------------------------------------------------

  datatype Plan =
    | UpToDate
    | LoadBaseline(baseline: BaselineRef)
    | ApplyChain(chain: seq<Entry>)
    | Blocked

  function EntriesFrom(packages: seq<Entry>, from: int): seq<Entry> {
    if packages == [] then []
    else (if packages[0].from == from then [packages[0]] else []) + EntriesFrom(packages[1..], from)
  }

  /** `build_chain`: the links from `from` to `to`, refused on a gap, a duplicate or a longer step. */
  function ChainFrom(packages: seq<Entry>, from: nat, to: nat): Option<seq<Entry>>
    decreases to - from
  {
    if from >= to then (if from == to then Some([]) else None)
    else
      var matches := EntriesFrom(packages, from);
      if |matches| != 1 || matches[0].to != from + 1 then None
      else match ChainFrom(packages, from + 1, to)
        case None => None
        case Some(rest) => Some(matches + rest)
  }

  function InstalledBaseline(r: Remote, at: nat): Plan {
    if r.active.kind != Rebaseline || r.active.sequence <= at then Blocked else LoadBaseline(r.active)
  }

  predicate InBaselineRange(r: Remote, at: nat) {
    exists i | 0 <= i < |r.ranges| :: r.ranges[i].from <= at <= r.ranges[i].to
  }

  /** `plan_catchup` for a client at sequence `at` (`None` when the corpus is not installed), for a client
      that meets every version gate and prefers no baseline. */
  function PlanCatchup(r: Remote, cursor: Option<nat>): Plan {
    if r.active.sequence > r.head then Blocked
    else match cursor
      case None => LoadBaseline(r.active)
      case Some(at) =>
        if at == r.head then UpToDate
        else if at > r.head then Blocked
        else if at < r.minAvailable then InstalledBaseline(r, at)
        else match ChainFrom(r.packages, at, r.head)
          case None => InstalledBaseline(r, at)
          case Some(chain) => if InBaselineRange(r, at) then InstalledBaseline(r, at) else ApplyChain(chain)
  }

  /** From any position in the retained window the planner finds the links to the head, one package per
      sequence step; below the window it never does, and the position lies in the published range. */
  lemma {:induction false} ReachesHead(r: Remote, at: nat)
    requires WellShaped(r)
    ensures r.minAvailable <= at < r.head ==>
      PlanCatchup(r, Some(at)) == ApplyChain(r.packages[at - r.minAvailable..])
    ensures r.minAvailable <= at < r.head ==> |r.packages[at - r.minAvailable..]| == r.head - at
    ensures at == r.head ==> PlanCatchup(r, Some(at)) == UpToDate
    ensures at < r.minAvailable && at != r.head ==>
      (PlanCatchup(r, Some(at)) ==
         if r.active.kind == Rebaseline && at < r.active.sequence then LoadBaseline(r.active) else Blocked)
    ensures at > r.head ==> PlanCatchup(r, Some(at)) == Blocked
    ensures r.minAvailable > 1 ==> (InBaselineRange(r, at) <==> at < r.minAvailable)
  {
    if r.minAvailable <= at <= r.head {
      ChainIsSuffix(r.packages, r.minAvailable, at - r.minAvailable);
    }
    if r.minAvailable > 1 {
      assert r.ranges[0] == BaselineRange(0, r.minAvailable - 1, r.active.baselineId);
    }
  }

  lemma {:induction false} ChainIsSuffix(packages: seq<Entry>, base: nat, i: nat)
    requires forall j | 0 <= j < |packages| :: packages[j].from == base + j && packages[j].to == base + j + 1
    requires i <= |packages|
    ensures ChainFrom(packages, base + i, base + |packages|) == Some(packages[i..])
    decreases |packages| - i
  {
    if i < |packages| {
      ChainIsSuffix(packages, base, i + 1);
      OnlyMatch(packages, base, i);
      assert packages[i..] == [packages[i]] + packages[i + 1..];
    }
  }

  lemma {:induction false} OnlyMatch(packages: seq<Entry>, base: nat, i: int)
    requires forall j | 0 <= j < |packages| :: packages[j].from == base + j
    ensures EntriesFrom(packages, base + i) == if 0 <= i < |packages| then [packages[i]] else []
  {
    if packages != [] {
      OnlyMatch(packages[1..], base + 1, i - 1);
    }
  }

  /** A fresh client loads the active baseline and stands at its sequence.  From there it can go on to the
      head exactly when retention has dropped nothing since that media root; otherwise it is blocked. */
  lemma {:induction false} FreshClientReachesHead(c: seq<Row>, served: map<PackageId, Dir>, retain: nat)
    requires Chain(c) && RemoteFor(c, served, retain).Success? && retain > 0
    ensures var r := RemoteFor(c, served, retain).value;
      && PlanCatchup(r, None) == LoadBaseline(r.active)
      && (|c| - r.active.sequence <= retain <==>
            PlanCatchup(r, Some(r.active.sequence)) == (if r.active.sequence == |c| then UpToDate else ApplyChain(r.packages)))
      && (|c| - r.active.sequence > retain ==> PlanCatchup(r, Some(r.active.sequence)) == Blocked)
  {
    BuiltIsSound(c, served, retain);
    var r := RemoteFor(c, served, retain).value;
    ReachesHead(r, r.active.sequence);
    assert r.packages[0..] == r.packages;
  }
}
