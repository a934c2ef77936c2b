/** Packages of one corpus: their identities, embedded manifests, artifact directories and catalog
    rows.  A digest is identified with what it is computed over (digests do not collide): the aggregate
    payload digest of an artifact is its map of payload files, and the canonical digest of an embedded
    manifest is the manifest.  A signature is likewise identified with the manifest that it seals. */
module Packages {
  import opened Wrappers

  datatype PackageKind = Baseline | Rebaseline | Incremental

  datatype Status = Built | Published

  /** `<corpus>-<from>-<to>`, for the one corpus that is modelled. */
  datatype PackageId = PackageId(from: nat, to: nat)

  /** File name to content. */
  type Payload = map<string, int>

  /** What an incremental must share with the package it follows. */
  datatype Stamps = Stamps(schemaVersion: int, fingerprint: string, builders: string)

  datatype Link = Link(id: PackageId, digest: Payload)

  datatype Manifest = Manifest(
    id: PackageId, kind: PackageKind, previous: Option<Link>, baselineId: string, generation: nat,
    stamps: Stamps, createdAt: string, digest: Payload)

  /** A directory holding an artifact, or what a crash left of one. */
  datatype Dir = Dir(manifest: Option<Manifest>, files: Payload)

  const EMPTY_DIR := Dir(None, map[])

  datatype Row = Row(
    sequence: nat, id: PackageId, kind: PackageKind, baselineId: string, generation: nat,
    low: nat, high: nat, previous: Option<Link>, digest: Payload, manifestDigest: Manifest,
    stamps: Stamps, status: Status)
  {
    predicate Media() { kind.Baseline? || kind.Rebaseline? }
  }

  /** The catalog row that a builder seeds from the manifest it has just staged. */
  function RowFor(m: Manifest, low: nat, high: nat, status: Status): Row {
    Row(m.id.to, m.id, m.kind, m.baselineId, m.generation, low, high, m.previous, m.digest, m, m.stamps, status)
  }

  /** The artifact directory that `m` describes, complete. */
  function Whole(m: Manifest): Dir {
    Dir(Some(m), m.digest)
  }

  /** What is left of `d` after some of its entries have been removed. */
  predicate LeftOf(left: Dir, d: Dir) {
    && (left.manifest == None || left.manifest == d.manifest)
    && Submap(left.files, d.files)
  }

  predicate Submap(a: Payload, b: Payload) {
    forall name | name in a :: name in b && a[name] == b[name]
  }

  /** The id of the row at index `i` of a chain: the first baseline goes from 1 to 1, every later
      package from `i` to `i + 1`. */
  function IdAt(i: nat): PackageId {
    if i == 0 then PackageId(1, 1) else PackageId(i, i + 1)
  }

  /** `r` is a legitimate next link after `p`. */
  predicate Succeeds(p: Row, r: Row) {
    && r.previous == Some(Link(p.id, p.digest))
    && r.low == p.high <= r.high
    && match r.kind
       case Baseline => false
       case Rebaseline => r.generation == p.generation + 1
       case Incremental =>
         r.low < r.high && r.generation == p.generation && r.baselineId == p.baselineId && r.stamps == p.stamps
  }

  predicate First(r: Row) {
    r.kind == Baseline && r.previous == None && r.generation == 1 && r.low == 0
  }

  predicate LinkAt(c: seq<Row>, i: nat)
    requires i < |c|
  {
    && c[i].id == IdAt(i)
    && c[i] == RowFor(c[i].manifestDigest, c[i].low, c[i].high, c[i].status)
    && if i == 0 then First(c[i]) else Succeeds(c[i - 1], c[i])
  }

  /** Catalog rows numbered 1..n, chain-linked, with adjoining windows. */
  ghost predicate Chain(c: seq<Row>) {
    forall i: nat | i < |c| :: LinkAt(c, i)
  }

  /** The change numbers that package `i` covers. */
  predicate InWindow(r: Row, change: nat) {
    r.low < change <= r.high
  }

  lemma {:induction false} WindowsGrow(c: seq<Row>, i: nat, j: nat)
    requires Chain(c) && i <= j < |c|
    ensures c[i].high <= c[j].high
    ensures i < j ==> c[i].high <= c[j].low
    decreases j - i
  {
    if i < j {
      assert LinkAt(c, j);
      WindowsGrow(c, i, j - 1);
    } else {
    }
  }

  /** The windows of a chain tile `(0, last.high]`: every change number up to the newest high-water mark
      lies in the window of exactly one package, and in none beyond it. */
  lemma {:induction false} WindowsTile(c: seq<Row>, change: nat)
    requires Chain(c) && |c| > 0
    ensures 0 < change <= c[|c| - 1].high <==> exists i: nat :: i < |c| && InWindow(c[i], change)
    ensures forall i: nat, j: nat | i < j < |c| :: !(InWindow(c[i], change) && InWindow(c[j], change))
  {
    var n := |c|;
    forall i: nat, j: nat | i < j < n
      ensures !(InWindow(c[i], change) && InWindow(c[j], change))
    {
      WindowsGrow(c, i, j);
    }
    forall i: nat | i < n && InWindow(c[i], change)
      ensures 0 < change <= c[n - 1].high
    {
      WindowsGrow(c, i, n - 1);
    }
    if 0 < change <= c[n - 1].high {
      var i := Owner(c, change, n - 1);
    }
  }

  /** The package whose window holds `change`, searched from the newest at or below `upTo`. */
  lemma {:induction false} Owner(c: seq<Row>, change: nat, upTo: nat) returns (i: nat)
    requires Chain(c) && upTo < |c| && 0 < change <= c[upTo].high
    ensures i <= upTo && InWindow(c[i], change)
  {
    assert LinkAt(c, upTo);
    if c[upTo].low < change {
      i := upTo;
    } else {
      i := Owner(c, change, upTo - 1);
    }
  }
}
