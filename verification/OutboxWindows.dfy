/** From the outbox to the client: what is built for the scopes recorded in a window, and whether a client that
    stands at its start can follow it. */
module OutboxWindows {
  import opened Wrappers
  import opened Replica
  import opened Incremental
  import opened Convergence
  import opened ConvergenceTheorem

  /** Which outbox rows ask for which kind of action. */
  ghost predicate Routed(scopes: seq<Scope>, t: Touched) {
    forall k: Key ::
      && (k in t.documents <==> Scope(Documents, k) in scopes)
      && (k in t.responses <==> Scope(Responses, k) in scopes)
      && (k in t.roots <==> Scope(Roots, k) in scopes)
      && (k in t.resolutions <==> Scope(Resolutions, k) in scopes)
      && (k in t.citations <==> Scope(Citations, k) in scopes)
      && (k in t.chunks <==> Scope(Chunks, k) in scopes)
      && (k in t.embeddings <==> Scope(ChunkEmbeddings, k) in scopes)
      && (k in t.zones <==> Scope(ZoneUnits, k) in scopes || Scope(ZoneUnitEmbeddings, k) in scopes)
      && (k in t.decisionZones <==> Scope(DecisionZones, k) in scopes)
  }

  lemma OnlyTable(scopes: seq<Scope>, table: Table, k: Key)
    ensures k in KeysIn(scopes, {table}) <==> Scope(table, k) in scopes
  {
    KeyOccurs(scopes, {table}, k);
    if s :| s in scopes && s.table in {table} && s.key == k {
      assert s == Scope(table, k);
    }
  }

  lemma EitherTable(scopes: seq<Scope>, k: Key)
    ensures k in KeysIn(scopes, {ZoneUnits, ZoneUnitEmbeddings}) <==>
      Scope(ZoneUnits, k) in scopes || Scope(ZoneUnitEmbeddings, k) in scopes
  {
    KeyOccurs(scopes, {ZoneUnits, ZoneUnitEmbeddings}, k);
    if s :| s in scopes && s.table in {ZoneUnits, ZoneUnitEmbeddings} && s.key == k {
      assert s == Scope(ZoneUnits, k) || s == Scope(ZoneUnitEmbeddings, k);
    }
  }

  /** Each outbox row ends up with the action of its own table, and nothing else is touched. */
  lemma CoalescingRoutes(scopes: seq<Scope>)
    ensures Routed(scopes, Coalesced(scopes))
  {
    forall k: Key, table: Table ensures k in KeysIn(scopes, {table}) <==> Scope(table, k) in scopes {
      OnlyTable(scopes, table, k);
    }
    forall k: Key
      ensures k in KeysIn(scopes, {ZoneUnits, ZoneUnitEmbeddings}) <==>
        Scope(ZoneUnits, k) in scopes || Scope(ZoneUnitEmbeddings, k) in scopes
    {
      EitherTable(scopes, k);
    }
  }

  // --- What ingest has to record ----------------------------------------------------------------

  /** A row that differs has its scope in the outbox. */
  ghost predicate RecordedRows<V>(a: map<Key, V>, b: map<Key, V>, scopes: seq<Scope>, table: Table) {
    forall k | k in a || k in b :: Same(a, b, k) || Scope(table, k) in scopes
  }

  /** A document whose derived rows or embeddings are meant. */
  predicate OwnersRecorded(d: Derived, h: Derived, k: Key, scopes: seq<Scope>, tables: set<Table>) {
    && (k in d.rows ==> exists table | table in tables :: Scope(table, d.rows[k].doc) in scopes)
    && (k in h.rows ==> exists table | table in tables :: Scope(table, h.rows[k].doc) in scopes)
  }

  ghost predicate RecordedSets(d: Derived, h: Derived, scopes: seq<Scope>, rows: set<Table>, embeddings: set<Table>) {
    && (forall k | k in d.rows || k in h.rows :: Same(d.rows, h.rows, k) || OwnersRecorded(d, h, k, scopes, rows))
    && (forall k | k in d.embeddings || k in h.embeddings ::
          Same(d.embeddings, h.embeddings, k) || OwnersRecorded(d, h, k, scopes, embeddings))
  }

  /** Every row that differs between two snapshots of the producer has its scope among the outbox rows: edges by
      the document they start at, citations by their decision, chunks, zone units and embeddings by their document.
      Edges and citations that vanished need not be recorded. */
  ghost predicate Recorded(lo: Db, hi: Db, scopes: seq<Scope>) {
    && RecordedRows(lo.documents, hi.documents, scopes, Documents)
    && RecordedRows(lo.responses, hi.responses, scopes, Responses)
    && RecordedRows(lo.roots, hi.roots, scopes, Roots)
    && RecordedRows(lo.resolutions, hi.resolutions, scopes, Resolutions)
    && RecordedRows(lo.decisionZones, hi.decisionZones, scopes, DecisionZones)
    && (forall k | k in hi.edges :: Same(lo.edges, hi.edges, k) || Scope(Documents, hi.edges[k].from) in scopes)
    && (forall k | k in hi.citations ::
          Same(lo.citations, hi.citations, k) || Scope(Citations, hi.citations[k].decision) in scopes)
    && RecordedSets(lo.chunks, hi.chunks, scopes, {Documents, Chunks}, {Documents, Chunks, ChunkEmbeddings})
    && RecordedSets(lo.zones, hi.zones, scopes, {ZoneUnits, ZoneUnitEmbeddings}, {ZoneUnits, ZoneUnitEmbeddings})
  }

  lemma RecordedIsCovered(lo: Db, hi: Db, scopes: seq<Scope>, t: Touched)
    requires Consistent(lo) && Consistent(hi) && Recorded(lo, hi, scopes) && Routed(scopes, t)
    ensures Covers(lo, hi, t)
  {
    ChunksRecorded(lo.chunks, hi.chunks, scopes, t);
    ZonesRecorded(lo.zones, hi.zones, scopes, t);
    PlainCoverageSuffices(lo, hi, t);
  }

  lemma ChunksRecorded(d: Derived, h: Derived, scopes: seq<Scope>, t: Touched)
    requires Routed(scopes, t)
    requires RecordedSets(d, h, scopes, {Documents, Chunks}, {Documents, Chunks, ChunkEmbeddings})
    ensures DerivedWithin(d, h, t.WideChunks(), t.WideChunks() + t.embeddings)
  {
    forall doc: Key ensures doc in t.WideChunks() <==> Scope(Documents, doc) in scopes || Scope(Chunks, doc) in scopes {
    }
  }

  lemma ZonesRecorded(d: Derived, h: Derived, scopes: seq<Scope>, t: Touched)
    requires Routed(scopes, t)
    requires RecordedSets(d, h, scopes, {ZoneUnits, ZoneUnitEmbeddings}, {ZoneUnits, ZoneUnitEmbeddings})
    ensures DerivedWithin(d, h, t.zones, t.zones)
  {
  }

  /** The payload part of `build_incremental_inner`, and what it is for: when the outbox recorded every change
      between a snapshot `lo` and the one the build reads, a client at `lo` accepts the package exactly when no
      derived row moved to an earlier document and no edge or citation merely vanished, and then holds what the
      producer holds.  It is refused for no outbox row but one of an unknown table. */
  method BuildWindow(hi: Db, scopes: seq<Scope>) returns (p: Option<Package>)
    requires Consistent(hi)
    ensures p == None <==> exists name, k :: Scope(Unknown(name), k) in scopes
    ensures p.Some? ==> forall lo | Consistent(lo) && Recorded(lo, hi, scopes) ::
      ApplyPackage(lo, p.value) == if Orderly(lo, hi) && NothingVanished(lo, hi) then Some(hi) else None
  {
    p := Build(hi, scopes);
    if i: nat :| i < |scopes| && scopes[i].table.Unknown? {
      assert scopes[i] == Scope(Unknown(scopes[i].table.name), scopes[i].key);
    }
    if p.Some? {
      CoalescingRoutes(scopes);
      forall lo | Consistent(lo) && Recorded(lo, hi, scopes)
        ensures ApplyPackage(lo, p.value) == if Orderly(lo, hi) && NothingVanished(lo, hi) then Some(hi) else None
      {
        RecordedIsCovered(lo, hi, scopes, Coalesced(scopes));
        PackageConverges(lo, hi, Coalesced(scopes));
      }
    }
  }
}
