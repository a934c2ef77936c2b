/** The replicated tables of one corpus and how the client applies a package to them.  A key is the rank of
    its text, so keys compare as the builder sorts them; the columns that take no part in a reference are
    one `body`. */
module Replica {
  import opened Wrappers

  type Key = int

  datatype Edge = Edge(from: Key, to: Option<Key>, body: int)
  datatype Resolution = Resolution(response: Option<Key>, body: int)
  datatype Citation = Citation(decision: Key, response: Key, body: int)

  /** A row derived from a document. */
  datatype Owned = Owned(doc: Key, body: int)

  /** `chunks` with `chunk_embeddings`, or `zone_units` with `zone_unit_embeddings`: an embedding has the key
      of the row it belongs to. */
  datatype Derived = Derived(rows: map<Key, Owned>, embeddings: map<Key, int>)

  /** The derived rows of one document, as a replace-set carries them. */
  datatype SetRows = SetRows(rows: map<Key, int>, embeddings: map<Key, int>)

  datatype Db = Db(
    documents: map<Key, int>,
    responses: map<Key, int>,
    edges: map<Key, Edge>,
    roots: map<Key, int>,
    resolutions: map<Key, Resolution>,
    citations: map<Key, Citation>,
    chunks: Derived,
    zones: Derived,
    decisionZones: map<Key, int>)

  // --- Foreign keys ---------------------------------------------------------------------------

  predicate Refers(r: Option<Key>, keys: set<Key>) {
    r.Some? ==> r.value in keys
  }

  predicate EdgeRefers(e: Edge, docs: set<Key>) {
    e.from in docs && Refers(e.to, docs)
  }

  predicate ResolutionRefers(r: Resolution, responses: set<Key>) {
    Refers(r.response, responses)
  }

  predicate CitationRefers(c: Citation, docs: set<Key>, responses: set<Key>) {
    c.decision in docs && c.response in responses
  }

  predicate DerivedRefers(d: Derived, docs: set<Key>) {
    (forall k | k in d.rows :: d.rows[k].doc in docs) && d.embeddings.Keys <= d.rows.Keys
  }

  predicate Consistent(db: Db) {
    && (forall k | k in db.edges :: EdgeRefers(db.edges[k], db.documents.Keys))
    && (forall k | k in db.resolutions :: ResolutionRefers(db.resolutions[k], db.responses.Keys))
    && (forall k | k in db.citations :: CitationRefers(db.citations[k], db.documents.Keys, db.responses.Keys))
    && DerivedRefers(db.chunks, db.documents.Keys)
    && DerivedRefers(db.zones, db.documents.Keys)
    && db.decisionZones.Keys <= db.documents.Keys
  }

  // --- Derived rows ---------------------------------------------------------------------------

  /** The owner of a derived row is one of `docs`. */
  predicate OwnedBy(d: Derived, k: Key, docs: set<Key>) {
    k in d.rows && d.rows[k].doc in docs
  }

  /** Deleting the rows of some documents; their embeddings go with them. */
  function Drop(d: Derived, docs: set<Key>): Derived {
    Derived(map k | k in d.rows && !OwnedBy(d, k, docs) :: d.rows[k],
            map k | k in d.embeddings && !OwnedBy(d, k, docs) :: d.embeddings[k])
  }

  function Only(d: Derived, docs: set<Key>): Derived {
    Derived(map k | k in d.rows && OwnedBy(d, k, docs) :: d.rows[k],
            map k | k in d.embeddings && OwnedBy(d, k, docs) :: d.embeddings[k])
  }

  function SetOf(d: Derived, doc: Key): SetRows {
    SetRows(map k | k in d.rows && OwnedBy(d, k, {doc}) :: d.rows[k].body,
            map k | k in d.embeddings && OwnedBy(d, k, {doc}) :: d.embeddings[k])
  }

  function Inserted(kept: map<Key, Owned>, doc: Key, rows: map<Key, int>): map<Key, Owned> {
    kept + map k | k in rows :: Owned(doc, rows[k])
  }

  /** `apply_replace_set` for a parent and its embeddings: delete the document's rows, insert the new ones.
      An insert fails on a missing document or a key that is still taken, and the rows read back must be
      the ones the package carries. */
  function ReplaceDerived(d: Derived, docs: set<Key>, doc: Key, s: SetRows): Option<Derived> {
    var kept := Drop(d, {doc});
    if (s.rows != map[] && doc !in docs) || exists k :: k in s.rows && k in kept.rows then None
    else
      var rows := Inserted(kept.rows, doc, s.rows);
      if !(s.embeddings.Keys <= rows.Keys) || exists k :: k in s.embeddings && k in kept.embeddings then None
      else
        var d' := Derived(rows, kept.embeddings + s.embeddings);
        if SetOf(d', doc) == s then Some(d') else None
  }

  /** The same for the embeddings alone; the rows they belong to stay. */
  function ReplaceEmbeddings(d: Derived, doc: Key, embeddings: map<Key, int>): Option<Derived> {
    var kept := Drop(d, {doc}).embeddings;
    if !(embeddings.Keys <= d.rows.Keys) || exists k :: k in embeddings && k in kept then None
    else
      var d' := d.(embeddings := kept + embeddings);
      if SetOf(d', doc).embeddings == embeddings then Some(d') else None
  }

  // --- Rows applied one by one ----------------------------------------------------------------

  /** A row of an upsert file. */
  datatype Put<+V> = Put(key: Key, row: V)

  function UpsertAll<V>(t: map<Key, V>, rows: seq<Put<V>>): map<Key, V> {
    if rows == [] then t
    else UpsertAll(t, rows[..|rows| - 1])[rows[|rows| - 1].key := rows[|rows| - 1].row]
  }

  function DeleteAll<V>(t: map<Key, V>, keys: seq<Key>): map<Key, V> {
    if keys == [] then t else DeleteAll(t, keys[..|keys| - 1]) - {keys[|keys| - 1]}
  }

  /** Deleting documents, with everything that refers to them. */
  function CascadeDocuments(db: Db, docs: set<Key>): Db {
    db.(documents := db.documents - docs,
        edges := map k | k in db.edges && EdgeAvoids(db.edges[k], docs) :: db.edges[k],
        citations := map k | k in db.citations && db.citations[k].decision !in docs :: db.citations[k],
        chunks := Drop(db.chunks, docs),
        zones := Drop(db.zones, docs),
        decisionZones := db.decisionZones - docs)
  }

  predicate EdgeAvoids(e: Edge, docs: set<Key>) {
    e.from !in docs && !(e.to.Some? && e.to.value in docs)
  }

  /** Deleting archived responses: citations go, resolutions lose their reference. */
  function CascadeResponses(db: Db, responses: set<Key>): Db {
    db.(responses := db.responses - responses,
        citations := map k | k in db.citations && db.citations[k].response !in responses :: db.citations[k],
        resolutions := map k | k in db.resolutions :: Nulled(db.resolutions[k], responses))
  }

  function Nulled(r: Resolution, responses: set<Key>): Resolution {
    if r.response.Some? && r.response.value in responses then r.(response := None) else r
  }

  function DeleteDocuments(db: Db, keys: seq<Key>): Db {
    if keys == [] then db
    else CascadeDocuments(DeleteDocuments(db, keys[..|keys| - 1]), {keys[|keys| - 1]})
  }

  function DeleteResponses(db: Db, keys: seq<Key>): Db {
    if keys == [] then db
    else CascadeResponses(DeleteResponses(db, keys[..|keys| - 1]), {keys[|keys| - 1]})
  }

  /** Upserts into a table with foreign keys: the first row that does not meet them fails the file. */
  function UpsertChecked<V>(t: map<Key, V>, rows: seq<Put<V>>, refers: V -> bool): Option<map<Key, V>> {
    if rows == [] then Some(t)
    else
      var last := rows[|rows| - 1];
      match UpsertChecked(t, rows[..|rows| - 1], refers)
      case None => None
      case Some(before) => if refers(last.row) then Some(before[last.key := last.row]) else None
  }

  function ReplaceAll(d: Derived, docs: set<Key>, sets: seq<Put<SetRows>>): Option<Derived> {
    if sets == [] then Some(d)
    else
      var last := sets[|sets| - 1];
      match ReplaceAll(d, docs, sets[..|sets| - 1])
      case None => None
      case Some(before) => ReplaceDerived(before, docs, last.key, last.row)
  }

  function ReplaceAllEmbeddings(d: Derived, sets: seq<Put<map<Key, int>>>): Option<Derived> {
    if sets == [] then Some(d)
    else
      var last := sets[|sets| - 1];
      match ReplaceAllEmbeddings(d, sets[..|sets| - 1])
      case None => None
      case Some(before) => ReplaceEmbeddings(before, last.key, last.row)
  }

  function ReplaceDecisionZones(zones: map<Key, int>, docs: set<Key>, sets: seq<Put<Option<int>>>): Option<map<Key, int>> {
    if sets == [] then Some(zones)
    else
      var last := sets[|sets| - 1];
      match ReplaceDecisionZones(zones, docs, sets[..|sets| - 1])
      case None => None
      case Some(before) =>
        match last.row
        case None => Some(before - {last.key})
        case Some(row) => if last.key in docs then Some(before[last.key := row]) else None
  }

  // --- A whole package ------------------------------------------------------------------------

  datatype Diff<+V> = Diff(upserts: seq<Put<V>>, deletes: seq<Key>)

  /** The payload files, and the tables that the postcondition digests are computed over. */
  datatype Package = Package(
    documents: Diff<int>,
    responses: Diff<int>,
    edges: seq<Put<Edge>>,
    roots: Diff<int>,
    resolutions: Diff<Resolution>,
    citations: seq<Put<Citation>>,
    chunks: seq<Put<SetRows>>,
    chunkEmbeddings: seq<Put<map<Key, int>>>,
    zones: seq<Put<SetRows>>,
    decisionZones: seq<Put<Option<int>>>,
    post: Db)

  /** `documents` and `official_api_responses`: upserts, then deletes with their cascades. */
  function ApplyBase(db: Db, p: Package): Db {
    var d1 := db.(documents := UpsertAll(db.documents, p.documents.upserts));
    var d2 := DeleteDocuments(d1, p.documents.deletes);
    var d3 := d2.(responses := UpsertAll(d2.responses, p.responses.upserts));
    DeleteResponses(d3, p.responses.deletes)
  }

  /** `graph_edges`, `legi_metadata_roots` and the citation tables. */
  function ApplyLinks(db: Db, p: Package): Option<Db> {
    var docs, responses := db.documents.Keys, db.responses.Keys;
    match UpsertChecked(db.edges, p.edges, e => EdgeRefers(e, docs))
    case None => None
    case Some(edges) =>
      match UpsertChecked(db.resolutions, p.resolutions.upserts, r => ResolutionRefers(r, responses))
      case None => None
      case Some(resolutions) =>
        match UpsertChecked(db.citations, p.citations, c => CitationRefers(c, docs, responses))
        case None => None
        case Some(citations) =>
          Some(db.(edges := edges,
                   roots := DeleteAll(UpsertAll(db.roots, p.roots.upserts), p.roots.deletes),
                   resolutions := DeleteAll(resolutions, p.resolutions.deletes),
                   citations := citations))
  }

  /** The replace-sets. */
  function ApplySets(db: Db, p: Package): Option<Db> {
    var docs := db.documents.Keys;
    match ReplaceAll(db.chunks, docs, p.chunks)
    case None => None
    case Some(wide) =>
      match ReplaceAllEmbeddings(wide, p.chunkEmbeddings)
      case None => None
      case Some(chunks) =>
        match ReplaceAll(db.zones, docs, p.zones)
        case None => None
        case Some(zones) =>
          match ReplaceDecisionZones(db.decisionZones, docs, p.decisionZones)
          case None => None
          case Some(decisionZones) =>
            Some(db.(chunks := chunks, zones := zones, decisionZones := decisionZones))
  }

  /** `apply_incremental_files`, in the manifest's apply order. */
  function ApplyFiles(db: Db, p: Package): Option<Db> {
    match ApplyLinks(ApplyBase(db, p), p)
    case None => None
    case Some(linked) => ApplySets(linked, p)
  }

  /** `apply_incremental`: the files, then the postconditions; a rejected package changes nothing. */
  function ApplyPackage(db: Db, p: Package): Option<Db> {
    match ApplyFiles(db, p)
    case None => None
    case Some(after) => if after == p.post then Some(after) else None
  }
}
