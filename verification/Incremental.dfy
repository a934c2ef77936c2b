/** The incremental builder: the scopes of an outbox window are merged to one action each, and the rows are
    read again from the producer's current tables. */
module Incremental {
  import opened Wrappers
  import opened Replica
  import opened ReplicaLaws
  import opened SortedKeys

  datatype Table =
    | Documents | Responses | Roots | Resolutions | Citations
    | Chunks | ChunkEmbeddings | ZoneUnits | ZoneUnitEmbeddings | DecisionZones
    | Unknown(name: string)

  /** One outbox row: it says which scope changed, not how. */
  datatype Scope = Scope(table: Table, key: Key)

  /** The keys touched, by kind of action. */
  datatype Touched = Touched(
    documents: set<Key>, responses: set<Key>, roots: set<Key>, resolutions: set<Key>, citations: set<Key>,
    chunks: set<Key>, embeddings: set<Key>, zones: set<Key>, decisionZones: set<Key>)
  {
    /** Widest operation wins: a touched document has its whole chunk set replaced. */
    function WideChunks(): set<Key> {
      chunks + documents
    }

    /** Only these documents have nothing but their embeddings replaced. */
    function NarrowChunks(): set<Key> {
      embeddings - WideChunks()
    }
  }

  function KeysIn(scopes: seq<Scope>, tables: set<Table>): set<Key> {
    if scopes == [] then {}
    else
      var last := scopes[|scopes| - 1];
      KeysIn(scopes[..|scopes| - 1], tables) + if last.table in tables then {last.key} else {}
  }

  function Coalesced(scopes: seq<Scope>): Touched {
    Touched(
      KeysIn(scopes, {Documents}), KeysIn(scopes, {Responses}), KeysIn(scopes, {Roots}),
      KeysIn(scopes, {Resolutions}), KeysIn(scopes, {Citations}), KeysIn(scopes, {Chunks}),
      KeysIn(scopes, {ChunkEmbeddings}), KeysIn(scopes, {ZoneUnits, ZoneUnitEmbeddings}),
      KeysIn(scopes, {DecisionZones}))
  }

  /** Recording one scope. */
  function Touch(t: Touched, scope: Scope): Touched {
    var key := scope.key;
    match scope.table
    case Documents => t.(documents := t.documents + {key})
    case Responses => t.(responses := t.responses + {key})
    case Roots => t.(roots := t.roots + {key})
    case Resolutions => t.(resolutions := t.resolutions + {key})
    case Citations => t.(citations := t.citations + {key})
    case Chunks => t.(chunks := t.chunks + {key})
    case ChunkEmbeddings => t.(embeddings := t.embeddings + {key})
    case ZoneUnits | ZoneUnitEmbeddings => t.(zones := t.zones + {key})
    case DecisionZones => t.(decisionZones := t.decisionZones + {key})
    case Unknown(_) => t
  }

  /** The coalescing loop; an outbox row for any other table is an error. */
  method Coalesce(scopes: seq<Scope>) returns (r: Option<Touched>)
    ensures r == if exists i :: 0 <= i < |scopes| && scopes[i].table.Unknown? then None else Some(Coalesced(scopes))
  {
    var t := Touched({}, {}, {}, {}, {}, {}, {}, {}, {});
    for i := 0 to |scopes|
      invariant forall j | 0 <= j < i :: !scopes[j].table.Unknown?
      invariant t == Coalesced(scopes[..i])
    {
      if scopes[i].table.Unknown? {
        return None;
      }
      assert scopes[..i + 1][..i] == scopes[..i];
      OneMore(scopes[..i + 1]);
      t := Touch(t, scopes[i]);
    }
    assert scopes[..|scopes|] == scopes;
    r := Some(t);
  }

  lemma OneMore(scopes: seq<Scope>)
    requires scopes != []
    ensures Coalesced(scopes) == Touch(Coalesced(scopes[..|scopes| - 1]), scopes[|scopes| - 1])
  {
  }

  /** What is built depends only on which scopes occur, not on their order or on repetitions. */
  lemma OrderDoesNotMatter(a: seq<Scope>, b: seq<Scope>)
    requires forall s: Scope :: s in a <==> s in b
    ensures Coalesced(a) == Coalesced(b)
  {
    forall tables: set<Table> ensures KeysIn(a, tables) == KeysIn(b, tables) {
      forall k: Key ensures k in KeysIn(a, tables) <==> k in KeysIn(b, tables) {
        KeyOccurs(a, tables, k);
        KeyOccurs(b, tables, k);
      }
    }
  }

  lemma {:induction false} KeyOccurs(scopes: seq<Scope>, tables: set<Table>, k: Key)
    ensures k in KeysIn(scopes, tables) <==> exists s :: s in scopes && s.table in tables && s.key == k
  {
    if scopes != [] {
      var n := |scopes| - 1;
      KeyOccurs(scopes[..n], tables, k);
      assert scopes == scopes[..n] + [scopes[n]];
    }
  }

  // --- Reading the current rows ---------------------------------------------------------------

  /** The rows that still exist, in key order. */
  function Present<V>(t: map<Key, V>, keys: seq<Key>): seq<Put<V>> {
    if keys == [] then []
    else
      var k := keys[|keys| - 1];
      Present(t, keys[..|keys| - 1]) + if k in t then [Put(k, t[k])] else []
  }

  /** The keys whose row has vanished. */
  function Vanished<V>(t: map<Key, V>, keys: seq<Key>): seq<Key> {
    if keys == [] then []
    else
      var k := keys[|keys| - 1];
      Vanished(t, keys[..|keys| - 1]) + if k in t then [] else [k]
  }

  function DiffOf<V>(t: map<Key, V>, keys: set<Key>): Diff<V> {
    Diff(Present(t, Sorted(keys)), Vanished(t, Sorted(keys)))
  }

  /** The upserts and deletes of one base table, streamed key by key. */
  method ReadBase<V>(t: map<Key, V>, keys: set<Key>) returns (d: Diff<V>)
    ensures d == DiffOf(t, keys)
  {
    var sorted := Sorted(keys);
    var upserts: seq<Put<V>>, deletes: seq<Key> := [], [];
    for i := 0 to |sorted|
      invariant upserts == Present(t, sorted[..i]) && deletes == Vanished(t, sorted[..i])
    {
      assert sorted[..i + 1][..i] == sorted[..i];
      if sorted[i] in t {
        upserts := upserts + [Put(sorted[i], t[sorted[i]])];
      } else {
        deletes := deletes + [sorted[i]];
      }
    }
    assert sorted[..|sorted|] == sorted;
    d := Diff(upserts, deletes);
  }

  /** The edges that start at a document, in key order. */
  function EdgesFrom(edges: map<Key, Edge>, doc: Key): seq<Put<Edge>> {
    Present(edges, Sorted(set k | k in edges && edges[k].from == doc))
  }

  function EdgesOf(edges: map<Key, Edge>, docs: seq<Key>): seq<Put<Edge>> {
    if docs == [] then [] else EdgesOf(edges, docs[..|docs| - 1]) + EdgesFrom(edges, docs[|docs| - 1])
  }

  function CitationsFrom(citations: map<Key, Citation>, doc: Key): seq<Put<Citation>> {
    Present(citations, Sorted(set k | k in citations && citations[k].decision == doc))
  }

  function CitationsOf(citations: map<Key, Citation>, docs: seq<Key>): seq<Put<Citation>> {
    if docs == [] then [] else CitationsOf(citations, docs[..|docs| - 1]) + CitationsFrom(citations, docs[|docs| - 1])
  }

  method ReadLinks(hi: Db, t: Touched) returns (edges: seq<Put<Edge>>, citations: seq<Put<Citation>>)
    ensures edges == EdgesOf(hi.edges, Sorted(t.documents))
    ensures citations == CitationsOf(hi.citations, Sorted(t.citations))
  {
    edges, citations := [], [];
    var docs := Sorted(t.documents);
    for i := 0 to |docs|
      invariant edges == EdgesOf(hi.edges, docs[..i])
    {
      assert docs[..i + 1][..i] == docs[..i];
      edges := edges + EdgesFrom(hi.edges, docs[i]);
    }
    assert docs[..|docs|] == docs;
    var decisions := Sorted(t.citations);
    for i := 0 to |decisions|
      invariant citations == CitationsOf(hi.citations, decisions[..i])
    {
      assert decisions[..i + 1][..i] == decisions[..i];
      citations := citations + CitationsFrom(hi.citations, decisions[i]);
    }
    assert decisions[..|decisions|] == decisions;
  }

  /** A touched document that no longer exists; deleting it clears its chunks, so their set is skipped. */
  predicate Skipped(hi: Db, t: Touched, doc: Key) {
    doc in t.documents && doc !in hi.documents
  }

  function SetsWhere(hi: Db, t: Touched, docs: seq<Key>): seq<Put<SetRows>> {
    if docs == [] then []
    else
      var doc := docs[|docs| - 1];
      SetsWhere(hi, t, docs[..|docs| - 1]) + if Skipped(hi, t, doc) then [] else [Put(doc, SetOf(hi.chunks, doc))]
  }

  function EmbeddingSets(h: Derived, docs: seq<Key>): seq<Put<map<Key, int>>> {
    seq(|docs|, i requires 0 <= i < |docs| => Put(docs[i], SetOf(h, docs[i]).embeddings))
  }

  function ZoneSets(zones: map<Key, int>, docs: seq<Key>): seq<Put<Option<int>>> {
    seq(|docs|, i requires 0 <= i < |docs| => Put(docs[i], if docs[i] in zones then Some(zones[docs[i]]) else None))
  }

  method ReadChunkSets(hi: Db, t: Touched) returns (wide: seq<Put<SetRows>>, narrow: seq<Put<map<Key, int>>>)
    ensures wide == SetsWhere(hi, t, Sorted(t.WideChunks()))
    ensures narrow == EmbeddingSets(hi.chunks, Sorted(t.NarrowChunks()))
  {
    wide, narrow := [], [];
    var docs := Sorted(t.WideChunks());
    for i := 0 to |docs|
      invariant wide == SetsWhere(hi, t, docs[..i])
    {
      assert docs[..i + 1][..i] == docs[..i];
      if !Skipped(hi, t, docs[i]) {
        wide := wide + [Put(docs[i], SetOf(hi.chunks, docs[i]))];
      }
    }
    assert docs[..|docs|] == docs;
    var rest := Sorted(t.NarrowChunks());
    for i := 0 to |rest|
      invariant narrow == EmbeddingSets(hi.chunks, rest[..i])
    {
      narrow := narrow + [Put(rest[i], SetOf(hi.chunks, rest[i]).embeddings)];
    }
    assert rest[..|rest|] == rest;
  }

  method ReadZoneSets(hi: Db, t: Touched) returns (zones: seq<Put<SetRows>>, decisions: seq<Put<Option<int>>>)
    ensures zones == SetsOf(hi.zones, Sorted(t.zones))
    ensures decisions == ZoneSets(hi.decisionZones, Sorted(t.decisionZones))
  {
    zones, decisions := [], [];
    var docs := Sorted(t.zones);
    for i := 0 to |docs|
      invariant zones == SetsOf(hi.zones, docs[..i])
    {
      zones := zones + [Put(docs[i], SetOf(hi.zones, docs[i]))];
    }
    assert docs[..|docs|] == docs;
    var rest := Sorted(t.decisionZones);
    for i := 0 to |rest|
      invariant decisions == ZoneSets(hi.decisionZones, rest[..i])
    {
      decisions := decisions + [Put(rest[i], if rest[i] in hi.decisionZones then Some(hi.decisionZones[rest[i]]) else None)];
    }
    assert rest[..|rest|] == rest;
  }

  /** The package for a window: `hi` is the snapshot, `t` the merged scopes; the postconditions are digests of
      the snapshot's tables. */
  function PackageOf(hi: Db, t: Touched): Package {
    Package(
      DiffOf(hi.documents, t.documents),
      DiffOf(hi.responses, t.responses),
      EdgesOf(hi.edges, Sorted(t.documents)),
      DiffOf(hi.roots, t.roots),
      DiffOf(hi.resolutions, t.resolutions),
      CitationsOf(hi.citations, Sorted(t.citations)),
      SetsWhere(hi, t, Sorted(t.WideChunks())),
      EmbeddingSets(hi.chunks, Sorted(t.NarrowChunks())),
      SetsOf(hi.zones, Sorted(t.zones)),
      ZoneSets(hi.decisionZones, Sorted(t.decisionZones)),
      hi)
  }

  /** The payload part of `build_incremental_inner`. */
  method Build(hi: Db, scopes: seq<Scope>) returns (p: Option<Package>)
    ensures p == if exists i :: 0 <= i < |scopes| && scopes[i].table.Unknown? then None
                 else Some(PackageOf(hi, Coalesced(scopes)))
  {
    var merged := Coalesce(scopes);
    if merged == None {
      return None;
    }
    var t := merged.value;
    var documents := ReadBase(hi.documents, t.documents);
    var responses := ReadBase(hi.responses, t.responses);
    var roots := ReadBase(hi.roots, t.roots);
    var resolutions := ReadBase(hi.resolutions, t.resolutions);
    var edges, citations := ReadLinks(hi, t);
    var wide, narrow := ReadChunkSets(hi, t);
    var zones, decisions := ReadZoneSets(hi, t);
    p := Some(Package(documents, responses, edges, roots, resolutions, citations, wide, narrow, zones, decisions, hi));
  }
}
