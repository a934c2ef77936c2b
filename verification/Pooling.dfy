/** From chunk-level candidates to scored documents: every retriever's candidates are reduced to distinct
    documents, the union of them is judged, and each retriever is scored against that pool. */
module Pooling {
  import opened Ndcg

  /** The distinct non-empty ids, in order of first occurrence. */
  function Unique(uids: seq<string>): seq<string> {
    if uids == [] then []
    else
      var before := Unique(uids[..|uids| - 1]);
      var last := uids[|uids| - 1];
      if last == "" || last in before then before else before + [last]
  }

  function UidsOf(documents: seq<string>, uidOf: string -> string): seq<string> {
    seq(|documents|, i requires 0 <= i < |documents| => uidOf(documents[i]))
  }

  function FirstOf(s: seq<string>, n: nat): seq<string> {
    if |s| > n then s[..n] else s
  }

  lemma {:induction false} UniqueGrows(uids: seq<string>, n: nat)
    requires n <= |uids|
    ensures Unique(uids[..n]) <= Unique(uids)
    decreases |uids|
  {
    if n == |uids| {
      assert uids[..n] == uids;
    } else {
      var m := |uids| - 1;
      UniqueGrows(uids[..m], n);
      assert uids[..m][..n] == uids[..n];
    }
  }

  lemma EnoughFound(uids: seq<string>, n: nat, limit: nat)
    requires n <= |uids| && |Unique(uids[..n])| == limit
    ensures Unique(uids[..n]) == FirstOf(Unique(uids), limit)
  {
    UniqueGrows(uids, n);
  }

  /** `dedupe_to_docs`: the limit is looked at only after a document has been added, so even a limit of zero or
      less lets one through. */
  method DedupeToDocs(documents: seq<string>, uidOf: string -> string, k: int) returns (docs: seq<string>)
    ensures docs == FirstOf(Unique(UidsOf(documents, uidOf)), if k > 1 then k else 1)
  {
    var seen: set<string> := {};
    ghost var uids := UidsOf(documents, uidOf);
    docs := [];
    for i := 0 to |documents|
      invariant docs == Unique(uids[..i])
      invariant forall u :: u in seen <==> u in docs
      invariant docs == [] || |docs| < k
    {
      assert uids[..i + 1][..i] == uids[..i];
      var uid := uidOf(documents[i]);
      assert uids[i] == uid;
      if uid != "" && uid !in seen {
        seen := seen + {uid};
        docs := docs + [uid];
        assert docs == Unique(uids[..i + 1]);
        if |docs| >= k {
          EnoughFound(uids, i + 1, if k > 1 then k else 1);
          return;
        }
      }
    }
    assert uids[..|documents|] == uids;
  }

  /** Adding one retriever's documents to the pool, keeping those it already has. */
  method AddToPool(pool: seq<string>, docs: seq<string>) returns (r: seq<string>)
    requires Unique(pool) == pool && "" !in docs
    ensures r == Unique(pool + docs)
  {
    r := pool;
    assert pool + docs[..0] == pool;
    for i := 0 to |docs|
      invariant r == Unique(pool + docs[..i])
    {
      assert (pool + docs[..i + 1])[..|pool| + i] == pool + docs[..i];
      if docs[i] !in r {
        r := r + [docs[i]];
      }
    }
    assert docs[..|docs|] == docs;
  }

  predicate NoRepeats(s: seq<string>) {
    forall i, j | 0 <= i < j < |s| :: s[i] != s[j]
  }

  lemma {:induction false} UniqueIs(uids: seq<string>)
    ensures NoRepeats(Unique(uids))
    ensures forall u :: u in Unique(uids) <==> u in uids && u != ""
  {
    if uids != [] {
      UniqueIs(uids[..|uids| - 1]);
      assert uids == uids[..|uids| - 1] + [uids[|uids| - 1]];
    }
  }

  /** Where an id first occurs. */
  predicate FirstAt(uids: seq<string>, u: string, i: nat) {
    i < |uids| && uids[i] == u && u !in uids[..i]
  }

  /** The distinct ids stand in the order in which they first occur. */
  lemma {:induction false} UniqueInOrder(uids: seq<string>, a: nat, b: nat, i: nat, j: nat)
    requires a < b < |Unique(uids)| && FirstAt(uids, Unique(uids)[a], i) && FirstAt(uids, Unique(uids)[b], j)
    ensures i < j
  {
    var n := |uids| - 1;
    var u, v := Unique(uids)[a], Unique(uids)[b];
    UniqueIs(uids[..n]);
    FirstWithin(uids, u, i, n);
    FirstWithin(uids, v, j, n);
    if b < |Unique(uids[..n])| {
      UniqueInOrder(uids[..n], a, b, i, j);
    }
  }

  /** An id that occurs in a prefix first occurs there. */
  lemma FirstWithin(uids: seq<string>, u: string, i: nat, n: nat)
    requires FirstAt(uids, u, i) && n <= |uids|
    ensures u in uids[..n] <==> i < n
    ensures i < n ==> FirstAt(uids[..n], u, i)
  {
    if i < n {
      assert uids[..n][i] == u && uids[..n][..i] == uids[..i];
    } else {
      assert forall k | 0 <= k < n :: uids[..i][k] == uids[k];
    }
  }

  lemma {:induction false} UniqueFixes(s: seq<string>)
    requires NoRepeats(s) && "" !in s
    ensures Unique(s) == s
  {
    if s != [] {
      UniqueFixes(s[..|s| - 1]);
      assert s == s[..|s| - 1] + [s[|s| - 1]];
    }
  }

  /** The judged label of every document; those without one count as 0. */
  function Labels(docs: seq<string>, judged: map<string, nat>): seq<nat> {
    seq(|docs|, i requires 0 <= i < |docs| => if docs[i] in judged then judged[docs[i]] else 0)
  }

  lemma LabelsJoin(a: seq<string>, b: seq<string>, judged: map<string, nat>)
    ensures Labels(a + b, judged) == Labels(a, judged) + Labels(b, judged)
  {
  }

  /** Distinct documents of the pool have their labels among the pool's, each counted once. */
  lemma {:induction false} LabelsWithin(docs: seq<string>, pool: seq<string>, judged: map<string, nat>)
    requires NoRepeats(docs) && forall d | d in docs :: d in pool
    ensures multiset(Labels(docs, judged)) <= multiset(Labels(pool, judged))
    decreases |docs|
  {
    if docs != [] {
      var n := |docs| - 1;
      var d := docs[n];
      assert d in docs;
      var i :| 0 <= i < |pool| && pool[i] == d;
      var rest := pool[..i] + pool[i + 1..];
      assert pool == pool[..i] + [d] + pool[i + 1..];
      forall e | e in docs[..n] ensures e in rest {
        var j :| 0 <= j < n && docs[j] == e;
        assert e in pool;
      }
      LabelsWithin(docs[..n], rest, judged);
      OneLabelMore(docs[..n], [], d, judged);
      OneLabelMore(pool[..i], pool[i + 1..], d, judged);
      assert docs == docs[..n] + [d] + [];
      assert docs[..n] + [] == docs[..n];
    }
  }

  lemma OneLabelMore(a: seq<string>, b: seq<string>, d: string, judged: map<string, nat>)
    ensures multiset(Labels(a + [d] + b, judged)) ==
      multiset(Labels(a + b, judged)) + multiset{if d in judged then judged[d] else 0}
  {
    LabelsJoin(a + [d], b, judged);
    LabelsJoin(a, [d], judged);
    LabelsJoin(a, b, judged);
    assert Labels([d], judged) == [if d in judged then judged[d] else 0];
  }

  /** The pool of three retrievers. */
  function Pool(runs: (seq<string>, seq<string>, seq<string>)): seq<string> {
    Unique(runs.0 + runs.1 + runs.2)
  }

  /** What `dedupe_to_docs` hands over: distinct non-empty ids. */
  predicate Deduped(docs: seq<string>) {
    NoRepeats(docs) && "" !in docs
  }

  method BuildPool(bm25: seq<string>, dense: seq<string>, hybrid: seq<string>) returns (pool: seq<string>)
    requires Deduped(bm25) && Deduped(dense) && Deduped(hybrid)
    ensures pool == Pool((bm25, dense, hybrid)) && NoRepeats(pool)
  {
    pool := AddToPool([], bm25);
    UniqueIs([] + bm25);
    UniqueFixes(pool);
    assert [] + bm25 == bm25;
    UniqueFixes(bm25);
    pool := AddToPool(pool, dense);
    UniqueIs(bm25 + dense);
    UniqueFixes(pool);
    ghost var two := pool;
    pool := AddToPool(pool, hybrid);
    UniqueTwice(bm25 + dense, hybrid);
    UniqueIs(two + hybrid);
  }

  lemma {:induction false} UniqueTwice(a: seq<string>, b: seq<string>)
    ensures Unique(Unique(a) + b) == Unique(a + b)
  {
    if b == [] {
      UniqueIs(a);
      UniqueFixes(Unique(a));
      assert Unique(a) + b == Unique(a) && a + b == a;
    } else {
      var n := |b| - 1;
      UniqueTwice(a, b[..n]);
      assert (a + b)[..|a| + n] == a + b[..n];
      assert (Unique(a) + b)[..|Unique(a)| + n] == Unique(a) + b[..n];
    }
  }

  /** Every retriever's measure lies in [0, 1], whatever the candidates and the labels. */
  lemma EveryRetrieverBounded(
    runs: (seq<string>, seq<string>, seq<string>), run: seq<string>, judged: map<string, nat>, k: nat, d: nat -> real)
    requires Deduped(runs.0) && Deduped(runs.1) && Deduped(runs.2) && run in {runs.0, runs.1, runs.2} && Discount(d)
    ensures 0.0 <= NdcgAt(Labels(FirstOf(run, k), judged), Labels(Pool(runs), judged), k, d) <= 1.0
    ensures NdcgAt(Labels(FirstOf(run, k), judged), Labels(Pool(runs), judged), k, d) == 0.0 <==>
      forall u | u in FirstOf(run, k) :: u in judged ==> judged[u] == 0
  {
    var top := FirstOf(run, k);
    UniqueIs(runs.0 + runs.1 + runs.2);
    forall u | u in top ensures u in Pool(runs) {
      assert u in run;
    }
    LabelsWithin(top, Pool(runs), judged);
    assert Take(Labels(top, judged), k) == Labels(top, judged);
    ZeroLabels(top, judged);
    NdcgBounds(Labels(top, judged), Labels(Pool(runs), judged), k, d);
  }

  lemma ZeroLabels(docs: seq<string>, judged: map<string, nat>)
    ensures (forall i | 0 <= i < |docs| :: Labels(docs, judged)[i] == 0) <==> (forall u | u in docs :: u in judged ==> judged[u] == 0)
  {
    forall i | 0 <= i < |docs| ensures Labels(docs, judged)[i] == if docs[i] in judged then judged[docs[i]] else 0 {
    }
    if forall i | 0 <= i < |docs| :: Labels(docs, judged)[i] == 0 {
      forall u | u in docs && u in judged ensures judged[u] == 0 {
        var i :| 0 <= i < |docs| && docs[i] == u;
        assert Labels(docs, judged)[i] == 0;
      }
    }
  }
}
