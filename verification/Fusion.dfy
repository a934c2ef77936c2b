/** Reciprocal rank fusion of a lexical and a dense ranking. */
module Fusion {
  import opened SortedKeys
  import opened Ranking

  /** What a ranking gives a document: one over the constant plus its rank, ranks counting from 1. */
  function Contribution(ranking: seq<int>, k: real, doc: int): real
    requires k >= 0.0
  {
    if ranking == [] then 0.0
    else
      var n := |ranking| - 1;
      Contribution(ranking[..n], k, doc) + if ranking[n] == doc then 1.0 / (k + (n + 1) as real) else 0.0
  }

  /** The scores after adding one ranking. */
  function Added(scores: map<int, real>, ranking: seq<int>, k: real): map<int, real>
    requires k >= 0.0
  {
    if ranking == [] then scores
    else
      var n := |ranking| - 1;
      var before := Added(scores, ranking[..n], k);
      var doc := ranking[n];
      before[doc := (if doc in before then before[doc] else 0.0) + 1.0 / (k + (n + 1) as real)]
  }

  function Fused(lexical: seq<int>, dense: seq<int>, k: real): map<int, real>
    requires k >= 0.0
  {
    Added(Added(map[], lexical, k), dense, k)
  }

  method AddRanking(scores: map<int, real>, ranking: seq<int>, k: real) returns (r: map<int, real>)
    requires k >= 0.0
    ensures r == Added(scores, ranking, k)
  {
    r := scores;
    for i := 0 to |ranking|
      invariant r == Added(scores, ranking[..i], k)
    {
      assert ranking[..i + 1][..i] == ranking[..i];
      var doc := ranking[i];
      r := r[doc := (if doc in r then r[doc] else 0.0) + 1.0 / (k + (i + 1) as real)];
    }
    assert ranking[..|ranking|] == ranking;
  }

  /** `hybrid_rankings` for one query. */
  method HybridRanking(lexical: seq<int>, dense: seq<int>, limit: nat, k: real) returns (r: seq<int>)
    requires k >= 0.0
    ensures r == Ranked(Fused(lexical, dense, k), x => x, limit)
  {
    var scores := AddRanking(map[], lexical, k);
    scores := AddRanking(scores, dense, k);
    r := RankItems(scores, x => x, limit);
  }

  // --- What the scores are --------------------------------------------------------------------

  lemma {:induction false} AddedIs(scores: map<int, real>, ranking: seq<int>, k: real, doc: int)
    requires k >= 0.0
    ensures doc in Added(scores, ranking, k) <==> doc in scores || doc in ranking
    ensures doc in Added(scores, ranking, k) ==>
      Added(scores, ranking, k)[doc] == (if doc in scores then scores[doc] else 0.0) + Contribution(ranking, k, doc)
    ensures doc !in ranking ==> Contribution(ranking, k, doc) == 0.0
  {
    if ranking != [] {
      AddedIs(scores, ranking[..|ranking| - 1], k, doc);
      assert ranking == ranking[..|ranking| - 1] + [ranking[|ranking| - 1]];
    }
  }

  lemma FusedIs(lexical: seq<int>, dense: seq<int>, k: real, doc: int)
    requires k >= 0.0
    ensures doc in Fused(lexical, dense, k) <==> doc in lexical || doc in dense
    ensures doc in Fused(lexical, dense, k) ==>
      Fused(lexical, dense, k)[doc] == Contribution(lexical, k, doc) + Contribution(dense, k, doc)
  {
    AddedIs(map[], lexical, k, doc);
    AddedIs(Added(map[], lexical, k), dense, k, doc);
  }

  /** Without repeats a ranking gives each of its documents exactly its own share. */
  lemma {:induction false} ContributionAt(ranking: seq<int>, k: real, i: nat)
    requires k >= 0.0 && NoRepeats(ranking) && i < |ranking|
    ensures Contribution(ranking, k, ranking[i]) == 1.0 / (k + (i + 1) as real)
  {
    var n := |ranking| - 1;
    if i < n {
      ContributionAt(ranking[..n], k, i);
    } else {
      AddedIs(map[], ranking[..n], k, ranking[n]);
      assert ranking[n] !in ranking[..n];
    }
  }

  lemma SharesFall(k: real, i: nat, j: nat)
    requires k >= 0.0 && i < j
    ensures 1.0 / (k + (i + 1) as real) > 1.0 / (k + (j + 1) as real) > 0.0
  {
    InverseFalls(k + (i + 1) as real, k + (j + 1) as real);
  }

  lemma InverseFalls(x: real, y: real)
    requires 0.0 < x < y
    ensures 1.0 / x > 1.0 / y > 0.0
  {
    var p, q := 1.0 / x, 1.0 / y;
    assert p * x == 1.0 && q * y == 1.0;
    PositiveFactor(q, y);
    assert (p - q) * (x * y) == y * (p * x) - x * (q * y) == y - x;
    PositiveFactor(p - q, x * y);
  }

  lemma PositiveFactor(u: real, v: real)
    requires v > 0.0 && u * v > 0.0
    ensures u > 0.0
  {
  }

  // --- Dominance ------------------------------------------------------------------------------

  /** Wherever `b` is ranked, `a` is ranked above it. */
  predicate Above(ranking: seq<int>, a: int, b: int) {
    forall j | 0 <= j < |ranking| && ranking[j] == b :: exists i | 0 <= i < j :: ranking[i] == a
  }

  lemma AboveGivesMore(ranking: seq<int>, k: real, a: int, b: int)
    requires k >= 0.0 && NoRepeats(ranking) && Above(ranking, a, b)
    ensures Contribution(ranking, k, a) >= Contribution(ranking, k, b) >= 0.0
    ensures b in ranking ==> Contribution(ranking, k, a) > Contribution(ranking, k, b)
    ensures b in ranking ==> a in ranking
  {
    if b in ranking {
      var j :| 0 <= j < |ranking| && ranking[j] == b;
      var i :| 0 <= i < j && ranking[i] == a;
      ContributionAt(ranking, k, i);
      ContributionAt(ranking, k, j);
      SharesFall(k, i, j);
    } else {
      AddedIs(map[], ranking, k, b);
      NotNegative(ranking, k, a);
    }
  }

  lemma {:induction false} NotNegative(ranking: seq<int>, k: real, doc: int)
    requires k >= 0.0
    ensures Contribution(ranking, k, doc) >= 0.0
  {
    if ranking != [] {
      NotNegative(ranking[..|ranking| - 1], k, doc);
      SharesFall(k, |ranking| - 1, |ranking|);
    }
  }

  /** If `a` ranks above `b` wherever `b` is ranked, and `b` is ranked at all, then every limit that keeps `b`
      keeps `a` before it. */
  lemma Dominance(lexical: seq<int>, dense: seq<int>, k: real, a: int, b: int, limit: nat)
    requires k >= 0.0 && NoRepeats(lexical) && NoRepeats(dense)
    requires Above(lexical, a, b) && Above(dense, a, b) && (b in lexical || b in dense)
    ensures var r := Ranked(Fused(lexical, dense, k), x => x, limit);
      && (b in r ==> Precedes(r, a, b))
      && (limit >= |Fused(lexical, dense, k)| ==> b in r)
  {
    var scores := Fused(lexical, dense, k);
    AboveGivesMore(lexical, k, a, b);
    AboveGivesMore(dense, k, a, b);
    FusedIs(lexical, dense, k, a);
    FusedIs(lexical, dense, k, b);
    assert a in scores && b in scores && scores[a] > scores[b];
    EarlierComesFirst(scores, x => x, a, b, limit);
  }

  /** The sorted list holds every scored key once, with its score. */
  lemma SortedHolds(scores: map<int, real>)
    ensures var sorted := Sort(EntriesOf(scores, x => x, Sorted(scores.Keys)));
      && |sorted| == |scores| && InOrder(sorted)
      && (forall m | 0 <= m < |sorted| :: sorted[m].id in scores && sorted[m].score == scores[sorted[m].id])
      && forall doc | doc in scores :: Entry(scores[doc], doc) in sorted
  {
    RankedHolds(scores, x => x);
  }
}
