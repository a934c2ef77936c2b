/** The retrieval measures of `external-benchmarks/bsard_benchmark.py`: recall, success, reciprocal rank and
    nDCG of the first `k` documents, averaged over the questions.  The discount is any positive function of
    the rank that falls strictly, as one over the logarithm of the rank does. */
module Evaluation {
  import opened Wrappers
  import opened SortedKeys
  import Ndcg
  import opened Ranking
  import opened Fusion

  datatype Query = Query(id: int, relevant: seq<int>)

  /** What one question gets. */
  datatype Score = Score(recall: real, best: Option<nat>, reciprocal: real, ndcg: real)

  datatype Summary = Summary(recall: real, success: real, mrr: real, ndcg: real, count: nat, misses: seq<int>)

  ghost predicate Falls(d: nat -> real) {
    (forall i: nat :: d(i) > 0.0) && forall i: nat, j: nat | i < j :: d(i) > d(j)
  }

  function AsReal(n: nat): real {
    n as real
  }

  function Dcg(relevance: seq<nat>, d: nat -> real): real {
    Ndcg.Dcg(relevance, AsReal, d)
  }

  function Ones(n: nat): seq<nat> {
    seq(n, i => 1)
  }

  function IdealDcg(relevantCount: nat, d: nat -> real): real {
    if relevantCount == 0 then 1.0 else Dcg(Ones(relevantCount), d)
  }

  function Relevance(ranking: seq<int>, relevant: set<int>): seq<nat> {
    seq(|ranking|, i requires 0 <= i < |ranking| => if ranking[i] in relevant then 1 else 0)
  }

  /** The rank, from 1, of the first relevant document. */
  function FirstRank(ranking: seq<int>, relevant: set<int>): (best: Option<nat>)
    ensures best.Some? ==> 1 <= best.value <= |ranking|
  {
    if ranking == [] then None
    else
      var n := |ranking| - 1;
      var earlier := FirstRank(ranking[..n], relevant);
      if earlier.Some? then earlier else if ranking[n] in relevant then Some(n + 1) else None
  }

  function Retrieved(ranking: seq<int>, relevant: set<int>): set<int> {
    relevant * Elements(ranking)
  }

  function Ideal(relevant: set<int>, k: nat): nat {
    if |relevant| < k then |relevant| else k
  }

  function AtLeastOne(n: nat): nat {
    if n == 0 then 1 else n
  }

  function RankingOf(rankings: map<int, seq<int>>, query: Query, k: nat): seq<int> {
    Take(if query.id in rankings then rankings[query.id] else [], k)
  }

  function ScoreRanking(ranking: seq<int>, relevant: set<int>, k: nat, d: nat -> real): Score
    requires IdealDcg(Ideal(relevant, k), d) != 0.0
  {
    var best := FirstRank(ranking, relevant);
    Score(|Retrieved(ranking, relevant)| as real / AtLeastOne(|relevant|) as real,
          best,
          if best.Some? then 1.0 / best.value as real else 0.0,
          Dcg(Relevance(ranking, relevant), d) / IdealDcg(Ideal(relevant, k), d))
  }

  ghost function ScoreOf(rankings: map<int, seq<int>>, query: Query, k: nat, d: nat -> real): Score
    requires Falls(d)
  {
    IdealIsPositive(Ideal(Elements(query.relevant), k), d);
    ScoreRanking(RankingOf(rankings, query, k), Elements(query.relevant), k, d)
  }

  function Sum(s: seq<real>): real {
    if s == [] then 0.0 else Sum(s[..|s| - 1]) + s[|s| - 1]
  }

  function Average(s: seq<real>): real {
    Sum(s) / AtLeastOne(|s|) as real
  }

  function Succeeded(best: Option<nat>): real {
    if best.Some? then 1.0 else 0.0
  }

  /** The questions without a relevant document among the first `k`. */
  ghost function Missed(queries: seq<Query>, scores: seq<Score>): seq<int>
    requires |queries| == |scores|
  {
    if queries == [] then []
    else
      var n := |queries| - 1;
      Missed(queries[..n], scores[..n]) + if scores[n].best.None? then [queries[n].id] else []
  }

  ghost function Scores(queries: seq<Query>, rankings: map<int, seq<int>>, k: nat, d: nat -> real): seq<Score>
    requires Falls(d)
  {
    seq(|queries|, i requires 0 <= i < |queries| => ScoreOf(rankings, queries[i], k, d))
  }

  ghost function Recalls(s: seq<Score>): seq<real> {
    seq(|s|, i requires 0 <= i < |s| => s[i].recall)
  }

  ghost function Successes(s: seq<Score>): seq<real> {
    seq(|s|, i requires 0 <= i < |s| => Succeeded(s[i].best))
  }

  ghost function Reciprocals(s: seq<Score>): seq<real> {
    seq(|s|, i requires 0 <= i < |s| => s[i].reciprocal)
  }

  ghost function Ndcgs(s: seq<Score>): seq<real> {
    seq(|s|, i requires 0 <= i < |s| => s[i].ndcg)
  }

  ghost function Evaluated(queries: seq<Query>, rankings: map<int, seq<int>>, k: nat, d: nat -> real): Summary
    requires Falls(d)
  {
    var s := Scores(queries, rankings, k, d);
    var misses := Missed(queries, s);
    Summary(Average(Recalls(s)), Average(Successes(s)), Average(Reciprocals(s)), Average(Ndcgs(s)), |queries|,
            if |misses| > 25 then misses[..25] else misses)
  }

  // --- One question ---------------------------------------------------------------------------

  lemma {:induction false} OnesGrow(a: nat, b: nat, d: nat -> real)
    requires Falls(d) && a <= b
    ensures 0.0 <= Dcg(Ones(a), d) <= Dcg(Ones(b), d)
    ensures a < b ==> Dcg(Ones(a), d) < Dcg(Ones(b), d)
    decreases b
  {
    if b > 0 {
      assert Ones(b)[..b - 1] == Ones(b - 1);
      OnesGrow(if a < b then a else b - 1, b - 1, d);
    }
  }

  lemma IdealIsPositive(n: nat, d: nat -> real)
    requires Falls(d)
    ensures IdealDcg(n, d) > 0.0
  {
    if n > 0 {
      OnesGrow(0, n, d);
    }
  }

  predicate Binary(x: seq<nat>) {
    forall i | 0 <= i < |x| :: x[i] <= 1
  }

  function Hits(x: seq<nat>): nat {
    if x == [] then 0 else Hits(x[..|x| - 1]) + x[|x| - 1]
  }

  /** The first `n` places are hits. */
  predicate Leads(x: seq<nat>, n: nat) {
    n <= |x| && forall i | 0 <= i < n :: x[i] == 1
  }

  lemma {:induction false} LeadersAreHits(x: seq<nat>, n: nat)
    requires Binary(x)
    ensures Hits(x) <= |x|
    ensures Leads(x, n) ==> n <= Hits(x)
  {
    if x != [] {
      var m := |x| - 1;
      LeadersAreHits(x[..m], if n > m then m else n);
    }
  }

  lemma LeadsBehind(before: seq<nat>, x: seq<nat>, j: nat)
    requires |x| == |before| + 1 && x[|before|] == 1 && forall i | 0 <= i < |before| :: x[i] == before[i]
    ensures j <= |before| ==> (Leads(x, j) <==> Leads(before, j))
    ensures Leads(x, |x|) <==> Leads(before, |before|)
  {
  }

  lemma LeadsMore(before: seq<nat>, x: seq<nat>, h: nat)
    requires h <= |before| && !Leads(before, h + 1) && x == before + [1]
    ensures Leads(x, h + 1) <==> h == |before| && Leads(before, h)
  {
    LeadsBehind(before, x, h + 1);
  }

  predicate GainsAsFirst(x: seq<nat>, d: nat -> real) {
    var ideal := Dcg(Ones(Hits(x)), d);
    0.0 <= Dcg(x, d) <= ideal && (Dcg(x, d) == ideal <==> Leads(x, Hits(x))) && (Dcg(x, d) > 0.0 <==> Hits(x) > 0)
  }

  lemma OneHitMore(before: seq<nat>, d: nat -> real)
    requires Binary(before) && Falls(d) && GainsAsFirst(before, d)
    ensures GainsAsFirst(before + [1], d)
  {
    var x, n, h := before + [1], |before|, Hits(before);
    LeadersAreHits(before, h + 1);
    LeadsMore(before, x, h);
    assert x[..n] == before;
    assert Ones(h + 1)[..h] == Ones(h);
    assert Dcg(Ones(h + 1), d) == Dcg(Ones(h), d) + d(h);
    assert Dcg(x, d) == Dcg(before, d) + d(n);
  }

  /** So many hits gain at most what they gain in the first places, and as much only there. */
  lemma {:induction false} HitsGain(x: seq<nat>, d: nat -> real)
    requires Binary(x) && Falls(d)
    ensures GainsAsFirst(x, d)
  {
    if x != [] {
      var n := |x| - 1;
      HitsGain(x[..n], d);
      if x[n] == 1 {
        assert x == x[..n] + [1];
        OneHitMore(x[..n], d);
      } else {
        LeadersAreHits(x[..n], 0);
        assert Dcg(x, d) == Dcg(x[..n], d);
      }
    }
  }

  lemma RetrievedMore(before: seq<int>, doc: int, relevant: set<int>)
    ensures |Retrieved(before + [doc], relevant)| ==
      |Retrieved(before, relevant)| + if doc in relevant && doc !in before then 1 else 0
  {
    assert Elements(before + [doc]) == Elements(before) + {doc} by {
      assert (before + [doc])[..|before|] == before;
      forall y | y in Elements(before) + {doc} ensures y in Elements(before + [doc]) {
        assert y in before + [doc];
      }
    }
    var found := Retrieved(before, relevant);
    assert doc in before <==> doc in Elements(before);
    if doc in relevant && doc !in before {
      assert Retrieved(before + [doc], relevant) == found + {doc} && doc !in found;
    } else {
      assert Retrieved(before + [doc], relevant) == found;
    }
  }

  lemma HitsMore(before: seq<int>, doc: int, relevant: set<int>)
    ensures Hits(Relevance(before + [doc], relevant)) == Hits(Relevance(before, relevant)) + if doc in relevant then 1 else 0
  {
    var more := Relevance(before + [doc], relevant);
    assert more[..|before|] == Relevance(before, relevant);
    assert more[|before|] == if doc in relevant then 1 else 0;
  }

  lemma {:induction false} HitsAreRetrieved(ranking: seq<int>, relevant: set<int>)
    requires NoRepeats(ranking)
    ensures Hits(Relevance(ranking, relevant)) == |Retrieved(ranking, relevant)|
  {
    if ranking != [] {
      var n := |ranking| - 1;
      HitsAreRetrieved(ranking[..n], relevant);
      assert ranking == ranking[..n] + [ranking[n]] && ranking[n] !in ranking[..n];
      RetrievedMore(ranking[..n], ranking[n], relevant);
      HitsMore(ranking[..n], ranking[n], relevant);
    }
  }

  lemma {:induction false} FirstRankIs(ranking: seq<int>, relevant: set<int>)
    ensures var best := FirstRank(ranking, relevant);
      && (best.Some? ==> 1 <= best.value <= |ranking| && ranking[best.value - 1] in relevant &&
                         forall i | 0 <= i < best.value - 1 :: ranking[i] !in relevant)
      && (best.None? ==> forall i | 0 <= i < |ranking| :: ranking[i] !in relevant)
  {
    if ranking != [] {
      FirstRankIs(ranking[..|ranking| - 1], relevant);
    }
  }

  /** Every measure of a question lies in [0, 1]; all are 0 together; and each has its own perfect case. */
  predicate WellScored(s: Score, ranking: seq<int>, relevant: set<int>, k: nat) {
    && 0.0 <= s.recall <= 1.0 && 0.0 <= s.reciprocal <= Succeeded(s.best) && 0.0 <= s.ndcg <= 1.0
    && (s.best.Some? <==> exists i | 0 <= i < |ranking| :: ranking[i] in relevant)
    && (s.best.Some? <==> s.recall > 0.0) && (s.best.Some? <==> s.reciprocal > 0.0) && (s.best.Some? <==> s.ndcg > 0.0)
    && (s.recall == 1.0 <==> relevant != {} && relevant <= Elements(ranking))
    && (s.reciprocal == 1.0 <==> ranking != [] && ranking[0] in relevant)
    && (s.ndcg == 1.0 <==> Perfect(ranking, relevant, k))
  }

  /** As many of the first documents as possible are relevant, and there is one at all. */
  predicate Perfect(ranking: seq<int>, relevant: set<int>, k: nat) {
    0 < Ideal(relevant, k) <= |ranking| && forall i | 0 <= i < Ideal(relevant, k) :: ranking[i] in relevant
  }

  lemma RecallBounds(ranking: seq<int>, relevant: set<int>)
    ensures var r := |Retrieved(ranking, relevant)| as real / AtLeastOne(|relevant|) as real;
      && 0.0 <= r <= 1.0
      && (r == 1.0 <==> relevant != {} && relevant <= Elements(ranking))
      && (r > 0.0 <==> exists i | 0 <= i < |ranking| :: ranking[i] in relevant)
  {
    var found := Retrieved(ranking, relevant);
    SubsetSize(found, relevant);
    Ndcg.Ratio(|found| as real, AtLeastOne(|relevant|) as real);
    if i :| 0 <= i < |ranking| && ranking[i] in relevant {
      assert ranking[i] in found;
    }
    if |found| > 0 {
      var x := Member(found);
      assert x in Elements(ranking);
    }
    assert relevant <= Elements(ranking) <==> found == relevant;
  }

  lemma {:induction false} SubsetSize(a: set<int>, b: set<int>)
    requires a <= b
    ensures |a| <= |b| && (|a| == |b| <==> a == b)
  {
    assert b == a + (b - a) && |b| == |a| + |b - a|;
  }

  lemma NdcgOfHits(ranking: seq<int>, relevant: set<int>, k: nat, d: nat -> real)
    requires Falls(d) && |ranking| <= k && NoRepeats(ranking)
    ensures IdealDcg(Ideal(relevant, k), d) > 0.0
    ensures var n := Dcg(Relevance(ranking, relevant), d) / IdealDcg(Ideal(relevant, k), d);
      && 0.0 <= n <= 1.0
      && (n == 1.0 <==> Perfect(ranking, relevant, k))
      && (n > 0.0 <==> Hits(Relevance(ranking, relevant)) > 0)
  {
    var x, m := Relevance(ranking, relevant), Ideal(relevant, k);
    IdealIsPositive(m, d);
    HitsGain(x, d);
    LeadersAreHits(x, m);
    HitsAreRetrieved(ranking, relevant);
    SubsetSize(Retrieved(ranking, relevant), relevant);
    OnesGrow(Hits(x), m, d);
    assert forall i | 0 <= i < |x| :: x[i] == 1 <==> ranking[i] in relevant;
    assert Perfect(ranking, relevant, k) <==> m > 0 && Leads(x, m);
    Ndcg.Ratio(Dcg(x, d), IdealDcg(m, d));
  }

  lemma ReciprocalBounds(rank: nat)
    requires rank >= 1
    ensures 0.0 < 1.0 / rank as real <= 1.0 && (1.0 / rank as real == 1.0 <==> rank == 1)
  {
    Ndcg.Ratio(1.0, rank as real);
  }

  lemma {:induction false} NoHits(ranking: seq<int>, relevant: set<int>)
    ensures Hits(Relevance(ranking, relevant)) > 0 <==> exists i | 0 <= i < |ranking| :: ranking[i] in relevant
  {
    if ranking != [] {
      var n := |ranking| - 1;
      NoHits(ranking[..n], relevant);
      assert Relevance(ranking, relevant)[..n] == Relevance(ranking[..n], relevant);
    }
  }

  lemma ScoreIsWell(ranking: seq<int>, relevant: set<int>, k: nat, d: nat -> real)
    requires Falls(d) && |ranking| <= k && NoRepeats(ranking)
    ensures IdealDcg(Ideal(relevant, k), d) > 0.0
    ensures WellScored(ScoreRanking(ranking, relevant, k, d), ranking, relevant, k)
  {
    RecallBounds(ranking, relevant);
    NdcgOfHits(ranking, relevant, k, d);
    NoHits(ranking, relevant);
    FirstRankIs(ranking, relevant);
    var best := FirstRank(ranking, relevant);
    if best.Some? {
      ReciprocalBounds(best.value);
    }
  }

  /** Repeats are not allowed for: a relevant document listed twice scores more than the ideal. */
  lemma RepeatsOverrun(doc: int, d: nat -> real)
    requires Falls(d)
    ensures Dcg(Relevance([doc, doc], {doc}), d) > IdealDcg(Ideal({doc}, 2), d)
  {
    assert Relevance([doc, doc], {doc}) == Ones(2);
    OnesGrow(1, 2, d);
  }

  // --- All questions --------------------------------------------------------------------------

  predicate Fractions(s: seq<real>) {
    forall i | 0 <= i < |s| :: 0.0 <= s[i] <= 1.0
  }

  predicate All(s: seq<real>, x: real) {
    forall i | 0 <= i < |s| :: s[i] == x
  }

  lemma {:induction false} SumBounds(s: seq<real>)
    requires Fractions(s)
    ensures 0.0 <= Sum(s) <= |s| as real
    ensures Sum(s) == |s| as real <==> All(s, 1.0)
    ensures Sum(s) == 0.0 <==> All(s, 0.0)
  {
    if s != [] {
      SumBounds(s[..|s| - 1]);
    }
  }

  lemma AverageBounds(s: seq<real>)
    requires Fractions(s)
    ensures 0.0 <= Average(s) <= 1.0
    ensures Average(s) == 1.0 <==> s != [] && All(s, 1.0)
    ensures Average(s) == 0.0 <==> All(s, 0.0)
  {
    SumBounds(s);
    Ndcg.Ratio(Sum(s), AtLeastOne(|s|) as real);
  }

  lemma {:induction false} SumsCompare(a: seq<real>, b: seq<real>)
    requires |a| == |b| && forall i | 0 <= i < |a| :: a[i] <= b[i]
    ensures Sum(a) <= Sum(b)
  {
    if a != [] {
      SumsCompare(a[..|a| - 1], b[..|b| - 1]);
    }
  }

  lemma AveragesCompare(a: seq<real>, b: seq<real>)
    requires |a| == |b| && forall i | 0 <= i < |a| :: a[i] <= b[i]
    ensures Average(a) <= Average(b)
  {
    SumsCompare(a, b);
  }

  lemma {:induction false} MissedIs(queries: seq<Query>, scores: seq<Score>)
    requires |queries| == |scores|
    ensures Missed(queries, scores) == [] <==> forall i | 0 <= i < |scores| :: scores[i].best.Some?
  {
    if queries != [] {
      MissedIs(queries[..|queries| - 1], scores[..|queries| - 1]);
    }
  }

  predicate Distinct(rankings: map<int, seq<int>>) {
    forall q | q in rankings :: NoRepeats(rankings[q])
  }

  predicate Proportioned(s: Score) {
    0.0 <= s.recall <= Succeeded(s.best) && 0.0 <= s.reciprocal <= Succeeded(s.best) && 0.0 <= s.ndcg <= Succeeded(s.best)
  }

  lemma AveragesBound(s: seq<Score>)
    requires forall i | 0 <= i < |s| :: Proportioned(s[i])
    ensures 0.0 <= Average(Recalls(s)) <= Average(Successes(s)) <= 1.0
    ensures 0.0 <= Average(Reciprocals(s)) <= Average(Successes(s))
    ensures 0.0 <= Average(Ndcgs(s)) <= Average(Successes(s))
  {
    AverageBounds(Recalls(s));
    AverageBounds(Successes(s));
    AverageBounds(Reciprocals(s));
    AverageBounds(Ndcgs(s));
    AveragesCompare(Recalls(s), Successes(s));
    AveragesCompare(Reciprocals(s), Successes(s));
    AveragesCompare(Ndcgs(s), Successes(s));
  }

  lemma AllSucceed(s: seq<Score>)
    ensures Average(Successes(s)) == 1.0 <==> s != [] && forall i | 0 <= i < |s| :: s[i].best.Some?
  {
    AverageBounds(Successes(s));
    assert forall i | 0 <= i < |s| :: Successes(s)[i] == 1.0 <==> s[i].best.Some?;
  }

  lemma AllPerfect(s: seq<Score>)
    requires forall i | 0 <= i < |s| :: 0.0 <= s[i].ndcg <= 1.0
    ensures Average(Ndcgs(s)) == 1.0 <==> s != [] && forall i | 0 <= i < |s| :: s[i].ndcg == 1.0
  {
    AverageBounds(Ndcgs(s));
    assert forall i | 0 <= i < |s| :: Ndcgs(s)[i] == s[i].ndcg;
  }

  predicate PerfectFor(rankings: map<int, seq<int>>, query: Query, k: nat) {
    Perfect(RankingOf(rankings, query, k), Elements(query.relevant), k)
  }

  lemma ScoreOfIsWell(rankings: map<int, seq<int>>, query: Query, k: nat, d: nat -> real)
    requires Falls(d) && Distinct(rankings)
    ensures var s := ScoreOf(rankings, query, k, d);
      Proportioned(s) && 0.0 <= s.ndcg <= 1.0 && (s.ndcg == 1.0 <==> PerfectFor(rankings, query, k))
  {
    ScoreIsWell(RankingOf(rankings, query, k), Elements(query.relevant), k, d);
  }

  /** For rankings without repeats all four averages lie in [0, 1], neither recall nor reciprocal rank nor nDCG
      exceeds success, nDCG is 1 exactly when every question is ranked perfectly, and the misses reported are
      empty exactly when every question succeeds. */
  lemma EvaluationBounds(queries: seq<Query>, rankings: map<int, seq<int>>, k: nat, d: nat -> real)
    requires Falls(d) && Distinct(rankings)
    ensures var e := Evaluated(queries, rankings, k, d);
      && 0.0 <= e.recall <= e.success <= 1.0 && 0.0 <= e.mrr <= e.success && 0.0 <= e.ndcg <= e.success
      && (e.misses == [] <==> queries == [] || e.success == 1.0)
      && (e.ndcg == 1.0 <==> queries != [] && forall i | 0 <= i < |queries| :: PerfectFor(rankings, queries[i], k))
  {
    var s := Scores(queries, rankings, k, d);
    forall i | 0 <= i < |s|
      ensures Proportioned(s[i]) && 0.0 <= s[i].ndcg <= 1.0 && (s[i].ndcg == 1.0 <==> PerfectFor(rankings, queries[i], k))
    {
      ScoreOfIsWell(rankings, queries[i], k, d);
    }
    MissedIs(queries, s);
    AveragesBound(s);
    AllSucceed(s);
    AllPerfect(s);
  }

  lemma OneMoreScore(queries: seq<Query>, s: seq<Score>, i: nat)
    requires i < |queries| == |s|
    ensures Recalls(s[..i + 1]) == Recalls(s[..i]) + [s[i].recall]
    ensures Successes(s[..i + 1]) == Successes(s[..i]) + [Succeeded(s[i].best)]
    ensures Reciprocals(s[..i + 1]) == Reciprocals(s[..i]) + [s[i].reciprocal]
    ensures Ndcgs(s[..i + 1]) == Ndcgs(s[..i]) + [s[i].ndcg]
    ensures Missed(queries[..i + 1], s[..i + 1]) ==
      Missed(queries[..i], s[..i]) + if s[i].best.None? then [queries[i].id] else []
  {
    assert queries[..i + 1][..i] == queries[..i] && s[..i + 1][..i] == s[..i];
  }

  /** What each measure of a question is: the part of the relevant documents that was retrieved, one over the rank of
      the first relevant document, and the part of the ideal gain. */
  predicate Measured(s: Score, r: seq<int>, relevant: set<int>, k: nat, d: nat -> real) {
    && Part(s.recall, |set doc | doc in relevant && doc in r| as real, AtLeastOne(|relevant|) as real)
    && (s.best.None? ==> s.reciprocal == 0.0 && forall i | 0 <= i < |r| :: r[i] !in relevant)
    && (s.best.Some? ==>
          && 1 <= s.best.value <= |r| && Part(s.reciprocal, 1.0, s.best.value as real)
          && r[s.best.value - 1] in relevant && forall i | 0 <= i < s.best.value - 1 :: r[i] !in relevant)
    && Part(s.ndcg, Dcg(Relevance(r, relevant), d), IdealDcg(Ideal(relevant, k), d))
  }

  /** `x` of `whole` is `part`. */
  predicate Part(x: real, part: real, whole: real) {
    x * whole == part
  }

  lemma QuotientIsPart(a: real, b: real)
    requires b > 0.0
    ensures Part(a / b, a, b)
  {
  }

  lemma MeasuresAre(rankings: map<int, seq<int>>, query: Query, k: nat, d: nat -> real)
    requires Falls(d)
    ensures Measured(ScoreOf(rankings, query, k, d), RankingOf(rankings, query, k), Elements(query.relevant), k, d)
  {
    IdealIsPositive(Ideal(Elements(query.relevant), k), d);
    RankingMeasures(RankingOf(rankings, query, k), Elements(query.relevant), k, d);
  }

  lemma RankingMeasures(r: seq<int>, relevant: set<int>, k: nat, d: nat -> real)
    requires IdealDcg(Ideal(relevant, k), d) > 0.0
    ensures Measured(ScoreRanking(r, relevant, k, d), r, relevant, k, d)
  {
    assert Retrieved(r, relevant) == set doc | doc in relevant && doc in r;
    QuotientIsPart(|Retrieved(r, relevant)| as real, AtLeastOne(|relevant|) as real);
    FirstRankIs(r, relevant);
    var best := FirstRank(r, relevant);
    if best.Some? {
      QuotientIsPart(1.0, best.value as real);
    }
    QuotientIsPart(Dcg(Relevance(r, relevant), d), IdealDcg(Ideal(relevant, k), d));
  }

  /** How many questions succeed. */
  ghost function Successful(s: seq<Score>): nat {
    if s == [] then 0 else Successful(s[..|s| - 1]) + if s[|s| - 1].best.Some? then 1 else 0
  }

  lemma {:induction false} SuccessesSum(s: seq<Score>)
    ensures Sum(Successes(s)) == Successful(s) as real
  {
    if s != [] {
      SuccessesSum(s[..|s| - 1]);
      assert Successes(s)[..|s| - 1] == Successes(s[..|s| - 1]);
    }
  }

  /** Where the missed questions stand. */
  ghost predicate MissesAre(at: seq<nat>, ids: seq<int>, queries: seq<Query>, s: seq<Score>)
    requires |queries| == |s|
  {
    && |at| == |ids| && (forall i, j | 0 <= i < j < |at| :: at[i] < at[j])
    && (forall i | 0 <= i < |at| :: at[i] < |s| && s[at[i]].best.None? && ids[i] == queries[at[i]].id)
    && forall j: nat | j < |s| && s[j].best.None? :: j in at
  }

  lemma {:induction false} MissedPlaces(queries: seq<Query>, s: seq<Score>) returns (at: seq<nat>)
    requires |queries| == |s|
    ensures MissesAre(at, Missed(queries, s), queries, s)
  {
    at := [];
    if queries != [] {
      var n := |queries| - 1;
      at := MissedPlaces(queries[..n], s[..n]);
      OneMoreMiss(at, Missed(queries[..n], s[..n]), queries, s);
      if s[n].best.None? {
        at := at + [n];
      }
    }
  }

  lemma OneMoreMiss(at: seq<nat>, ids: seq<int>, queries: seq<Query>, s: seq<Score>)
    requires |queries| == |s| > 0 && MissesAre(at, ids, queries[..|s| - 1], s[..|s| - 1])
    ensures var n := |s| - 1;
      if s[n].best.None? then MissesAre(at + [n], ids + [queries[n].id], queries, s) else MissesAre(at, ids, queries, s)
  {
    var n := |s| - 1;
    if s[n].best.None? {
      forall j: nat | j < |s| && s[j].best.None? ensures j in at + [n] {
        assert j < n ==> s[..n][j].best.None?;
      }
    } else {
      forall j: nat | j < |s| && s[j].best.None? ensures j in at {
        assert s[..n][j].best.None?;
      }
    }
  }

  /** Each measure averaged under its own name. */
  ghost predicate Averages(e: Summary, s: seq<Score>, n: real) {
    && Part(e.recall, Sum(Recalls(s)), n) && Part(e.mrr, Sum(Reciprocals(s)), n) && Part(e.ndcg, Sum(Ndcgs(s)), n)
    && Part(e.success, Successful(s) as real, n)
  }

  /** The questions without a relevant document among the first `k`, in their order, but no more than 25. */
  ghost predicate Misses(ids: seq<int>, queries: seq<Query>, s: seq<Score>)
    requires |queries| == |s|
  {
    exists at: seq<nat>, all: seq<int> :: MissesAre(at, all, queries, s) && ids == if |all| > 25 then all[..25] else all
  }

  /** The summary averages each measure over the questions and names the first ones missed. */
  lemma SummaryIs(queries: seq<Query>, rankings: map<int, seq<int>>, k: nat, d: nat -> real)
    requires Falls(d)
    ensures var e, s := Evaluated(queries, rankings, k, d), Scores(queries, rankings, k, d);
      e.count == |queries| && Averages(e, s, AtLeastOne(|queries|) as real) && Misses(e.misses, queries, s)
  {
    var s := Scores(queries, rankings, k, d);
    AveragesAre(s, Evaluated(queries, rankings, k, d));
    MissesNamed(queries, s);
  }

  lemma AveragesAre(s: seq<Score>, e: Summary)
    requires e.recall == Average(Recalls(s)) && e.success == Average(Successes(s))
    requires e.mrr == Average(Reciprocals(s)) && e.ndcg == Average(Ndcgs(s))
    ensures Averages(e, s, AtLeastOne(|s|) as real)
  {
    SuccessesSum(s);
    AverageIs(Recalls(s));
    AverageIs(Reciprocals(s));
    AverageIs(Ndcgs(s));
    AverageIs(Successes(s));
  }

  lemma MissesNamed(queries: seq<Query>, s: seq<Score>)
    requires |queries| == |s|
    ensures var all := Missed(queries, s); Misses(if |all| > 25 then all[..25] else all, queries, s)
  {
    var at := MissedPlaces(queries, s);
  }

  lemma AverageIs(s: seq<real>)
    ensures Part(Average(s), Sum(s), AtLeastOne(|s|) as real)
  {
    QuotientIsPart(Sum(s), AtLeastOne(|s|) as real);
  }

  method EvaluateRankings(queries: seq<Query>, rankings: map<int, seq<int>>, k: nat, d: nat -> real) returns (r: Summary)
    requires Falls(d)
    ensures r == Evaluated(queries, rankings, k, d)
  {
    var recalls, successes, reciprocals, ndcgs: seq<real>, misses := [], [], [], [], [];
    ghost var s := Scores(queries, rankings, k, d);
    for i := 0 to |queries|
      invariant recalls == Recalls(s[..i]) && successes == Successes(s[..i])
      invariant reciprocals == Reciprocals(s[..i]) && ndcgs == Ndcgs(s[..i])
      invariant misses == Missed(queries[..i], s[..i])
    {
      var score := ScoreQuery(rankings, queries[i], k, d);
      OneMoreScore(queries, s, i);
      recalls := recalls + [score.recall];
      successes := successes + [Succeeded(score.best)];
      reciprocals := reciprocals + [score.reciprocal];
      ndcgs := ndcgs + [score.ndcg];
      misses := misses + if score.best.None? then [queries[i].id] else [];
    }
    assert s[..|queries|] == s && queries[..|queries|] == queries;
    r := Summary(Average(recalls), Average(successes), Average(reciprocals), Average(ndcgs), |queries|,
                 if |misses| > 25 then misses[..25] else misses);
  }

  method ScoreQuery(rankings: map<int, seq<int>>, query: Query, k: nat, d: nat -> real) returns (score: Score)
    requires Falls(d)
    ensures score == ScoreOf(rankings, query, k, d)
  {
    IdealIsPositive(Ideal(Elements(query.relevant), k), d);
    score := ScoreRanking(RankingOf(rankings, query, k), Elements(query.relevant), k, d);
  }

  // --- The fused rankings are without repeats ---------------------------------------------------

  lemma {:induction false} FullSize(s: seq<int>)
    requires |Elements(s)| == |s|
    ensures NoRepeats(s)
  {
    if s != [] {
      var n := |s| - 1;
      assert s == s[..n] + [s[n]];
      assert Elements(s) == Elements(s[..n]) + {s[n]};
      ElementsFit(s[..n]);
      FullSize(s[..n]);
    }
  }

  lemma {:induction false} ElementsFit(s: seq<int>)
    ensures |Elements(s)| <= |s|
  {
    if s != [] {
      var n := |s| - 1;
      assert s == s[..n] + [s[n]];
      assert Elements(s) == Elements(s[..n]) + {s[n]};
      ElementsFit(s[..n]);
    }
  }

  lemma IdsOnce(scores: map<int, real>, sorted: seq<Entry>)
    requires |sorted| == |scores| && forall m | 0 <= m < |sorted| :: sorted[m].id in scores
    requires forall doc | doc in scores :: Entry(scores[doc], doc) in sorted
    ensures NoRepeats(Ids(sorted))
  {
    var ids := Ids(sorted);
    forall doc | doc in scores ensures doc in Elements(ids) {
      var i :| 0 <= i < |sorted| && sorted[i] == Entry(scores[doc], doc);
      assert ids[i] == doc;
    }
    assert Elements(ids) == scores.Keys;
    FullSize(ids);
  }

  /** A fused ranking lists no document twice, whatever was fused, so its measures are bounded. */
  lemma FusedOnce(lexical: seq<int>, dense: seq<int>, limit: nat, k: real)
    requires k >= 0.0
    ensures NoRepeats(Ranked(Fused(lexical, dense, k), x => x, limit))
  {
    var scores := Fused(lexical, dense, k);
    SortedHolds(scores);
    IdsOnce(scores, Sort(EntriesOf(scores, x => x, Sorted(scores.Keys))));
  }
}
