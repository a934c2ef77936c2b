/** What the BM25 scores are, told without the formula that computes them, and what they do to a ranking. */
module Bm25Scores {
  import opened Ranking
  import opened Bm25

  // --- The statistics -----------------------------------------------------------------------------

  /** The documents that have the term. */
  function Having(docs: seq<Document>, term: string): set<int> {
    set i | 0 <= i < |docs| && term in docs[i].terms
  }

  /** A term has as many postings as documents have it. */
  lemma {:induction false} DocumentFrequency(docs: seq<Document>, term: string)
    ensures |PostingsOf(docs, term)| == |Having(docs, term)|
  {
    if docs == [] {
      assert Having(docs, term) == {};
    } else {
      DocumentFrequency(docs[..|docs| - 1], term);
      HavingMore(docs, term);
    }
  }

  lemma HavingMore(docs: seq<Document>, term: string)
    requires docs != []
    ensures var n := |docs| - 1;
      |Having(docs, term)| == |Having(docs[..n], term)| + if term in docs[n].terms then 1 else 0
  {
    var n := |docs| - 1;
    var before := Having(docs[..n], term);
    if term in docs[n].terms {
      assert Having(docs, term) == before + {n} && n !in before;
    } else {
      assert Having(docs, term) == before;
    }
  }

  function AllTerms(docs: seq<Document>): seq<string> {
    if docs == [] then [] else docs[0].terms + AllTerms(docs[1..])
  }

  /** The average length is that of all terms shared out over all documents. */
  lemma AverageIs(docs: seq<Document>)
    requires docs != []
    ensures AverageLength(docs) * |docs| as real == |AllTerms(docs)| as real
  {
    TotalIs(docs);
  }

  lemma {:induction false} TotalIs(docs: seq<Document>)
    ensures TotalLength(docs) == |AllTerms(docs)|
  {
    if docs != [] {
      var n := |docs| - 1;
      TotalIs(docs[..n]);
      TermsJoin(docs[..n], docs[n]);
      assert docs == docs[..n] + [docs[n]];
    }
  }

  lemma {:induction false} TermsJoin(docs: seq<Document>, d: Document)
    ensures |AllTerms(docs + [d])| == |AllTerms(docs)| + |d.terms|
  {
    if docs == [] {
      assert docs + [d] == [d];
    } else {
      TermsJoin(docs[1..], d);
      assert (docs + [d])[1..] == docs[1..] + [d];
    }
  }

  // --- The equation -------------------------------------------------------------------------------

  /** The score `s` of a term that a document of the length has so often, without a division:
      `s * (f * avg + k1 * ((1 - b) * avg + b * len)) == idf * f * (k1 + 1) * avg`. */
  predicate Scores(s: real, tuning: Tuning, idf: real, f: nat, len: nat, avg: real) {
    s * (f as real * avg + Damping(tuning, len, avg)) == idf * (tuning.k1 + 1.0) * avg * f as real
  }

  function Damping(tuning: Tuning, len: nat, avg: real): real {
    tuning.k1 * ((1.0 - tuning.b) * avg + tuning.b * len as real)
  }

  lemma WeightScores(tuning: Tuning, idf: real, f: nat, len: nat, avg: real)
    requires avg > 0.0 && f > 0
    ensures Scores(Weight(tuning, idf, f, len, avg), tuning, idf, f, len, avg)
  {
    var normal := len as real / avg;
    var k1, b, x := tuning.k1, tuning.b, f as real;
    Quotient(len as real, avg);
    Product(b, normal);
    Product(k1, 1.0 - b + b * normal);
    var d := x + k1 * (1.0 - b + b * normal);
    var w := Weight(tuning, idf, f, len, avg);
    assert w == idf * (x * (k1 + 1.0)) / d;
    Divided(idf * (x * (k1 + 1.0)), d);
    assert w * d == idf * (x * (k1 + 1.0));
    Undivided(k1, b, x, len as real, avg, normal);
    Multiplied(w, d, idf, x, k1, avg);
  }

  lemma Divided(a: real, d: real)
    requires d != 0.0
    ensures a / d * d == a
  {
  }

  lemma Undivided(k1: real, b: real, x: real, len: real, avg: real, normal: real)
    requires normal * avg == len
    ensures (x + k1 * (1.0 - b + b * normal)) * avg == x * avg + k1 * ((1.0 - b) * avg + b * len)
  {
    calc {
      (x + k1 * (1.0 - b + b * normal)) * avg;
      x * avg + k1 * ((1.0 - b + b * normal) * avg);
      { assert (1.0 - b + b * normal) * avg == (1.0 - b) * avg + b * (normal * avg); }
      x * avg + k1 * ((1.0 - b) * avg + b * len);
    }
  }

  lemma Multiplied(w: real, d: real, idf: real, x: real, k1: real, avg: real)
    requires w * d == idf * (x * (k1 + 1.0))
    ensures w * (d * avg) == idf * (k1 + 1.0) * avg * x
  {
    calc {
      w * (d * avg);
      (w * d) * avg;
      idf * (x * (k1 + 1.0)) * avg;
      idf * (k1 + 1.0) * avg * x;
    }
  }

  /** The score of a term that a document has satisfies the equation for the term's frequency in it, its length,
      the average length, and the weight of a term that so many documents have. */
  lemma TermScores(docs: seq<Document>, tuning: Tuning, term: string, i: int)
    requires 0 <= i < |docs| && term in docs[i].terms
    ensures AverageLength(docs) > 0.0
    ensures Scores(TermScore(docs, tuning, term, i), tuning, IdfOf(docs, tuning, term),
                   multiset(docs[i].terms)[term], |docs[i].terms|, AverageLength(docs))
  {
    LengthPositive(docs, i);
    DocumentFrequency(docs, term);
    WeightScores(tuning, IdfOf(docs, tuning, term), Frequency(docs[i], term), |docs[i].terms|, AverageLength(docs));
  }

  function IdfOf(docs: seq<Document>, tuning: Tuning, term: string): real {
    tuning.idf(|docs|, |Having(docs, term)|)
  }

  // --- What follows from it -----------------------------------------------------------------------

  lemma Sign(u: real, v: real)
    requires v > 0.0 && u * v > 0.0
    ensures u > 0.0
  {
  }

  lemma Positives(u: real, v: real)
    requires u > 0.0 && v > 0.0
    ensures u * v > 0.0
  {
  }

  /** Two scores with the same numerator per occurrence. */
  lemma Compare(s: real, f: real, k: real, t: real, g: real, m: real, a: real, c: real)
    requires s * (f * a + k) == c * f && t * (g * a + m) == c * g && f * a + k > 0.0 && g * a + m > 0.0
    requires c > 0.0 && f * m > g * k
    ensures s > t
  {
    var d, e, z := f * a + k, g * a + m, f * m - g * k;
    assert f * e - g * d == z by {
      assert f * e == f * (g * a) + f * m && g * d == g * (f * a) + g * k;
      assert f * (g * a) == g * (f * a);
    }
    Crossed(s, d, t, e, c, f, g);
    Positives(c, z);
    Positives(d, e);
    Sign(s - t, d * e);
  }

  lemma Crossed(s: real, d: real, t: real, e: real, c: real, f: real, g: real)
    requires s * d == c * f && t * e == c * g
    ensures (s - t) * (d * e) == c * (f * e - g * d)
  {
    calc {
      (s - t) * (d * e);
      (s * d) * e - (t * e) * d;
      (c * f) * e - (c * g) * d;
      c * (f * e - g * d);
    }
  }

  lemma DampingIs(tuning: Tuning, len: nat, avg: real)
    requires avg > 0.0
    ensures Damping(tuning, len, avg) >= 0.0
    ensures tuning.k1 > 0.0 && len > 0 ==> Damping(tuning, len, avg) > 0.0
  {
    var mixed := (1.0 - tuning.b) * avg + tuning.b * len as real;
    assert Damping(tuning, len, avg) == tuning.k1 * mixed;
    Mixed(tuning.b, avg, len as real);
    Product(tuning.k1, mixed);
    if tuning.k1 > 0.0 && len > 0 {
      Positives(tuning.k1, mixed);
    }
  }

  lemma Mixed(b: real, x: real, y: real)
    requires 0.0 <= b <= 1.0 && x > 0.0 && y >= 0.0
    ensures (1.0 - b) * x + b * y >= 0.0
    ensures y > 0.0 ==> (1.0 - b) * x + b * y > 0.0
  {
    if b < 1.0 {
      Positives(1.0 - b, x);
      Product(b, y);
    } else {
      assert 1.0 - b == 0.0 && (1.0 - b) * x == 0.0;
    }
  }

  lemma DampingGrows(tuning: Tuning, len: nat, longer: nat, avg: real)
    requires tuning.k1 > 0.0 && tuning.b > 0.0 && len < longer
    ensures Damping(tuning, len, avg) < Damping(tuning, longer, avg)
  {
    var p, l, m := (1.0 - tuning.b) * avg, len as real, longer as real;
    Positives(tuning.b, m - l);
    Distributed(tuning.b, m, l);
    var x, y := p + tuning.b * l, p + tuning.b * m;
    Positives(tuning.k1, y - x);
    Distributed(tuning.k1, y, x);
  }

  lemma Distributed(a: real, x: real, y: real)
    ensures a * (x - y) == a * x - a * y
  {
  }

  function Numerator(docs: seq<Document>, tuning: Tuning, term: string): real {
    IdfOf(docs, tuning, term) * (tuning.k1 + 1.0) * AverageLength(docs)
  }

  /** Everything that the score of a term has in common over the documents that have it. */
  lemma Parts(docs: seq<Document>, tuning: Tuning, term: string, i: int)
    requires 0 <= i < |docs| && term in docs[i].terms
    ensures AverageLength(docs) > 0.0 && |docs[i].terms| > 0 && multiset(docs[i].terms)[term] > 0
    ensures var f, avg := multiset(docs[i].terms)[term] as real, AverageLength(docs);
      && f * avg + Damping(tuning, |docs[i].terms|, avg) > 0.0
      && TermScore(docs, tuning, term, i) * (f * avg + Damping(tuning, |docs[i].terms|, avg)) ==
           Numerator(docs, tuning, term) * f
    ensures IdfOf(docs, tuning, term) > 0.0 ==> Numerator(docs, tuning, term) > 0.0
  {
    TermScores(docs, tuning, term, i);
    DampingIs(tuning, |docs[i].terms|, AverageLength(docs));
    Positives(multiset(docs[i].terms)[term] as real, AverageLength(docs));
    NumeratorIs(docs, tuning, term);
  }

  lemma NumeratorIs(docs: seq<Document>, tuning: Tuning, term: string)
    requires AverageLength(docs) > 0.0
    ensures IdfOf(docs, tuning, term) > 0.0 ==> Numerator(docs, tuning, term) > 0.0
  {
    if IdfOf(docs, tuning, term) > 0.0 {
      Positives(IdfOf(docs, tuning, term), tuning.k1 + 1.0);
      Positives(IdfOf(docs, tuning, term) * (tuning.k1 + 1.0), AverageLength(docs));
    }
  }

  /** Of two documents of the same length the one that has the term more often scores more. */
  lemma FrequencyDecides(docs: seq<Document>, tuning: Tuning, term: string, i: int, j: int)
    requires 0 <= i < |docs| && 0 <= j < |docs| && term in docs[i].terms && term in docs[j].terms
    requires tuning.k1 > 0.0 && IdfOf(docs, tuning, term) > 0.0
    requires |docs[i].terms| == |docs[j].terms| && multiset(docs[i].terms)[term] > multiset(docs[j].terms)[term]
    ensures TermScore(docs, tuning, term, i) > TermScore(docs, tuning, term, j)
  {
    Parts(docs, tuning, term, i);
    Parts(docs, tuning, term, j);
    var avg, f, g := AverageLength(docs), multiset(docs[i].terms)[term] as real, multiset(docs[j].terms)[term] as real;
    var k := Damping(tuning, |docs[i].terms|, avg);
    DampingIs(tuning, |docs[i].terms|, avg);
    Positives(f - g, k);
    assert (f - g) * k == f * k - g * k;
    Compare(TermScore(docs, tuning, term, i), f, k, TermScore(docs, tuning, term, j), g, k, avg, Numerator(docs, tuning, term));
  }

  /** Of two documents that have the term equally often the shorter one scores more. */
  lemma LengthDecides(docs: seq<Document>, tuning: Tuning, term: string, i: int, j: int)
    requires 0 <= i < |docs| && 0 <= j < |docs| && term in docs[i].terms && term in docs[j].terms
    requires tuning.k1 > 0.0 && tuning.b > 0.0 && IdfOf(docs, tuning, term) > 0.0
    requires |docs[i].terms| < |docs[j].terms| && multiset(docs[i].terms)[term] == multiset(docs[j].terms)[term]
    ensures TermScore(docs, tuning, term, i) > TermScore(docs, tuning, term, j)
  {
    Parts(docs, tuning, term, i);
    Parts(docs, tuning, term, j);
    var avg, f := AverageLength(docs), multiset(docs[i].terms)[term] as real;
    var k, m := Damping(tuning, |docs[i].terms|, avg), Damping(tuning, |docs[j].terms|, avg);
    DampingGrows(tuning, |docs[i].terms|, |docs[j].terms|, avg);
    Positives(f, m - k);
    Distributed(f, m, k);
    Compare(TermScore(docs, tuning, term, i), f, k, TermScore(docs, tuning, term, j), f, m, avg, Numerator(docs, tuning, term));
  }

  /** However often a document has the term, it scores less than the term's weight times `k1 + 1`. */
  lemma Saturates(docs: seq<Document>, tuning: Tuning, term: string, i: int)
    requires 0 <= i < |docs| && term in docs[i].terms && tuning.k1 > 0.0 && IdfOf(docs, tuning, term) > 0.0
    ensures 0.0 < TermScore(docs, tuning, term, i) < IdfOf(docs, tuning, term) * (tuning.k1 + 1.0)
  {
    Parts(docs, tuning, term, i);
    var avg, f := AverageLength(docs), multiset(docs[i].terms)[term] as real;
    DampingIs(tuning, |docs[i].terms|, avg);
    Positives(IdfOf(docs, tuning, term), tuning.k1 + 1.0);
    Below(TermScore(docs, tuning, term, i), f, Damping(tuning, |docs[i].terms|, avg), avg,
          IdfOf(docs, tuning, term) * (tuning.k1 + 1.0));
  }

  lemma Below(s: real, f: real, k: real, a: real, u: real)
    requires s * (f * a + k) == u * a * f && f * a + k > 0.0 && k > 0.0 && u > 0.0 && f > 0.0 && a > 0.0
    ensures 0.0 < s < u
  {
    var d := f * a + k;
    Positives(u, k);
    assert u * d == u * a * f + u * k by {
      assert u * (f * a + k) == u * (f * a) + u * k;
    }
    assert (u - s) * d == u * d - s * d;
    Sign(u - s, d);
    Positives(u, a);
    Positives(u * a, f);
    Sign(s, d);
  }

  /** For terms that two documents of the same length have equally often, scores are as the terms' weights. */
  lemma WeightsScale(docs: seq<Document>, tuning: Tuning, t: string, i: int, u: string, j: int)
    requires 0 <= i < |docs| && 0 <= j < |docs| && t in docs[i].terms && u in docs[j].terms
    requires |docs[i].terms| == |docs[j].terms| && multiset(docs[i].terms)[t] == multiset(docs[j].terms)[u]
    ensures TermScore(docs, tuning, t, i) * IdfOf(docs, tuning, u) == TermScore(docs, tuning, u, j) * IdfOf(docs, tuning, t)
  {
    Factored(docs, tuning, t, i);
    Factored(docs, tuning, u, j);
    var f, len := multiset(docs[i].terms)[t], |docs[i].terms|;
    Proportional(TermScore(docs, tuning, t, i), TermScore(docs, tuning, u, j), Denominator(docs, tuning, f, len),
                 IdfOf(docs, tuning, t), IdfOf(docs, tuning, u), Share(docs, tuning, f));
  }

  function Denominator(docs: seq<Document>, tuning: Tuning, f: nat, len: nat): real {
    f as real * AverageLength(docs) + Damping(tuning, len, AverageLength(docs))
  }

  function Share(docs: seq<Document>, tuning: Tuning, f: nat): real {
    (tuning.k1 + 1.0) * AverageLength(docs) * f as real
  }

  lemma Factored(docs: seq<Document>, tuning: Tuning, term: string, i: int)
    requires 0 <= i < |docs| && term in docs[i].terms
    ensures var f, len := multiset(docs[i].terms)[term], |docs[i].terms|;
      Ratio(TermScore(docs, tuning, term, i), Denominator(docs, tuning, f, len), IdfOf(docs, tuning, term), Share(docs, tuning, f))
  {
    Parts(docs, tuning, term, i);
    Grouped(IdfOf(docs, tuning, term), tuning.k1 + 1.0, AverageLength(docs), multiset(docs[i].terms)[term] as real);
  }

  lemma Grouped(x: real, a: real, b: real, c: real)
    ensures x * a * b * c == x * (a * b * c)
  {
  }

  predicate Ratio(s: real, d: real, x: real, z: real) {
    s * d == x * z && d > 0.0
  }

  lemma Proportional(s: real, r: real, d: real, x: real, y: real, z: real)
    requires Ratio(s, d, x, z) && Ratio(r, d, y, z)
    ensures s * y == r * x
  {
    assert (s * y - r * x) * d == (s * d) * y - (r * d) * x;
    assert (x * z) * y == (y * z) * x;
    if s * y != r * x {
      NotZero(s * y - r * x, d);
    }
  }

  lemma NotZero(u: real, d: real)
    requires u != 0.0 && d > 0.0
    ensures u * d != 0.0
  {
  }

  // --- The ranking --------------------------------------------------------------------------------

  predicate DistinctIds(docs: seq<Document>) {
    forall i, j | 0 <= i < j < |docs| :: docs[i].docId != docs[j].docId
  }

  /** What `rank` answers. */
  function RankOf(docs: seq<Document>, tuning: Tuning, query: seq<string>, limit: nat): seq<int> {
    Ranked(DirectScores(docs, Weigher(docs, tuning), query), IdOf(docs), limit)
  }

  /** What the ranking says of two documents: the second is never listed without the first before it. */
  predicate Outranks(docs: seq<Document>, r: seq<int>, i: int, j: int)
    requires 0 <= i < |docs| && 0 <= j < |docs|
  {
    docs[j].docId in r ==> Precedes(r, docs[i].docId, docs[j].docId)
  }

  /** A document's score is the sum over the query's terms, taken with their repeats, of what each scores. */
  lemma {:induction false} ScoresAddUp(docs: seq<Document>, tuning: Tuning, query: seq<string>, more: seq<string>, i: int)
    requires 0 <= i < |docs|
    ensures var w := Weigher(docs, tuning);
      && DirectScore(w, query + more, i) == DirectScore(w, query, i) + DirectScore(w, more, i)
      && forall t :: DirectScore(w, [t], i) == TermScore(docs, tuning, t, i)
  {
    var w := Weigher(docs, tuning);
    forall t ensures DirectScore(w, [t], i) == TermScore(docs, tuning, t, i) {
      assert DirectScore(w, [t][..0], i) == 0.0;
    }
    if more == [] {
      assert query + more == query;
    } else {
      var n := |more| - 1;
      ScoresAddUp(docs, tuning, query, more[..n], i);
      assert (query + more)[..|query| + n] == query + more[..n];
    }
  }

  /** Of two documents that share a term with the query the one with the larger score stands first, and on equal
      scores the one with the smaller id; both are listed if the limit allows. */
  lemma BetterStandsFirst(docs: seq<Document>, tuning: Tuning, query: seq<string>, limit: nat, i: int, j: int)
    requires 0 <= i < |docs| && 0 <= j < |docs| && DistinctIds(docs) && Shares(docs[i], query) && Shares(docs[j], query)
    requires var x, y := DirectScore(Weigher(docs, tuning), query, i), DirectScore(Weigher(docs, tuning), query, j);
      x > y || (x == y && docs[i].docId < docs[j].docId)
    ensures Outranks(docs, RankOf(docs, tuning, query, limit), i, j)
    ensures limit >= |docs| ==> docs[j].docId in RankOf(docs, tuning, query, limit)
  {
    var scores := DirectScores(docs, Weigher(docs, tuning), query);
    AtMostAll(scores.Keys, |docs|);
    EarlierComesFirst(scores, IdOf(docs), i, j, limit);
  }

  lemma {:induction false} AtMostAll(keys: set<int>, n: nat)
    requires forall k | k in keys :: 0 <= k < n
    ensures |keys| <= n
  {
    if n == 0 {
      forall k ensures k !in keys {
      }
    } else {
      var fewer := keys - {n - 1};
      AtMostAll(fewer, n - 1);
      assert keys == fewer || keys == fewer + {n - 1};
    }
  }

  /** For a query of one term: more often comes before less often, shorter before longer. */
  lemma OneTermRanks(docs: seq<Document>, tuning: Tuning, term: string, limit: nat, i: int, j: int)
    requires 0 <= i < |docs| && 0 <= j < |docs| && DistinctIds(docs) && term in docs[i].terms && term in docs[j].terms
    requires tuning.k1 > 0.0 && IdfOf(docs, tuning, term) > 0.0
    requires var f, g := multiset(docs[i].terms)[term], multiset(docs[j].terms)[term];
      || (|docs[i].terms| == |docs[j].terms| && f > g)
      || (|docs[i].terms| < |docs[j].terms| && f == g && tuning.b > 0.0)
    ensures Outranks(docs, RankOf(docs, tuning, [term], limit), i, j)
  {
    if |docs[i].terms| == |docs[j].terms| {
      FrequencyDecides(docs, tuning, term, i, j);
    } else {
      LengthDecides(docs, tuning, term, i, j);
    }
    ScoresAddUp(docs, tuning, [], [], i);
    ScoresAddUp(docs, tuning, [], [], j);
    assert term in [term];
    BetterStandsFirst(docs, tuning, [term], limit, i, j);
  }

  /** A document with the rarer of two terms comes before one of the same length that has the commoner one as
      often, however the query orders them. */
  lemma RareBeforeCommon(docs: seq<Document>, tuning: Tuning, query: seq<string>, rare: string, common: string, limit: nat, i: int, j: int)
    requires 0 <= i < |docs| && 0 <= j < |docs| && DistinctIds(docs)
    requires query == [rare, common] || query == [common, rare]
    requires rare in docs[i].terms && common !in docs[i].terms && common in docs[j].terms && rare !in docs[j].terms
    requires |docs[i].terms| == |docs[j].terms| && multiset(docs[i].terms)[rare] == multiset(docs[j].terms)[common]
    requires tuning.k1 > 0.0 && IdfOf(docs, tuning, rare) > IdfOf(docs, tuning, common) > 0.0
    ensures Outranks(docs, RankOf(docs, tuning, query, limit), i, j)
  {
    TwoTerms(docs, tuning, query, rare, common, i);
    TwoTerms(docs, tuning, query, rare, common, j);
    WeightsScale(docs, tuning, rare, i, common, j);
    Saturates(docs, tuning, common, j);
    Larger(TermScore(docs, tuning, rare, i), TermScore(docs, tuning, common, j), IdfOf(docs, tuning, rare), IdfOf(docs, tuning, common));
    assert rare in query && common in query;
    BetterStandsFirst(docs, tuning, query, limit, i, j);
  }

  lemma TwoTerms(docs: seq<Document>, tuning: Tuning, query: seq<string>, t: string, u: string, i: int)
    requires 0 <= i < |docs| && (query == [t, u] || query == [u, t])
    ensures DirectScore(Weigher(docs, tuning), query, i) == TermScore(docs, tuning, t, i) + TermScore(docs, tuning, u, i)
  {
    ScoresAddUp(docs, tuning, [query[0]], [query[1]], i);
    assert [query[0]] + [query[1]] == query;
  }

  lemma Larger(s: real, r: real, x: real, y: real)
    requires s * y == r * x && x > y > 0.0 && r > 0.0
    ensures s > r
  {
    Positives(r, x - y);
    assert (s - r) * y == r * (x - y);
    Sign(s - r, y);
  }
}
