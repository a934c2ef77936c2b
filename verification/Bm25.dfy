/** The BM25 index: scoring through postings is scoring every document directly.  Tokens are given; the
    inverse document frequency is an abstract function of the corpus size and the document frequency. */
module Bm25 {
  import opened SortedKeys
  import opened Ranking

  datatype Document = Document(docId: int, terms: seq<string>)
  datatype Posting = Posting(index: int, frequency: nat)

  /** The constructor's parameters, and the inverse document frequency. */
  datatype Settings = Settings(k1: real, b: real, idf: (nat, nat) -> real)

  /** The range that the two parameters are meant for; the defaults lie in it. */
  type Tuning = s: Settings | s.k1 >= 0.0 && 0.0 <= s.b <= 1.0 witness Settings(1.5, 0.75, (n, f) => 1.0)

  function Frequency(d: Document, term: string): nat {
    multiset(d.terms)[term]
  }

  /** The documents that have the term, in corpus order, with how often. */
  function PostingsOf(docs: seq<Document>, term: string): seq<Posting> {
    if docs == [] then []
    else
      var n := |docs| - 1;
      PostingsOf(docs[..n], term) + if term in docs[n].terms then [Posting(n, Frequency(docs[n], term))] else []
  }

  function TotalLength(docs: seq<Document>): nat {
    if docs == [] then 0 else TotalLength(docs[..|docs| - 1]) + |docs[|docs| - 1].terms|
  }

  function AverageLength(docs: seq<Document>): real {
    TotalLength(docs) as real / (if |docs| > 1 then |docs| else 1) as real
  }

  /** The weight of one occurrence of a query term in a document. */
  function Weight(tuning: Tuning, idf: real, frequency: nat, length: nat, average: real): real
    requires average > 0.0 && frequency > 0
  {
    var normal := length as real / average;
    assert tuning.k1 * (1.0 - tuning.b + tuning.b * normal) >= 0.0 by {
      Quotient(length as real, average);
      Product(tuning.b, normal);
      Product(tuning.k1, 1.0 - tuning.b + tuning.b * normal);
    }
    idf * (frequency as real * (tuning.k1 + 1.0)) / (frequency as real + tuning.k1 * (1.0 - tuning.b + tuning.b * normal))
  }

  lemma Product(a: real, b: real)
    requires a >= 0.0 && b >= 0.0
    ensures a * b >= 0.0
  {
  }

  lemma Quotient(a: real, b: real)
    requires a >= 0.0 && b > 0.0
    ensures a / b >= 0.0
  {
  }

  // --- Direct scoring -------------------------------------------------------------------------

  /** What one query term adds to a document's score. */
  function TermScore(docs: seq<Document>, tuning: Tuning, term: string, i: int): real
    requires 0 <= i < |docs|
  {
    if term in docs[i].terms then
      LengthPositive(docs, i);
      Weight(tuning, tuning.idf(|docs|, |PostingsOf(docs, term)|), Frequency(docs[i], term), |docs[i].terms|,
             AverageLength(docs))
    else 0.0
  }

  /** What a term adds to the document at an index. */
  function Weigher(docs: seq<Document>, tuning: Tuning): (string, int) -> real {
    (term, i) => if 0 <= i < |docs| then TermScore(docs, tuning, term, i) else 0.0
  }

  /** The weights of one term. */
  function For(weigh: (string, int) -> real, term: string): int -> real {
    i => weigh(term, i)
  }

  /** A document's score, summed over the query's terms with repeats. */
  function DirectScore(weigh: (string, int) -> real, query: seq<string>, i: int): real {
    if query == [] then 0.0
    else DirectScore(weigh, query[..|query| - 1], i) + weigh(query[|query| - 1], i)
  }

  predicate Shares(d: Document, query: seq<string>) {
    exists t | t in query :: t in d.terms
  }

  /** Every document that shares a term with the query, scored directly. */
  function DirectScores(docs: seq<Document>, weigh: (string, int) -> real, query: seq<string>): map<int, real> {
    map i: int | 0 <= i < |docs| && Shares(docs[i], query) :: DirectScore(weigh, query, i)
  }

  /** A corpus with a term in it has a positive average length, so nothing is divided by zero. */
  lemma {:induction false} LengthPositive(docs: seq<Document>, i: int)
    requires 0 <= i < |docs| && docs[i].terms != []
    ensures TotalLength(docs) > 0 && AverageLength(docs) > 0.0
  {
    var n := |docs| - 1;
    if i < n {
      LengthPositive(docs[..n], i);
    }
  }

  /** A posting is that of a document which has the term. */
  predicate IsPosting(p: Posting, docs: seq<Document>, term: string) {
    0 <= p.index < |docs| && term in docs[p.index].terms && p.frequency == Frequency(docs[p.index], term)
  }

  lemma {:induction false} PostingsAre(docs: seq<Document>, term: string)
    ensures forall j | 0 <= j < |PostingsOf(docs, term)| :: IsPosting(PostingsOf(docs, term)[j], docs, term)
    ensures forall i | 0 <= i < |docs| && term in docs[i].terms :: Posting(i, Frequency(docs[i], term)) in PostingsOf(docs, term)
    ensures forall j, k | 0 <= j < k < |PostingsOf(docs, term)| :: PostingsOf(docs, term)[j].index < PostingsOf(docs, term)[k].index
  {
    if docs != [] {
      var n := |docs| - 1;
      PostingsAre(docs[..n], term);
      var before := PostingsOf(docs[..n], term);
      forall j | 0 <= j < |before| ensures IsPosting(before[j], docs, term) {
        assert IsPosting(before[j], docs[..n], term);
      }
      forall i | 0 <= i < n && term in docs[i].terms ensures Posting(i, Frequency(docs[i], term)) in before {
        assert docs[..n][i] == docs[i];
      }
    }
  }

  lemma PostingHas(docs: seq<Document>, term: string, j: nat)
    requires j < |PostingsOf(docs, term)|
    ensures var p := PostingsOf(docs, term)[j];
      0 <= p.index < |docs| && term in docs[p.index].terms && p.frequency == Frequency(docs[p.index], term)
  {
  }

  // --- The index ------------------------------------------------------------------------------

  class BM25Index {
    const documents: seq<Document>
    const tuning: Tuning
    var docLengths: seq<nat>
    var postings: map<string, seq<Posting>>
    var averageLength: real
    var idf: map<string, real>

    ghost predicate Valid()
      reads this
    {
      && |docLengths| == |documents|
      && (forall i | 0 <= i < |documents| :: docLengths[i] == |documents[i].terms|)
      && averageLength == AverageLength(documents)
      && forall t :: IndexedAt(t)
    }

    /** The index has the term's postings and weight, if any document has the term. */
    ghost predicate IndexedAt(t: string)
      reads this
    {
      && (t in postings <==> PostingsOf(documents, t) != [])
      && (t in idf <==> t in postings)
      && (t in postings ==> postings[t] == PostingsOf(documents, t) && idf[t] == tuning.idf(|documents|, |postings[t]|))
    }

    constructor (documents: seq<Document>, tuning: Tuning)
      ensures Valid() && this.documents == documents && this.tuning == tuning
    {
      var p, f := PostAll(documents);
      var lengths, total := MeasureAll(documents);
      this.documents, this.tuning := documents, tuning;
      docLengths, postings := lengths, p;
      averageLength := total as real / (if |documents| > 1 then |documents| else 1) as real;
      idf := map t | t in f :: tuning.idf(|documents|, f[t]);
      new;
      forall t ensures IndexedAt(t) {
        assert PostedAt(p, f, documents, t);
      }
    }

    /** `rank`: add up the weights posting by posting, then sort what was touched. */
    method Rank(query: seq<string>, limit: nat) returns (r: seq<int>)
      requires Valid()
      ensures r == Ranked(DirectScores(documents, Weigher(documents, tuning), query), IdOf(documents), limit)
    {
      ghost var weigh := Weigher(documents, tuning);
      var scores: map<int, real> := map[];
      assert DirectScores(documents, weigh, query[..0]) == map[];
      for q := 0 to |query|
        invariant scores == DirectScores(documents, weigh, query[..q])
      {
        assert query[..q + 1][..q] == query[..q];
        assert IndexedAt(query[q]);
        if query[q] in idf {
          scores := AddTerm(scores, query[q]);
        }
        OneTermMore(documents, weigh, query[..q + 1]);
      }
      assert query[..|query|] == query;
      r := RankItems(scores, IdOf(documents), limit);
    }

    method AddTerm(scores: map<int, real>, term: string) returns (r: map<int, real>)
      requires Valid() && term in idf
      ensures r == AddPostings(scores, PostingsOf(documents, term), For(Weigher(documents, tuning), term))
    {
      ghost var w := For(Weigher(documents, tuning), term);
      assert IndexedAt(term);
      r := scores;
      var list := postings[term];
      for j := 0 to |list|
        invariant r == AddPostings(scores, list[..j], w)
      {
        var p := list[j];
        var weight := PostingWeight(term, j);
        OnePostingMore(scores, list, w, j);
        r := r[p.index := (if p.index in r then r[p.index] else 0.0) + weight];
      }
      assert list[..|list|] == list;
    }

    method PostingWeight(term: string, j: nat) returns (weight: real)
      requires Valid() && IndexedAt(term) && term in idf && j < |postings[term]|
      ensures weight == Weigher(documents, tuning)(term, postings[term][j].index)
    {
      var p := postings[term][j];
      PostingHas(documents, term, j);
      LengthPositive(documents, p.index);
      weight := Weight(tuning, idf[term], p.frequency, docLengths[p.index], averageLength);
    }
  }

  function IdOf(docs: seq<Document>): int -> int {
    i => if 0 <= i < |docs| then docs[i].docId else 0
  }

  method MeasureAll(docs: seq<Document>) returns (lengths: seq<nat>, total: nat)
    ensures |lengths| == |docs| && forall i | 0 <= i < |docs| :: lengths[i] == |docs[i].terms|
    ensures total == TotalLength(docs)
  {
    lengths, total := [], 0;
    for i := 0 to |docs|
      invariant |lengths| == i && forall j | 0 <= j < i :: lengths[j] == |docs[j].terms|
      invariant total == TotalLength(docs[..i])
    {
      assert docs[..i + 1][..i] == docs[..i];
      lengths, total := lengths + [|docs[i].terms|], total + |docs[i].terms|;
    }
    assert docs[..|docs|] == docs;
  }

  /** A term's postings and document frequency are those of the corpus. */
  predicate PostedAt(p: map<string, seq<Posting>>, f: map<string, nat>, docs: seq<Document>, t: string) {
    && (t in p <==> t in f) && (t in p <==> PostingsOf(docs, t) != [])
    && (t in p ==> p[t] == PostingsOf(docs, t) && f[t] == |p[t]|)
  }

  ghost predicate Posted(p: map<string, seq<Posting>>, f: map<string, nat>, docs: seq<Document>) {
    forall t :: PostedAt(p, f, docs, t)
  }

  method PostAll(docs: seq<Document>) returns (p: map<string, seq<Posting>>, f: map<string, nat>)
    ensures Posted(p, f, docs)
  {
    p, f := map[], map[];
    for i := 0 to |docs|
      invariant Posted(p, f, docs[..i])
    {
      assert docs[..i + 1][..i] == docs[..i];
      p, f := AddDocument(p, f, docs[..i + 1]);
    }
    assert docs[..|docs|] == docs;
  }

  /** Posting the last document, term by term in any order. */
  method AddDocument(postings: map<string, seq<Posting>>, frequency: map<string, nat>, docs: seq<Document>)
    returns (p: map<string, seq<Posting>>, f: map<string, nat>)
    requires docs != [] && Posted(postings, frequency, docs[..|docs| - 1])
    ensures Posted(p, f, docs)
  {
    var n := |docs| - 1;
    p, f := postings, frequency;
    var left := set t | t in docs[n].terms;
    while left != {}
      invariant forall t | t in left :: t in docs[n].terms
      invariant forall t :: PostedAt(p, f, Reached(docs, left, t), t)
      decreases left
    {
      ghost var some := Member(left);
      var t :| t in left;
      assert PostedAt(p, f, Reached(docs, left, t), t);
      ghost var oldP, oldF, oldLeft := p, f, left;
      p := p[t := (if t in p then p[t] else []) + [Posting(n, Frequency(docs[n], t))]];
      f := f[t := (if t in f then f[t] else 0) + 1];
      left := left - {t};
      forall u ensures PostedAt(p, f, Reached(docs, left, u), u) {
        assert PostedAt(oldP, oldF, Reached(docs, oldLeft, u), u);
        if u == t {
          assert PostingsOf(docs, t) == PostingsOf(docs[..n], t) + [Posting(n, Frequency(docs[n], t))];
        }
      }
    }
    forall t ensures PostedAt(p, f, docs, t) {
      assert PostedAt(p, f, Reached(docs, left, t), t);
    }
  }

  /** How far the corpus has been posted for a term while the last document is being added. */
  function Reached(docs: seq<Document>, left: set<string>, t: string): seq<Document>
    requires docs != []
  {
    if t in docs[|docs| - 1].terms && t !in left then docs else docs[..|docs| - 1]
  }

  /** The scores after the postings of a query term. */
  function AddPostings(scores: map<int, real>, list: seq<Posting>, w: int -> real): map<int, real> {
    if list == [] then scores
    else
      var before := AddPostings(scores, list[..|list| - 1], w);
      var i := list[|list| - 1].index;
      before[i := (if i in before then before[i] else 0.0) + w(i)]
  }

  lemma OnePostingMore(scores: map<int, real>, list: seq<Posting>, w: int -> real, j: nat)
    requires j < |list|
    ensures var before, i := AddPostings(scores, list[..j], w), list[j].index;
      AddPostings(scores, list[..j + 1], w) == before[i := (if i in before then before[i] else 0.0) + w(i)]
  {
    assert list[..j + 1][..j] == list[..j];
  }

  predicate Listed(list: seq<Posting>, i: int) {
    exists j | 0 <= j < |list| :: list[j].index == i
  }

  predicate Rising(list: seq<Posting>) {
    forall j, k | 0 <= j < k < |list| :: list[j].index < list[k].index
  }

  /** Each listed document gains its weight once, the others stay as they are. */
  lemma {:induction false} AddPostingsIs(scores: map<int, real>, list: seq<Posting>, w: int -> real, i: int)
    requires Rising(list)
    ensures var r := AddPostings(scores, list, w);
      && (i in r <==> i in scores || Listed(list, i))
      && (i in r ==> r[i] == (if i in scores then scores[i] else 0.0) + if Listed(list, i) then w(i) else 0.0)
  {
    if list != [] {
      var n := |list| - 1;
      AddPostingsIs(scores, list[..n], w, i);
    }
  }

  lemma ListedHave(docs: seq<Document>, term: string, i: int)
    ensures Listed(PostingsOf(docs, term), i) <==> 0 <= i < |docs| && term in docs[i].terms
    ensures Rising(PostingsOf(docs, term))
  {
    PostingsAre(docs, term);
    var list := PostingsOf(docs, term);
    if 0 <= i < |docs| && term in docs[i].terms {
      var j :| 0 <= j < |list| && list[j] == Posting(i, Frequency(docs[i], term));
    }
  }

  /** A term weighs nothing in a document that does not have it. */
  ghost predicate WeighsOnlyTerms(docs: seq<Document>, weigh: (string, int) -> real) {
    forall t, i | 0 <= i < |docs| && t !in docs[i].terms :: weigh(t, i) == 0.0
  }

  lemma {:induction false} UnsharedIsZero(docs: seq<Document>, weigh: (string, int) -> real, query: seq<string>, i: int)
    requires 0 <= i < |docs| && !Shares(docs[i], query) && WeighsOnlyTerms(docs, weigh)
    ensures DirectScore(weigh, query, i) == 0.0
  {
    if query != [] {
      UnsharedIsZero(docs, weigh, query[..|query| - 1], i);
    }
  }

  /** One query term more, directly and through the postings; a term without postings changes nothing. */
  lemma OneTermMore(docs: seq<Document>, weigh: (string, int) -> real, query: seq<string>)
    requires query != [] && WeighsOnlyTerms(docs, weigh)
    ensures var before, term := DirectScores(docs, weigh, query[..|query| - 1]), query[|query| - 1];
      DirectScores(docs, weigh, query) == AddPostings(before, PostingsOf(docs, term), For(weigh, term))
  {
    var n := |query| - 1;
    var before, term := DirectScores(docs, weigh, query[..n]), query[n];
    var now := DirectScores(docs, weigh, query);
    var added := AddPostings(before, PostingsOf(docs, term), For(weigh, term));
    forall i ensures (i in now <==> i in added) && (i in now ==> now[i] == added[i]) {
      ListedHave(docs, term, i);
      AddPostingsIs(before, PostingsOf(docs, term), For(weigh, term), i);
      if 0 <= i < |docs| {
        if !Shares(docs[i], query[..n]) {
          UnsharedIsZero(docs, weigh, query[..n], i);
        }
      }
    }
    assert now.Keys == added.Keys;
  }

}
