/** Query expansion over a table of seeds. */
module Expansion {
  import opened Phrase

  datatype Seed = Seed(matchTerms: seq<string>, expandedTerms: seq<string>)

  /** The normal form of a term, and whether a normal form is a phrase of the query. */
  datatype Vocabulary = Vocabulary(form: string -> string, said: string -> bool)

  datatype Expanded = Expanded(term: string, matched: seq<string>, seed: nat)

  predicate Mentions(v: Vocabulary, term: string) {
    v.form(term) != "" && v.said(v.form(term))
  }

  /** The match terms of a seed that the query mentions, in table order. */
  function MatchedTerms(v: Vocabulary, terms: seq<string>): seq<string> {
    if terms == [] then []
    else
      var last := terms[|terms| - 1];
      MatchedTerms(v, terms[..|terms| - 1]) + if Mentions(v, last) then [last] else []
  }

  /** They are the terms mentioned, each as often as the table has it. */
  lemma {:induction false} MatchedAre(v: Vocabulary, terms: seq<string>)
    ensures forall t :: multiset(MatchedTerms(v, terms))[t] == if Mentions(v, t) then multiset(terms)[t] else 0
  {
    if terms != [] {
      var n := |terms| - 1;
      MatchedAre(v, terms[..n]);
      assert terms == terms[..n] + [terms[n]];
    }
  }

  method FilterMentioned(v: Vocabulary, terms: seq<string>) returns (matched: seq<string>)
    ensures matched == MatchedTerms(v, terms)
  {
    matched := [];
    for i := 0 to |terms|
      invariant matched == MatchedTerms(v, terms[..i])
    {
      assert terms[..i + 1][..i] == terms[..i];
      if Mentions(v, terms[i]) {
        matched := matched + [terms[i]];
      }
    }
    assert terms[..|terms|] == terms;
  }

  /** A term of a matching seed, with what it was matched on, that the query does not already say. */
  predicate Genuine(e: Expanded, seeds: seq<Seed>, v: Vocabulary) {
    && e.seed < |seeds|
    && e.term in seeds[e.seed].expandedTerms
    && e.matched == MatchedTerms(v, seeds[e.seed].matchTerms) != []
    && v.form(e.term) != "" && !v.said(v.form(e.term))
  }

  /** The normal form is among those returned. */
  predicate Offered(found: seq<Expanded>, normal: string, v: Vocabulary) {
    exists i | 0 <= i < |found| :: v.form(found[i].term) == normal
  }

  predicate DistinctForms(found: seq<Expanded>, v: Vocabulary) {
    forall i, j | 0 <= i < j < |found| :: v.form(found[i].term) != v.form(found[j].term)
  }

  predicate InSeedOrder(found: seq<Expanded>) {
    forall i, j | 0 <= i < j < |found| :: found[i].seed <= found[j].seed
  }

  /** A term is empty, already a phrase of the query, or offered. */
  predicate Settled(term: string, found: seq<Expanded>, v: Vocabulary) {
    v.form(term) == "" || v.said(v.form(term)) || Offered(found, v.form(term), v)
  }

  /** Every term of the first `n` terms of a matching seed is settled. */
  predicate SeedSettled(seed: Seed, n: nat, found: seq<Expanded>, v: Vocabulary) {
    MatchedTerms(v, seed.matchTerms) != [] ==>
      forall t | 0 <= t < |seed.expandedTerms| && t < n :: Settled(seed.expandedTerms[t], found, v)
  }

  lemma OfferedStays(found: seq<Expanded>, e: Expanded, v: Vocabulary)
    ensures forall n | Offered(found, n, v) :: Offered(found + [e], n, v)
    ensures Offered(found + [e], v.form(e.term), v)
  {
    assert (found + [e])[|found|] == e;
    forall n | Offered(found, n, v) ensures Offered(found + [e], n, v) {
      var i :| 0 <= i < |found| && v.form(found[i].term) == n;
      assert (found + [e])[i] == found[i];
    }
  }

  /** What one seed adds: its terms in order, skipping what is empty, already said or already offered. */
  method ExpandSeed(seeds: seq<Seed>, s: nat, v: Vocabulary, already: seq<Expanded>)
    returns (found: seq<Expanded>)
    requires s < |seeds| && DistinctForms(already, v) && InSeedOrder(already)
    requires forall i | 0 <= i < |already| :: Genuine(already[i], seeds, v) && already[i].seed <= s
    ensures already <= found && DistinctForms(found, v) && InSeedOrder(found)
    ensures forall i | 0 <= i < |found| :: Genuine(found[i], seeds, v) && found[i].seed <= s
    ensures forall n | Offered(already, n, v) :: Offered(found, n, v)
    ensures SeedSettled(seeds[s], |seeds[s].expandedTerms|, found, v)
  {
    found := already;
    var matched := FilterMentioned(v, seeds[s].matchTerms);
    if matched == [] {
      return;
    }
    var terms := seeds[s].expandedTerms;
    for t := 0 to |terms|
      invariant already <= found && DistinctForms(found, v) && InSeedOrder(found)
      invariant forall i | 0 <= i < |found| :: Genuine(found[i], seeds, v) && found[i].seed <= s
      invariant forall n | Offered(already, n, v) :: Offered(found, n, v)
      invariant forall u | 0 <= u < t :: Settled(terms[u], found, v)
    {
      var normal := v.form(terms[t]);
      if normal != "" && !v.said(normal) && !Offered(found, normal, v) {
        var e := Expanded(terms[t], matched, s);
        assert Genuine(e, seeds, v);
        OfferedStays(found, e, v);
        found := found + [e];
      }
    }
  }

  /** Matching against the normal form of a query. */
  function VocabularyOf(query: string, other: char -> string): Vocabulary {
    var normalized := Normal(query, other);
    Vocabulary(term => Normal(term, other), phrase => ContainsPhrase(normalized, phrase))
  }

  /** The loop over the seeds. */
  method ExpandSeeds(seeds: seq<Seed>, v: Vocabulary) returns (found: seq<Expanded>)
    ensures DistinctForms(found, v) && InSeedOrder(found)
    ensures forall i | 0 <= i < |found| :: Genuine(found[i], seeds, v)
    ensures forall s | 0 <= s < |seeds| :: SeedSettled(seeds[s], |seeds[s].expandedTerms|, found, v)
  {
    found := [];
    for s := 0 to |seeds|
      invariant DistinctForms(found, v) && InSeedOrder(found)
      invariant forall i | 0 <= i < |found| :: Genuine(found[i], seeds, v) && found[i].seed < s
      invariant forall r | 0 <= r < s :: SeedSettled(seeds[r], |seeds[r].expandedTerms|, found, v)
    {
      ghost var before := found;
      found := ExpandSeed(seeds, s, v, found);
      forall r | 0 <= r < s ensures SeedSettled(seeds[r], |seeds[r].expandedTerms|, found, v) {
        assert SeedSettled(seeds[r], |seeds[r].expandedTerms|, before, v);
      }
    }
  }

  /** `expand_query`, for any seed table: the terms offered have pairwise distinct normal forms, each comes from
      a matching seed and is not a phrase of the query, and no term of a matching seed is forgotten. */
  method ExpandQuery(seeds: seq<Seed>, query: string, other: char -> string) returns (found: seq<Expanded>)
    ensures var v := VocabularyOf(query, other);
      && DistinctForms(found, v) && InSeedOrder(found)
      && (forall i | 0 <= i < |found| :: Genuine(found[i], seeds, v))
      && forall s | 0 <= s < |seeds| :: SeedSettled(seeds[s], |seeds[s].expandedTerms|, found, v)
  {
    var normalized := NormalizeForMatch(query, other);
    found := ExpandSeeds(seeds, Vocabulary(term => Normal(term, other), phrase => ContainsPhrase(normalized, phrase)));
  }

  predicate MatchedOnRun(query: string, other: char -> string, e: Expanded, seed: Seed) {
    exists term :: (
      && term in e.matched && term in seed.matchTerms
      && HasRun(Words(Normal(query, other)), Words(Normal(term, other))))
  }

  /** What a caller reads off the result: in terms of words, no offered term is a run of the query's words, and
      each was matched on a run of them. */
  lemma OfferedTermsAreNew(seeds: seq<Seed>, query: string, other: char -> string, e: Expanded)
    requires Lowers(other) && Genuine(e, seeds, VocabularyOf(query, other))
    ensures !HasRun(Words(Normal(query, other)), Words(Normal(e.term, other)))
    ensures MatchedOnRun(query, other, e, seeds[e.seed])
  {
    var v := VocabularyOf(query, other);
    IsNormal(query, other);
    IsNormal(e.term, other);
    PhraseIsRun(Normal(query, other), Normal(e.term, other));
    var term := e.matched[0];
    MatchedAreMentioned(v, seeds[e.seed].matchTerms, 0);
    IsNormal(term, other);
    PhraseIsRun(Normal(query, other), Normal(term, other));
  }

  lemma {:induction false} MatchedAreMentioned(v: Vocabulary, terms: seq<string>, i: nat)
    requires i < |MatchedTerms(v, terms)|
    ensures MatchedTerms(v, terms)[i] in terms && Mentions(v, MatchedTerms(v, terms)[i])
  {
    var n := |terms| - 1;
    if i < |MatchedTerms(v, terms[..n])| {
      MatchedAreMentioned(v, terms[..n], i);
    }
  }
}
