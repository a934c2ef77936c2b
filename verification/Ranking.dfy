/** Sorting scored documents by descending score, then ascending id. */
module Ranking {
  import opened SortedKeys

  datatype Entry = Entry(score: real, id: int)

  /** The order of the sort keys `(-score, id)`. */
  predicate Before(a: Entry, b: Entry) {
    a.score > b.score || (a.score == b.score && a.id <= b.id)
  }

  predicate InOrder(s: seq<Entry>) {
    forall i, j | 0 <= i < j < |s| :: Before(s[i], s[j])
  }

  function Insert(e: Entry, s: seq<Entry>): seq<Entry> {
    if s == [] || Before(e, s[0]) then [e] + s else [s[0]] + Insert(e, s[1..])
  }

  function Sort(s: seq<Entry>): seq<Entry> {
    if s == [] then [] else Insert(s[0], Sort(s[1..]))
  }

  lemma {:induction false} InsertSorts(e: Entry, s: seq<Entry>)
    requires InOrder(s)
    ensures InOrder(Insert(e, s)) && multiset(Insert(e, s)) == multiset(s) + multiset{e}
  {
    if s == [] || Before(e, s[0]) {
      assert multiset([e] + s) == multiset{e} + multiset(s);
    } else {
      var rest := Insert(e, s[1..]);
      InsertSorts(e, s[1..]);
      assert s == [s[0]] + s[1..];
      forall x | x in rest ensures Before(s[0], x) {
        assert x in multiset(rest);
        assert x == e || x in s[1..];
      }
    }
  }

  /** Sorting orders the entries and keeps them all. */
  lemma {:induction false} SortSorts(s: seq<Entry>)
    ensures InOrder(Sort(s)) && multiset(Sort(s)) == multiset(s)
  {
    if s != [] {
      SortSorts(s[1..]);
      InsertSorts(s[0], Sort(s[1..]));
      assert s == [s[0]] + s[1..];
    }
  }

  lemma HeadsAgree(s: seq<Entry>, t: seq<Entry>)
    requires InOrder(s) && InOrder(t) && s != [] && t != []
    requires s[0] in t && t[0] in s
    ensures s[0] == t[0]
  {
  }

  lemma WithoutHead(s: seq<Entry>)
    requires s != []
    ensures multiset(s[1..]) == multiset(s) - multiset{s[0]}
  {
    assert s == [s[0]] + s[1..];
  }

  /** There is only one way to order the same entries: equal sort keys are equal entries. */
  lemma {:induction false} OneOrder(s: seq<Entry>, t: seq<Entry>)
    requires InOrder(s) && InOrder(t) && multiset(s) == multiset(t)
    ensures s == t
  {
    assert |s| == |multiset(s)| == |multiset(t)| == |t|;
    if s != [] {
      assert s[0] in multiset(t) && t[0] in multiset(s);
      HeadsAgree(s, t);
      WithoutHead(s);
      WithoutHead(t);
      OneOrder(s[1..], t[1..]);
      assert s == [s[0]] + s[1..] && t == [t[0]] + t[1..];
    }
  }

  lemma SameEntriesSameRanking(s: seq<Entry>, t: seq<Entry>)
    requires multiset(s) == multiset(t)
    ensures Sort(s) == Sort(t)
  {
    SortSorts(s);
    SortSorts(t);
    OneOrder(Sort(s), Sort(t));
  }

  // --- From a table of scores -----------------------------------------------------------------

  /** The entries of the scored keys, in the order given. */
  function EntriesOf(scores: map<int, real>, ids: int -> int, keys: seq<int>): seq<Entry> {
    if keys == [] then []
    else
      var k := keys[|keys| - 1];
      EntriesOf(scores, ids, keys[..|keys| - 1]) + if k in scores then [Entry(scores[k], ids(k))] else []
  }

  function Ids(s: seq<Entry>): seq<int> {
    seq(|s|, i requires 0 <= i < |s| => s[i].id)
  }

  function Take(s: seq<int>, limit: nat): seq<int> {
    if |s| > limit then s[..limit] else s
  }

  /** `sorted(scores.items(), key=...)[:limit]`, as ids. */
  function Ranked(scores: map<int, real>, ids: int -> int, limit: nat): seq<int> {
    Take(Ids(Sort(EntriesOf(scores, ids, Sorted(scores.Keys)))), limit)
  }

  lemma {:induction false} EntriesPermute(scores: map<int, real>, ids: int -> int, a: seq<int>, b: seq<int>)
    requires multiset(a) == multiset(b)
    ensures multiset(EntriesOf(scores, ids, a)) == multiset(EntriesOf(scores, ids, b))
  {
    if a == [] {
      assert |b| == |multiset(b)| == |multiset(a)|;
    } else {
      var n := |a| - 1;
      var k := a[n];
      assert a == a[..n] + [k];
      assert k in multiset(b);
      var i :| 0 <= i < |b| && b[i] == k;
      var rest := b[..i] + b[i + 1..];
      WithoutOne(b, i);
      EntriesPermute(scores, ids, a[..n], rest);
      MoveToEnd(scores, ids, b, i);
      EntriesJoin(scores, ids, a[..n], [k]);
    }
  }

  lemma WithoutOne(s: seq<int>, i: nat)
    requires i < |s|
    ensures multiset(s[..i] + s[i + 1..]) == multiset(s) - multiset{s[i]}
  {
    assert s == s[..i] + [s[i]] + s[i + 1..];
  }

  /** Moving a key to the end permutes the entries. */
  lemma MoveToEnd(scores: map<int, real>, ids: int -> int, b: seq<int>, i: nat)
    requires i < |b|
    ensures multiset(EntriesOf(scores, ids, b)) ==
      multiset(EntriesOf(scores, ids, b[..i] + b[i + 1..])) + multiset(EntriesOf(scores, ids, [b[i]]))
  {
    var before, after := b[..i], b[i + 1..];
    EntriesJoin(scores, ids, before, after);
    EntriesJoin(scores, ids, before, [b[i]] + after);
    EntriesJoin(scores, ids, [b[i]], after);
    assert b == before + ([b[i]] + after);
    MiddleToEnd(EntriesOf(scores, ids, before), EntriesOf(scores, ids, [b[i]]), EntriesOf(scores, ids, after));
  }

  lemma MiddleToEnd(x: seq<Entry>, y: seq<Entry>, z: seq<Entry>)
    ensures multiset(x + (y + z)) == multiset(x + z) + multiset(y)
  {
  }

  lemma {:induction false} EntriesJoin(scores: map<int, real>, ids: int -> int, a: seq<int>, b: seq<int>)
    ensures EntriesOf(scores, ids, a + b) == EntriesOf(scores, ids, a) + EntriesOf(scores, ids, b)
  {
    if b == [] {
      assert a + b == a;
    } else {
      var n := |b| - 1;
      EntriesJoin(scores, ids, a, b[..n]);
      assert (a + b)[..|a| + n] == a + b[..n];
    }
  }

  predicate NoRepeats(keys: seq<int>) {
    forall i, j | 0 <= i < j < |keys| :: keys[i] != keys[j]
  }

  lemma {:induction false} OnceEach(keys: seq<int>)
    requires NoRepeats(keys)
    ensures multiset(keys) == multiset(Elements(keys))
  {
    if keys == [] {
      assert Elements(keys) == {};
    } else {
      var n := |keys| - 1;
      OnceEach(keys[..n]);
      assert keys == keys[..n] + [keys[n]];
      assert Elements(keys) == Elements(keys[..n]) + {keys[n]};
      assert keys[n] !in Elements(keys[..n]);
    }
  }

  /** A dictionary hands out its items in some order. */
  method Items(scores: map<int, real>, ids: int -> int) returns (keys: seq<int>, entries: seq<Entry>)
    ensures NoRepeats(keys) && Elements(keys) == scores.Keys && entries == EntriesOf(scores, ids, keys)
  {
    keys, entries := [], [];
    var left := scores.Keys;
    while left != {}
      invariant left <= scores.Keys && NoRepeats(keys) && Elements(keys) == scores.Keys - left
      invariant entries == EntriesOf(scores, ids, keys)
      decreases left
    {
      ghost var some := Member(left);
      var k :| k in left;
      assert k !in Elements(keys);
      assert (keys + [k])[..|keys|] == keys;
      Appends(keys, k);
      entries := entries + [Entry(scores[k], ids(k))];
      keys := keys + [k];
      left := left - {k};
    }
  }

  /** The ranking does not depend on that order. */
  method RankItems(scores: map<int, real>, ids: int -> int, limit: nat) returns (r: seq<int>)
    ensures r == Ranked(scores, ids, limit)
  {
    var keys, entries := Items(scores, ids);
    SortedIsSorted(scores.Keys);
    OnceEach(keys);
    OnceEach(Sorted(scores.Keys));
    EntriesPermute(scores, ids, keys, Sorted(scores.Keys));
    SameEntriesSameRanking(entries, EntriesOf(scores, ids, Sorted(scores.Keys)));
    r := Take(Ids(Sort(entries)), limit);
  }

  lemma Appends(keys: seq<int>, k: int)
    ensures Elements(keys + [k]) == Elements(keys) + {k}
  {
    assert (keys + [k])[|keys|] == k;
    forall x | x in Elements(keys) ensures x in Elements(keys + [k]) {
      var i :| 0 <= i < |keys| && keys[i] == x;
      assert (keys + [k])[i] == x;
    }
  }

  // --- What the ranking says --------------------------------------------------------------------

  /** `a` stands before `b`. */
  predicate Precedes(r: seq<int>, a: int, b: int) {
    exists i, j | 0 <= i < j < |r| :: r[i] == a && r[j] == b
  }

  lemma SameMembers(a: seq<Entry>, b: seq<Entry>)
    requires multiset(a) == multiset(b)
    ensures |a| == |b| && (forall e | e in b :: e in a) && forall i | 0 <= i < |a| :: a[i] in b
  {
    assert |a| == |multiset(a)| == |multiset(b)| == |b|;
    forall e | e in b ensures e in a {
      assert e in multiset(b);
    }
    forall i | 0 <= i < |a| ensures a[i] in b {
      assert a[i] in multiset(a);
    }
  }

  /** `e` is the entry of a scored key. */
  predicate IsEntryOf(e: Entry, scores: map<int, real>, ids: int -> int) {
    exists k | k in scores :: e == Entry(scores[k], ids(k))
  }

  /** The sorted list holds the entry of every scored key, and nothing else. */
  lemma RankedHolds(scores: map<int, real>, ids: int -> int)
    ensures var sorted := Sort(EntriesOf(scores, ids, Sorted(scores.Keys)));
      && |sorted| == |scores| && InOrder(sorted)
      && (forall m | 0 <= m < |sorted| :: IsEntryOf(sorted[m], scores, ids))
      && forall k | k in scores :: Entry(scores[k], ids(k)) in sorted
  {
    var keys := Sorted(scores.Keys);
    var entries := EntriesOf(scores, ids, keys);
    SortSorts(entries);
    SortedIsSorted(scores.Keys);
    EntriesAre(scores, ids, keys);
    CountEntries(scores, ids, scores.Keys, keys);
    SameMembers(Sort(entries), entries);
    forall k | k in scores ensures Entry(scores[k], ids(k)) in entries {
      assert k in Elements(keys);
    }
  }

  /** The entries of a table are its keys with their scores. */
  lemma {:induction false} EntriesAre(scores: map<int, real>, ids: int -> int, keys: seq<int>)
    ensures forall k | k in keys && k in scores :: Entry(scores[k], ids(k)) in EntriesOf(scores, ids, keys)
    ensures forall e | e in EntriesOf(scores, ids, keys) :: IsEntryOf(e, scores, ids)
    ensures forall k | k in Elements(keys) :: k in keys
  {
    if keys != [] {
      var n := |keys| - 1;
      EntriesAre(scores, ids, keys[..n]);
      assert keys == keys[..n] + [keys[n]];
    }
  }

  lemma {:induction false} CountEntries(scores: map<int, real>, ids: int -> int, left: set<int>, keys: seq<int>)
    requires keys == Sorted(left) && left <= scores.Keys
    ensures |EntriesOf(scores, ids, keys)| == |keys| == |left|
  {
    AllScored(scores, ids, keys);
    SortedIsSorted(left);
    OnceEach(keys);
    assert |keys| == |multiset(keys)| == |multiset(left)| == |left|;
  }

  lemma {:induction false} AllScored(scores: map<int, real>, ids: int -> int, keys: seq<int>)
    ensures (forall k | k in keys :: k in scores) ==> |EntriesOf(scores, ids, keys)| == |keys|
  {
    if keys != [] {
      var n := |keys| - 1;
      AllScored(scores, ids, keys[..n]);
      assert keys == keys[..n] + [keys[n]];
    }
  }

  predicate Distinguishes(ids: int -> int, keys: set<int>) {
    forall a, b | a in keys && b in keys && ids(a) == ids(b) :: a == b
  }

  /** Of two scored keys the one with the higher score stands before the other, and on equal scores the one with
      the smaller id; no limit keeps only the other. */
  lemma EarlierComesFirst(scores: map<int, real>, ids: int -> int, a: int, b: int, limit: nat)
    requires a in scores && b in scores && Distinguishes(ids, scores.Keys)
    requires scores[a] > scores[b] || (scores[a] == scores[b] && ids(a) < ids(b))
    ensures var r := Ranked(scores, ids, limit);
      && (ids(b) in r ==> Precedes(r, ids(a), ids(b)))
      && (limit >= |scores| ==> ids(b) in r)
  {
    RankedHolds(scores, ids);
    EarlierInOrder(scores, ids, Sort(EntriesOf(scores, ids, Sorted(scores.Keys))), a, b, limit);
  }

  lemma EarlierInOrder(scores: map<int, real>, ids: int -> int, sorted: seq<Entry>, a: int, b: int, limit: nat)
    requires a in scores && b in scores && Distinguishes(ids, scores.Keys) && |sorted| == |scores| && InOrder(sorted)
    requires scores[a] > scores[b] || (scores[a] == scores[b] && ids(a) < ids(b))
    requires forall m | 0 <= m < |sorted| :: IsEntryOf(sorted[m], scores, ids)
    requires Entry(scores[a], ids(a)) in sorted && Entry(scores[b], ids(b)) in sorted
    ensures var r := Take(Ids(sorted), limit);
      && (ids(b) in r ==> Precedes(r, ids(a), ids(b)))
      && (limit >= |scores| ==> ids(b) in r)
  {
    var i: nat :| i < |sorted| && sorted[i] == Entry(scores[a], ids(a));
    var j: nat :| j < |sorted| && sorted[j] == Entry(scores[b], ids(b));
    var r := Take(Ids(sorted), limit);
    if ids(b) in r {
      var m: nat :| m < |r| && r[m] == ids(b);
      assert IsEntryOf(sorted[m], scores, ids);
      assert sorted[m] == Entry(scores[b], ids(b));
      EarlierStandsBefore(sorted, i, m);
      assert r[i] == ids(a);
    }
    if limit >= |scores| {
      assert r[j] == ids(b);
    }
  }

  lemma EarlierStandsBefore(sorted: seq<Entry>, i: nat, j: nat)
    requires InOrder(sorted) && i < |sorted| && j < |sorted|
    requires sorted[i].score > sorted[j].score || (sorted[i].score == sorted[j].score && sorted[i].id < sorted[j].id)
    ensures i < j
  {
  }
}
