/** Normalised discounted cumulative gain of pooled retrieval runs.  The discount is any positive function of
    the rank that does not increase. */
module Ndcg {
  import opened Powers

  function Gain(grade: nat): (g: real)
    ensures g >= 0.0 && (g == 0.0 <==> grade == 0)
  {
    Doubled(grade);
    (Pow2(grade) - 1) as real
  }

  lemma Doubled(n: nat)
    ensures n > 0 ==> Pow2(n) >= 2
  {
  }

  lemma {:induction false} GainGrows(a: nat, b: nat)
    requires a <= b
    ensures Gain(a) <= Gain(b)
    decreases b
  {
    if a < b {
      GainGrows(a, b - 1);
      assert Pow2(b) == 2 * Pow2(b - 1);
    }
  }

  /** Labels 0, 1 and 2 gain 0, 1 and 3, and each further one twice as much and one. */
  lemma GainIs(grade: nat)
    ensures Gain(0) == 0.0 && Gain(1) == 1.0 && Gain(2) == 3.0
    ensures Gain(grade + 1) == 2.0 * Gain(grade) + 1.0
  {
    assert Pow2(0) == 1 && Pow2(1) == 2 && Pow2(2) == 4;
    assert Pow2(grade + 1) == 2 * Pow2(grade);
  }

  ghost predicate Discount(d: nat -> real) {
    (forall i: nat :: d(i) > 0.0) && forall i: nat :: d(i) >= d(i + 1)
  }

  ghost predicate Grows(g: nat -> real) {
    (forall a :: g(a) >= 0.0) && forall a, b | a <= b :: g(a) <= g(b)
  }

  lemma GainIsGrowing()
    ensures Grows(Gain)
  {
    forall a: nat, b: nat | a <= b ensures Gain(a) <= Gain(b) {
      GainGrows(a, b);
    }
  }

  function Dcg(labels: seq<nat>, g: nat -> real, d: nat -> real): real {
    if labels == [] then 0.0
    else
      var n := |labels| - 1;
      Dcg(labels[..n], g, d) + g(labels[n]) * d(n)
  }

  function Take(s: seq<nat>, k: nat): seq<nat> {
    if |s| > k then s[..k] else s
  }

  predicate Falling(s: seq<nat>) {
    forall i, j | 0 <= i < j < |s| :: s[i] >= s[j]
  }

  function Insert(e: nat, s: seq<nat>): seq<nat> {
    if s == [] || e >= s[0] then [e] + s else [s[0]] + Insert(e, s[1..])
  }

  /** `sorted(labels, reverse=True)` */
  function SortDown(s: seq<nat>): seq<nat> {
    if s == [] then [] else Insert(s[0], SortDown(s[1..]))
  }

  function NdcgAt(ordered: seq<nat>, pool: seq<nat>, k: nat, d: nat -> real): real {
    var ideal := Dcg(Take(SortDown(pool), k), Gain, d);
    if ideal > 0.0 then Dcg(Take(ordered, k), Gain, d) / ideal else 0.0
  }

  // --- Sorting --------------------------------------------------------------------------------

  lemma {:induction false} InsertKeeps(e: nat, s: seq<nat>)
    ensures multiset(Insert(e, s)) == multiset(s) + multiset{e}
  {
    if s == [] || e >= s[0] {
      assert multiset([e] + s) == multiset{e} + multiset(s);
    } else {
      InsertKeeps(e, s[1..]);
      assert s == [s[0]] + s[1..];
    }
  }

  lemma {:induction false} InsertFalls(e: nat, s: seq<nat>)
    requires Falling(s)
    ensures Falling(Insert(e, s))
  {
    if s != [] && e < s[0] {
      InsertFalls(e, s[1..]);
      InsertKeeps(e, s[1..]);
      AllBelow(s[0], e, s[1..], Insert(e, s[1..]));
    }
  }

  lemma AllBelow(top: nat, e: nat, s: seq<nat>, rest: seq<nat>)
    requires top >= e && (forall i | 0 <= i < |s| :: top >= s[i]) && multiset(rest) == multiset(s) + multiset{e}
    ensures forall i | 0 <= i < |rest| :: top >= rest[i]
  {
    forall i | 0 <= i < |rest| ensures top >= rest[i] {
      assert rest[i] in multiset(rest);
      assert rest[i] == e || rest[i] in s;
    }
  }

  lemma {:induction false} SortDownSorts(s: seq<nat>)
    ensures Falling(SortDown(s)) && multiset(SortDown(s)) == multiset(s)
  {
    if s != [] {
      SortDownSorts(s[1..]);
      InsertFalls(s[0], SortDown(s[1..]));
      InsertKeeps(s[0], SortDown(s[1..]));
      assert s == [s[0]] + s[1..];
    }
  }

  // --- Rearrangement --------------------------------------------------------------------------

  function Sum(s: seq<nat>, g: nat -> real): real {
    if s == [] then 0.0 else Sum(s[..|s| - 1], g) + g(s[|s| - 1])
  }

  lemma {:induction false} SumJoins(a: seq<nat>, b: seq<nat>, g: nat -> real)
    ensures Sum(a + b, g) == Sum(a, g) + Sum(b, g)
  {
    if b == [] {
      assert a + b == a;
    } else {
      var n := |b| - 1;
      SumJoins(a, b[..n], g);
      assert (a + b)[..|a| + n] == a + b[..n];
    }
  }

  lemma SumOne(e: nat, g: nat -> real)
    ensures Sum([e], g) == g(e)
  {
  }

  function Removed(s: seq<nat>, i: nat): seq<nat>
    requires i < |s|
  {
    s[..i] + s[i + 1..]
  }

  lemma Around(s: seq<nat>, i: nat)
    requires i < |s|
    ensures s == s[..i] + ([s[i]] + s[i + 1..])
  {
  }

  lemma SumOfThree(a: seq<nat>, e: nat, b: seq<nat>, g: nat -> real)
    ensures Sum(a + ([e] + b), g) == g(e) + Sum(a + b, g)
  {
    SumJoins(a, [e] + b, g);
    SumJoins([e], b, g);
    SumJoins(a, b, g);
    SumOne(e, g);
  }

  lemma RemovedSum(s: seq<nat>, i: nat, g: nat -> real)
    requires i < |s|
    ensures Sum(s, g) == g(s[i]) + Sum(Removed(s, i), g)
  {
    Around(s, i);
    SumOfThree(s[..i], s[i], s[i + 1..], g);
  }

  lemma RemovedElements(s: seq<nat>, i: nat)
    requires i < |s|
    ensures multiset(Removed(s, i)) == multiset(s) - multiset{s[i]}
  {
    assert s == s[..i] + [s[i]] + s[i + 1..];
  }

  /** Which label to set against the largest one of the pool. */
  lemma Pick(x: seq<nat>, s: seq<nat>) returns (i: nat)
    requires Falling(s) && multiset(x) <= multiset(s) && x != []
    ensures i < |x| && s != [] && x[i] <= s[0]
    ensures multiset(Removed(x, i)) <= multiset(s[1..])
  {
    assert x[0] in multiset(x) && x[0] in multiset(s);
    assert x[0] in s;
    if s[0] in x {
      i :| 0 <= i < |x| && x[i] == s[0];
    } else {
      i := 0;
    }
    PickedWithin(x, s, i);
  }

  /** Taking the largest label away on both sides, or any other where it does not occur. */
  lemma PickedWithin(x: seq<nat>, s: seq<nat>, i: nat)
    requires multiset(x) <= multiset(s) && i < |x| && s != [] && (x[i] == s[0] || s[0] !in x)
    ensures multiset(Removed(x, i)) <= multiset(s[1..])
  {
    RemovedElements(s, 0);
    assert Removed(s, 0) == s[1..];
    RemovedElements(x, i);
    if x[i] != s[0] {
      assert multiset(x)[s[0]] == 0;
    }
  }

  lemma SubLength(x: seq<nat>, s: seq<nat>)
    requires multiset(x) <= multiset(s)
    ensures |x| <= |s|
  {
    assert multiset(s) == multiset(x) + (multiset(s) - multiset(x));
    assert |x| == |multiset(x)| <= |multiset(s)| == |s|;
  }

  lemma FirstThenRest(s: seq<nat>, n: nat, g: nat -> real)
    requires n < |s|
    ensures Sum(s[..n + 1], g) == g(s[0]) + Sum(s[1..][..n], g)
  {
    assert s[..n + 1] == [s[0]] + s[1..][..n];
    SumJoins([s[0]], s[1..][..n], g);
    SumOne(s[0], g);
  }

  /** No choice of labels from a sorted pool sums to more than its first ones. */
  lemma {:induction false} TopIsLargest(x: seq<nat>, s: seq<nat>, g: nat -> real)
    requires Falling(s) && multiset(x) <= multiset(s) && Grows(g)
    ensures |x| <= |s| && Sum(x, g) <= Sum(s[..|x|], g)
    decreases |s|
  {
    SubLength(x, s);
    if x != [] {
      var i := Pick(x, s);
      RemovedSum(x, i, g);
      TopIsLargest(Removed(x, i), s[1..], g);
      FirstThenRest(s, |x| - 1, g);
    }
  }

  predicate Behind(x: seq<nat>, y: seq<nat>, g: nat -> real, j: nat)
    requires j <= |x| == |y|
  {
    Sum(x[..j], g) <= Sum(y[..j], g)
  }

  /** Larger sums of every prefix give a larger discounted sum: the difference is at least the last discount
      times the difference of the sums. */
  lemma {:induction false} PrefixesDecide(x: seq<nat>, y: seq<nat>, g: nat -> real, d: nat -> real)
    requires |x| == |y| && Discount(d)
    requires forall j: nat | j <= |x| :: Behind(x, y, g, j)
    ensures Dcg(x, g, d) <= Dcg(y, g, d)
    ensures x != [] ==> Dcg(y, g, d) - Dcg(x, g, d) >= d(|x| - 1) * (Sum(y, g) - Sum(x, g))
  {
    if x != [] {
      var n := |x| - 1;
      BehindShorter(x, y, g);
      PrefixesDecide(x[..n], y[..n], g, d);
      LastStep(Dcg(y[..n], g, d) - Dcg(x[..n], g, d), Sum(y[..n], g) - Sum(x[..n], g),
               g(x[n]), g(y[n]), if n > 0 then d(n - 1) else d(0), d(n), n == 0);
    }
  }

  lemma BehindShorter(x: seq<nat>, y: seq<nat>, g: nat -> real)
    requires |x| == |y| > 0 && forall j: nat | j <= |x| :: Behind(x, y, g, j)
    ensures var n := |x| - 1;
      && (forall j: nat | j <= n :: Behind(x[..n], y[..n], g, j))
      && Sum(x[..n], g) <= Sum(y[..n], g) && Sum(x, g) <= Sum(y, g)
  {
    var n := |x| - 1;
    var a, b := x[..n], y[..n];
    forall j: nat | j <= n ensures Behind(a, b, g, j) {
      assert a[..j] == x[..j] && b[..j] == y[..j];
      assert Behind(x, y, g, j);
    }
    assert x[..n + 1] == x && y[..n + 1] == y;
    assert Behind(x, y, g, n) && Behind(x, y, g, n + 1);
  }

  /** The arithmetic of one more rank. */
  lemma LastStep(ahead: real, before: real, gx: real, gy: real, earlier: real, d: real, first: bool)
    requires earlier >= d > 0.0 && before >= 0.0 && before + (gy - gx) >= 0.0
    requires if first then ahead == 0.0 && before == 0.0 else ahead >= earlier * before
    ensures ahead + (gy * d - gx * d) >= d * (before + (gy - gx)) >= 0.0
  {
    Scaled(earlier, d, before);
    assert d * (before + (gy - gx)) == d * before + d * (gy - gx);
    assert gy * d - gx * d == d * (gy - gx);
    NotNegative(d, before + (gy - gx));
  }

  lemma Scaled(a: real, b: real, c: real)
    requires a >= b && c >= 0.0
    ensures a * c >= b * c
  {
  }

  lemma NotNegative(a: real, b: real)
    requires a >= 0.0 && b >= 0.0
    ensures a * b >= 0.0
  {
  }

  lemma Positive(a: real, b: real)
    requires a > 0.0 && b > 0.0
    ensures a * b > 0.0
  {
  }

  lemma {:induction false} DcgNotNegative(s: seq<nat>, g: nat -> real, d: nat -> real)
    requires Discount(d) && Grows(g)
    ensures Dcg(s, g, d) >= 0.0
  {
    if s != [] {
      var n := |s| - 1;
      DcgNotNegative(s[..n], g, d);
      NotNegative(g(s[n]), d(n));
    }
  }

  lemma {:induction false} DcgGrows(s: seq<nat>, n: nat, g: nat -> real, d: nat -> real)
    requires n <= |s| && Discount(d) && Grows(g)
    ensures Dcg(s[..n], g, d) <= Dcg(s, g, d)
    decreases |s|
  {
    if n == |s| {
      assert s[..n] == s;
    } else {
      var m := |s| - 1;
      DcgGrows(s[..m], n, g, d);
      assert s[..m][..n] == s[..n];
      NotNegative(g(s[m]), d(m));
    }
  }

  lemma PrefixElements(x: seq<nat>, j: nat)
    requires j <= |x|
    ensures multiset(x[..j]) <= multiset(x)
  {
    assert x == x[..j] + x[j..];
  }

  lemma PrefixesBehind(x: seq<nat>, s: seq<nat>, g: nat -> real)
    requires Falling(s) && multiset(x) <= multiset(s) && |x| <= |s| && Grows(g)
    ensures forall j: nat | j <= |x| :: Behind(x, s[..|x|], g, j)
  {
    forall j: nat | j <= |x| ensures Behind(x, s[..|x|], g, j) {
      PrefixElements(x, j);
      TopIsLargest(x[..j], s, g);
      assert s[..|x|][..j] == s[..j];
    }
  }

  /** The rearrangement inequality: labels drawn from the pool, in any order, gain no more than the best ones
      in descending order. */
  lemma Rearrangement(x: seq<nat>, pool: seq<nat>, k: nat, g: nat -> real, d: nat -> real)
    requires multiset(x) <= multiset(pool) && |x| <= k && Discount(d) && Grows(g)
    ensures 0.0 <= Dcg(x, g, d) <= Dcg(Take(SortDown(pool), k), g, d)
  {
    var s := SortDown(pool);
    SortDownSorts(pool);
    SubLength(x, s);
    PrefixesBehind(x, s, g);
    PrefixesDecide(x, s[..|x|], g, d);
    var best := Take(s, k);
    assert best[..|x|] == s[..|x|];
    DcgGrows(best, |x|, g, d);
    DcgNotNegative(x, g, d);
  }

  lemma Ratio(a: real, b: real)
    requires 0.0 <= a <= b && b > 0.0
    ensures 0.0 <= a / b <= 1.0 && (a / b == 0.0 <==> a == 0.0) && (a / b == 1.0 <==> a == b)
  {
    var q := a / b;
    assert q * b == a;
  }

  lemma {:induction false} DcgZero(x: seq<nat>, d: nat -> real)
    requires Discount(d)
    ensures Dcg(x, Gain, d) >= 0.0
    ensures Dcg(x, Gain, d) == 0.0 <==> forall i | 0 <= i < |x| :: x[i] == 0
  {
    if x != [] {
      var n := |x| - 1;
      DcgZero(x[..n], d);
      NotNegative(Gain(x[n]), d(n));
      if x[n] != 0 {
        Positive(Gain(x[n]), d(n));
      }
    }
  }

  /** For labels drawn from the pool the measure lies in [0, 1], and is 0 exactly when nothing relevant is among
      the first `k`. */
  lemma NdcgBounds(ordered: seq<nat>, pool: seq<nat>, k: nat, d: nat -> real)
    requires multiset(Take(ordered, k)) <= multiset(pool) && Discount(d)
    ensures 0.0 <= NdcgAt(ordered, pool, k, d) <= 1.0
    ensures NdcgAt(ordered, pool, k, d) == 0.0 <==> forall i | 0 <= i < |Take(ordered, k)| :: ordered[i] == 0
  {
    var x := Take(ordered, k);
    GainIsGrowing();
    Rearrangement(x, pool, k, Gain, d);
    DcgZero(x, d);
    var ideal := Dcg(Take(SortDown(pool), k), Gain, d);
    if ideal > 0.0 {
      Ratio(Dcg(x, Gain, d), ideal);
    }
  }

  /** A list behind another gains what it would on its own under the later discounts. */
  lemma {:induction false} DcgJoins(a: seq<nat>, b: seq<nat>, g: nat -> real, d: nat -> real)
    ensures Dcg(a + b, g, d) == Dcg(a, g, d) + Dcg(b, g, (i: nat) => d(|a| + i))
    ensures forall e :: Dcg([e], g, d) == g(e) * d(0)
  {
    forall e: nat ensures Dcg([e], g, d) == g(e) * d(0) {
      assert [e][..0] == [];
    }
    if b == [] {
      assert a + b == a;
    } else {
      var n := |b| - 1;
      DcgJoins(a, b[..n], g, d);
      assert (a + b)[..|a| + n] == a + b[..n] && (a + b)[|a| + n] == b[n];
    }
  }

  predicate Measures(measure: real, gain: real, ideal: real) {
    measure * ideal == gain && (measure == 1.0 <==> gain == ideal > 0.0)
  }

  /** The measure is the part of the ideal gain that the first `k` labels make up; it is 1 exactly when they make up
      all of it, as the best labels in descending order do. */
  lemma NdcgIs(ordered: seq<nat>, pool: seq<nat>, k: nat, d: nat -> real)
    requires multiset(Take(ordered, k)) <= multiset(pool) && Discount(d)
    ensures var gain, ideal := Dcg(Take(ordered, k), Gain, d), Dcg(Take(SortDown(pool), k), Gain, d);
      && Measures(NdcgAt(ordered, pool, k, d), gain, ideal)
      && (Take(ordered, k) == Take(SortDown(pool), k) ==> gain == ideal)
  {
    var gain, ideal := Dcg(Take(ordered, k), Gain, d), Dcg(Take(SortDown(pool), k), Gain, d);
    GainIsGrowing();
    Rearrangement(Take(ordered, k), pool, k, Gain, d);
    MeasureOf(gain, ideal, NdcgAt(ordered, pool, k, d));
  }

  lemma MeasureOf(gain: real, ideal: real, measure: real)
    requires 0.0 <= gain <= ideal && measure == if ideal > 0.0 then gain / ideal else 0.0
    ensures Measures(measure, gain, ideal)
  {
    if ideal > 0.0 {
      Ratio(gain, ideal);
      Quotient(gain, ideal);
    }
  }

  lemma Quotient(a: real, b: real)
    requires b > 0.0
    ensures a / b * b == a
  {
  }
}
