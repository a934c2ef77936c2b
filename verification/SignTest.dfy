/** The exact two-sided sign test. */
module SignTest {
  import opened Powers

  /** `math.comb`, by Pascal's rule. */
  function Choose(n: nat, k: nat): nat {
    if k == 0 then 1 else if n == 0 then 0 else Choose(n - 1, k - 1) + Choose(n - 1, k)
  }

  function Factorial(n: nat): nat {
    if n == 0 then 1 else n * Factorial(n - 1)
  }

  /** The sum of `Choose(n, i)` for `i` in `0..=k`. */
  function Tail(n: nat, k: nat): nat {
    Choose(n, k) + if k == 0 then 0 else Tail(n, k - 1)
  }

  function Min(a: nat, b: nat): nat {
    if a < b then a else b
  }

  function Gap(a: nat, b: nat): nat {
    if a < b then b - a else a - b
  }

  function SignTestP(wins: nat, losses: nat): real {
    var n := wins + losses;
    if n == 0 then 1.0
    else
      var tail := Tail(n, Min(wins, losses)) as real / Pow2(n) as real;
      if 2.0 * tail < 1.0 then 2.0 * tail else 1.0
  }

  // --- Binomials ------------------------------------------------------------------------------

  lemma {:induction false} ChooseBeyond(n: nat, k: nat)
    requires k > n
    ensures Choose(n, k) == 0
  {
    if n > 0 {
      ChooseBeyond(n - 1, k - 1);
      ChooseBeyond(n - 1, k);
    }
  }

  lemma {:induction false} ChooseAll(n: nat)
    ensures Choose(n, n) == 1
  {
    if n > 0 {
      ChooseAll(n - 1);
      ChooseBeyond(n - 1, n);
    }
  }

  lemma {:induction false} ChooseSymmetric(n: nat, k: nat)
    requires k <= n
    ensures Choose(n, k) == Choose(n, n - k)
  {
    if k == 0 || k == n {
      ChooseAll(n);
    } else {
      ChooseSymmetric(n - 1, k - 1);
      ChooseSymmetric(n - 1, k);
    }
  }

  lemma {:induction false} ChoosePositive(n: nat, k: nat)
    requires k <= n
    ensures Choose(n, k) > 0
  {
    if k > 0 {
      ChoosePositive(n - 1, k - 1);
    }
  }

  /** The factorial form. */
  lemma {:induction false} ChooseIsQuotient(n: nat, k: nat)
    requires k <= n
    ensures Choose(n, k) * Factorial(k) * Factorial(n - k) == Factorial(n)
  {
    if k == 0 || k == n {
      ChooseAll(n);
      assert Choose(n, k) == 1 && Factorial(0) == 1;
      assert Choose(n, k) * Factorial(k) * Factorial(n - k) == Factorial(k) * Factorial(n - k);
    } else {
      var a, b := Choose(n - 1, k - 1), Choose(n - 1, k);
      var f, g := Factorial(k - 1), Factorial(n - 1 - k);
      ChooseIsQuotient(n - 1, k - 1);
      ChooseIsQuotient(n - 1, k);
      calc {
        Choose(n, k) * Factorial(k) * Factorial(n - k);
        (a + b) * (k * f) * ((n - k) * g);
        { Distributes(a, b, k, f, n - k, g); }
        k * (a * f * ((n - k) * g)) + (n - k) * (b * (k * f) * g);
        k * Factorial(n - 1) + (n - k) * Factorial(n - 1);
        n * Factorial(n - 1);
      }
    }
  }

  lemma Distributes(a: int, b: int, k: int, f: int, m: int, g: int)
    ensures (a + b) * (k * f) * (m * g) == k * (a * f * (m * g)) + m * (b * (k * f) * g)
  {
    assert (a + b) * (k * f) == a * (k * f) + b * (k * f);
    assert a * (k * f) * (m * g) == k * (a * f * (m * g)) by {
      assert a * (k * f) == k * (a * f);
    }
    assert b * (k * f) * (m * g) == m * (b * (k * f) * g) by {
      var x := b * (k * f);
      assert x * (m * g) == m * (x * g);
    }
  }

  lemma {:induction false} TailPascal(n: nat, k: nat)
    requires n > 0
    ensures Tail(n, k) == Tail(n - 1, k) + if k == 0 then 0 else Tail(n - 1, k - 1)
  {
    if k > 0 {
      TailPascal(n, k - 1);
    }
  }

  lemma {:induction false} RowSum(n: nat)
    ensures Tail(n, n) == Pow2(n)
  {
    if n > 0 {
      RowSum(n - 1);
      TailPascal(n, n);
      ChooseBeyond(n - 1, n);
    }
  }

  // --- What the test computes -----------------------------------------------------------------

  /** The number of outcomes of `n` fair trials, with at most `upTo` wins, whose counts differ by at least
      `gap`. */
  function AtLeastAsUneven(n: nat, gap: nat, upTo: nat): nat {
    (if Gap(upTo, n - Min(upTo, n)) >= gap then Choose(n, upTo) else 0)
    + if upTo == 0 then 0 else AtLeastAsUneven(n, gap, upTo - 1)
  }

  /** All outcomes at or below `j` count while `j` wins are no more than `n - gap` over two. */
  lemma {:induction false} LowerPart(n: nat, gap: nat, j: nat)
    requires 2 * j + gap <= n
    ensures AtLeastAsUneven(n, gap, j) == Tail(n, j)
  {
    if j > 0 {
      LowerPart(n, gap, j - 1);
    }
  }

  /** None counts strictly between. */
  lemma {:induction false} MiddlePart(n: nat, gap: nat, k: nat, j: nat)
    requires 2 * k + gap == n && gap > 0 && k <= j < n - k
    ensures AtLeastAsUneven(n, gap, j) == Tail(n, k)
  {
    if j == k {
      LowerPart(n, gap, k);
    } else {
      MiddlePart(n, gap, k, j - 1);
    }
  }

  /** The outcomes from `n - k` on mirror those up to `k`. */
  lemma {:induction false} UpperPart(n: nat, gap: nat, k: nat, i: nat)
    requires 2 * k + gap == n && gap > 0 && i <= k
    ensures AtLeastAsUneven(n, gap, n - k + i) + (if i == k then 0 else Tail(n, k - i - 1)) == 2 * Tail(n, k)
  {
    ChooseSymmetric(n, k - i);
    if i == 0 {
      MiddlePart(n, gap, k, n - k - 1);
    } else {
      UpperPart(n, gap, k, i - 1);
    }
  }

  /** With equal counts every outcome counts. */
  lemma {:induction false} EveryOutcome(n: nat, j: nat)
    requires j <= n
    ensures AtLeastAsUneven(n, 0, j) == Tail(n, j)
  {
    if j > 0 {
      EveryOutcome(n, j - 1);
    }
  }

  /** Twice the tail, against the row: it reaches the row exactly when the counts differ by at most one. */
  lemma TailAgainstRow(n: nat, k: nat)
    requires 2 * k <= n
    ensures 2 * Tail(n, k) >= Pow2(n) <==> n - 2 * k <= 1
    ensures n - 2 * k >= 1 ==> AtLeastAsUneven(n, n - 2 * k, n) == 2 * Tail(n, k)
    ensures AtLeastAsUneven(n, n - 2 * k, n) <= Pow2(n)
    ensures n - 2 * k <= 1 ==> AtLeastAsUneven(n, n - 2 * k, n) == Pow2(n)
  {
    RowSum(n);
    var gap := n - 2 * k;
    if gap == 0 {
      EveryOutcome(n, n);
      MirrorFrom(n, k);
      ChoosePositive(n, k);
    } else {
      UpperPart(n, gap, k, k);
      MirrorFrom(n, k + 1);
      Between(n, k, n - k - 1);
    }
  }

  /** The tail from above is the tail from below. */
  lemma {:induction false} MirrorFrom(n: nat, i: nat)
    requires i <= n
    ensures Tail(n, n - i) == Pow2(n) - if i == 0 then 0 else Tail(n, i - 1)
  {
    RowSum(n);
    if i > 0 {
      MirrorFrom(n, i - 1);
      ChooseSymmetric(n, i - 1);
    }
  }

  /** The tail grows strictly up to the whole row. */
  lemma {:induction false} Between(n: nat, k: nat, j: nat)
    requires k <= j <= n
    ensures Tail(n, k) <= Tail(n, j) && (k < j ==> Tail(n, k) < Tail(n, j))
  {
    if k < j {
      Between(n, k, j - 1);
      ChoosePositive(n, j);
    }
  }

  /** The p-value is the share of outcomes at least as uneven as the one observed. */
  lemma IsProbability(wins: nat, losses: nat)
    ensures var n := wins + losses;
      SignTestP(wins, losses) == AtLeastAsUneven(n, Gap(wins, losses), n) as real / Pow2(n) as real
  {
    var n, k := wins + losses, Min(wins, losses);
    assert n - 2 * k == Gap(wins, losses);
    TailAgainstRow(n, k);
    if n > 0 && Gap(wins, losses) <= 1 {
      HalfIsEnough(Tail(n, k), Pow2(n));
    } else if n > 0 {
      HalfIsEnough(Tail(n, k), Pow2(n));
    }
  }

  lemma HalfIsEnough(t: nat, p: nat)
    requires p > 0
    ensures var share := 2.0 * (t as real / p as real);
      share == (2 * t) as real / p as real && (share < 1.0 <==> 2 * t < p) && p as real / p as real == 1.0
  {
    Doubles(t as real, p as real);
    assert 2.0 * t as real == (2 * t) as real;
    BelowOne((2 * t) as real, p as real);
  }

  lemma Doubles(t: real, p: real)
    requires p > 0.0
    ensures 2.0 * (t / p) == (2.0 * t) / p
  {
  }

  lemma BelowOne(t: real, p: real)
    requires p > 0.0
    ensures t / p < 1.0 <==> t < p
  {
  }

  /** It is symmetric, positive and at most 1, and equals 1 exactly when the counts differ by at most one. */
  lemma SignTestLaws(wins: nat, losses: nat)
    ensures SignTestP(wins, losses) == SignTestP(losses, wins)
    ensures 0.0 < SignTestP(wins, losses) <= 1.0
    ensures SignTestP(wins, losses) == 1.0 <==> Gap(wins, losses) <= 1
  {
    var n, k := wins + losses, Min(wins, losses);
    TailAgainstRow(n, k);
    HalfIsEnough(Tail(n, k), Pow2(n));
    Between(n, 0, k);
    assert Tail(n, 0) == 1;
  }

}
