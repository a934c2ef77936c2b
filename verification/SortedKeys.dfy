/** Iterating over a sorted set of keys. */
module SortedKeys {
  function Elements(keys: seq<int>): set<int> {
    set i | 0 <= i < |keys| :: keys[i]
  }

  predicate Ascending(keys: seq<int>) {
    forall i, j | 0 <= i < j < |keys| :: keys[i] < keys[j]
  }

  predicate IsLeast(s: set<int>, m: int) {
    m in s && forall k | k in s :: m <= k
  }

  lemma Member<T>(s: set<T>) returns (x: T)
    requires s != {}
    ensures x in s
  {
    x :| x in s;
  }

  lemma {:induction false} HasLeast(s: set<int>) returns (m: int)
    requires s != {}
    ensures IsLeast(s, m)
  {
    var x := Member(s);
    var rest := s - {x};
    if rest == {} {
      m := x;
    } else {
      var least := HasLeast(rest);
      m := if least < x then least else x;
    }
    assert forall k | k in s :: k == x || k in rest;
  }

  function Least(s: set<int>): (m: int)
    requires s != {}
    ensures IsLeast(s, m)
  {
    assert exists m :: IsLeast(s, m) by {
      var m := HasLeast(s);
    }
    var m :| IsLeast(s, m);
    m
  }

  /** A `BTreeSet`, in iteration order. */
  function Sorted(s: set<int>): seq<int> {
    if s == {} then [] else [Least(s)] + Sorted(s - {Least(s)})
  }

  lemma {:induction false} SortedIsSorted(s: set<int>)
    ensures Elements(Sorted(s)) == s && Ascending(Sorted(s))
  {
    if s == {} {
      assert Elements([]) == {};
    } else {
      var m := Least(s);
      var rest := Sorted(s - {m});
      SortedIsSorted(s - {m});
      SplitElements(m, rest);
      assert {m} + (s - {m}) == s;
      assert Sorted(s) == [m] + rest;
      Prepends(m, rest);
    }
  }

  lemma Prepends(m: int, rest: seq<int>)
    requires Ascending(rest) && forall k | k in Elements(rest) :: m < k
    ensures Ascending([m] + rest)
  {
    forall i | 0 <= i < |rest| ensures m < rest[i] {
      assert rest[i] in Elements(rest);
    }
  }

  lemma SplitElements(m: int, rest: seq<int>)
    ensures Elements([m] + rest) == {m} + Elements(rest)
  {
    var all := [m] + rest;
    assert all[0] == m;
    assert forall i | 0 <= i < |rest| :: all[i + 1] == rest[i];
    forall k | k in Elements(rest) ensures k in Elements(all) {
      var i :| 0 <= i < |rest| && rest[i] == k;
      assert all[i + 1] == k;
    }
  }
}
