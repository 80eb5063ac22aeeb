/** What the store's SQL asks of a table: `sum`, `coalesce(max(seq), 0)` and `ORDER BY seq`. */
module Tables {

  lemma TakeOneMore<T>(s: seq<T>, k: nat)
    requires k < |s|
    ensures s[..k + 1] == s[..k] + [s[k]]
  {
  }

  /** Some member of a non-empty set. */
  ghost function Pick<T>(s: set<T>): (x: T)
    requires s != {}
    ensures x in s
  {
    var x :| x in s; x
  }

  lemma Inhabited(s: set<int>)
    requires s != {}
    ensures exists x :: x in s
  {
    var x := Pick(s);
  }

  /** `sum(column)` over a table keyed by `K`. */
  ghost function Sum<K>(m: map<K, nat>): nat {
    if m == map[] then 0
    else var k :| k in m; m[k] + Sum(m - {k})
  }

  lemma {:induction false} SumWithout<K>(m: map<K, nat>, k: K)
    requires k in m
    ensures Sum(m) == m[k] + Sum(m - {k})
    decreases |m|
  {
    var first :| first in m && Sum(m) == m[first] + Sum(m - {first});
    if first != k {
      SumWithout(m - {first}, k);
      SumWithout(m - {k}, first);
      assert m - {first} - {k} == m - {k} - {first};
    }
  }

  lemma SumInsert<K>(m: map<K, nat>, k: K, v: nat)
    requires k !in m
    ensures Sum(m[k := v]) == Sum(m) + v
  {
    SumWithout(m[k := v], k);
    assert m[k := v] - {k} == m;
  }

  lemma {:induction false} MaxExists(s: set<int>)
    requires s != {}
    ensures exists m :: m in s && forall x | x in s :: x <= m
  {
    var x := Pick(s);
    var rest := s - {x};
    assert forall y | y in s :: y == x || y in rest;
    if rest != {} {
      MaxExists(rest);
      var m :| m in rest && forall y | y in rest :: y <= m;
      assert m in s;
      if m < x {
        assert forall y | y in s :: y <= x;
      }
    }
  }

  lemma {:induction false} MinExists(s: set<int>)
    requires s != {}
    ensures exists m :: m in s && forall x | x in s :: m <= x
  {
    var x := Pick(s);
    var rest := s - {x};
    assert forall y | y in s :: y == x || y in rest;
    if rest != {} {
      MinExists(rest);
      var m :| m in rest && forall y | y in rest :: m <= y;
      assert m in s;
      if x < m {
        assert forall y | y in s :: x <= y;
      }
    }
  }

  /** `coalesce(max(seq), 0)`: 0 for an empty table, and below 0 for a table of negatives. */
  function MaxOrZero(s: set<int>): (m: int)
    ensures if s == {} then m == 0 else m in s
    ensures forall x | x in s :: x <= m
  {
    if s == {} then 0
    else
      MaxExists(s);
      var m :| m in s && forall x | x in s :: x <= m;
      m
  }

  predicate StrictlyAscending(s: seq<int>) {
    forall i, j | 0 <= i < j < |s| :: s[i] < s[j]
  }

  /** `ORDER BY seq`: the members of a set, least first. */
  function Ascending(s: set<int>): (r: seq<int>)
    ensures StrictlyAscending(r)
    ensures forall x :: x in r <==> x in s
    decreases |s|
  {
    if s == {} then []
    else
      MinExists(s);
      var m :| m in s && forall x | x in s :: m <= x;
      var rest := Ascending(s - {m});
      AscendingCons(m, rest, s);
      [m] + rest
  }

  lemma AscendingCons(m: int, rest: seq<int>, s: set<int>)
    requires m in s && forall x | x in s :: m <= x
    requires StrictlyAscending(rest)
    requires forall x :: x in rest <==> x in s - {m}
    ensures StrictlyAscending([m] + rest)
    ensures forall x :: x in [m] + rest <==> x in s
  {
    forall i | 0 <= i < |rest|
      ensures m < rest[i]
    {
      assert rest[i] in rest;
    }
  }

  lemma {:induction false} MembersCount(r: seq<int>)
    requires StrictlyAscending(r)
    ensures |set x | x in r| == |r|
  {
    if r != [] {
      var init, last := r[..|r| - 1], r[|r| - 1];
      MembersCount(init);
      assert (set x | x in r) == (set x | x in init) + {last};
      assert last !in init;
    }
  }

  lemma AscendingCounts(s: set<int>)
    ensures |Ascending(s)| == |s|
  {
    MembersCount(Ascending(s));
    assert (set x | x in Ascending(s)) == s;
  }

  lemma FirstAre(r: seq<int>, n: nat, x: int)
    requires StrictlyAscending(r) && 0 < n <= |r|
    ensures x in r[..n] <==> x in r && x <= r[n - 1]
  {
    if x in r && x <= r[n - 1] {
      var k :| 0 <= k < |r| && r[k] == x;
      assert r[..n][k] == x;
    }
  }

  lemma LowCounts(s: set<int>, n: nat)
    requires 0 < n <= |Ascending(s)|
    ensures |set x | x in s && x <= Ascending(s)[n - 1]| == n
  {
    var first, top := Ascending(s)[..n], Ascending(s)[n - 1];
    MembersCount(first);
    forall x
      ensures x in first <==> x in s && x <= top
    {
      FirstAre(Ascending(s), n, x);
    }
    assert (set x | x in first) == set x | x in s && x <= top;
  }

  lemma SidesCount(s: set<int>, at: int)
    ensures |set x | x in s && x <= at| + |set x | x in s && x > at| == |s|
  {
    var low, high := (set x | x in s && x <= at), set x | x in s && x > at;
    assert s == low + high;
  }

  /** `LIMIT n` parts the members at the last one taken. */
  lemma AscendingParts(s: set<int>, n: nat)
    requires 0 < n <= |Ascending(s)|
    ensures |set x | x in s && x <= Ascending(s)[n - 1]| == n
    ensures |set x | x in s && x > Ascending(s)[n - 1]| == |s| - n
  {
    LowCounts(s, n);
    SidesCount(s, Ascending(s)[n - 1]);
  }
}
