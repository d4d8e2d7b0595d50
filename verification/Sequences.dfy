/** Small facts about sequences and finite sets that several components share. */
module Sequences {

  /** `list(range(n))` */
  function Range(n: nat): seq<nat> {
    seq(n, (j: nat) => j)
  }

  function Sum(xs: seq<nat>): nat {
    if xs == [] then 0 else Sum(xs[..|xs| - 1]) + xs[|xs| - 1]
  }

  ghost predicate Distinct<T(!new)>(xs: seq<T>) {
    forall i, j :: 0 <= i < j < |xs| ==> xs[i] != xs[j]
  }

  lemma {:induction false} DistinctIndex<T(!new)>(xs: seq<T>, i: nat, j: nat)
    requires Distinct(xs) && i < |xs| && j < |xs| && xs[i] == xs[j]
    ensures i == j
  {
  }

  lemma {:induction false} DistinctConcat<T(!new)>(a: seq<T>, b: seq<T>)
    requires Distinct(a) && Distinct(b)
    requires forall x :: x in a ==> x !in b
    ensures Distinct(a + b)
  {
    var c := a + b;
    forall i, j | 0 <= i < j < |c| ensures c[i] != c[j] {
      if i < |a| <= j {
        assert a[i] in a && b[j - |a|] in b;
      }
    }
  }

  /** A join is distinct exactly when both halves are and share nothing. */
  lemma {:induction false} DistinctParts<T(!new)>(a: seq<T>, b: seq<T>)
    requires Distinct(a)
    ensures Distinct(a + b) <==> Distinct(b) && forall x :: x in b ==> x !in a
  {
    var c := a + b;
    if Distinct(b) && forall x :: x in b ==> x !in a {
      DistinctConcat(a, b);
    }
    if Distinct(c) {
      forall i, j | 0 <= i < j < |b| ensures b[i] != b[j] {
        assert b[i] == c[|a| + i] && b[j] == c[|a| + j];
      }
      forall x | x in b ensures x !in a {
        var j :| 0 <= j < |b| && b[j] == x;
        assert c[|a| + j] == x;
        assert forall i :: 0 <= i < |a| ==> c[i] == a[i];
      }
    }
  }

  /** Pigeonhole: distinct elements drawn from a finite set are no more than it holds. */
  lemma {:induction false} Pigeonhole<T(!new)>(xs: seq<T>, pool: set<T>)
    requires Distinct(xs)
    requires forall x :: x in xs ==> x in pool
    ensures |xs| <= |pool|
  {
    if xs != [] {
      var n := |xs| - 1;
      var last := xs[n];
      assert last in xs;
      forall x | x in xs[..n] ensures x in pool - {last} {
        assert x in xs;
      }
      Pigeonhole(xs[..n], pool - {last});
    }
  }

  predicate Ascending(xs: seq<nat>) {
    forall i, j :: 0 <= i < j < |xs| ==> xs[i] < xs[j]
  }

  lemma {:induction false} AscendingPrefix(xs: seq<nat>, k: nat)
    requires Ascending(xs) && k < |xs|
    ensures xs[k] !in xs[..k] && xs[..k + 1] == xs[..k] + [xs[k]]
  {
  }

  lemma {:induction false} LeastOf(s: set<nat>) returns (m: nat)
    requires s != {}
    ensures m in s && forall x :: x in s ==> m <= x
    decreases |s|
  {
    m :| m in s;
    if y :| y in s && y < m {
      var rest := s - {m};
      assert y in rest;
      var k := LeastOf(rest);
      forall x | x in s ensures k <= x {
        if x != m {
          assert x in rest;
        }
      }
      m := k;
    }
  }

  function Least(s: set<nat>): (m: nat)
    requires s != {}
    ensures m in s && forall x :: x in s ==> m <= x
  {
    assert exists m :: m in s && forall x :: x in s ==> m <= x by {
      var least := LeastOf(s);
    }
    var m :| m in s && forall x :: x in s ==> m <= x;
    m
  }

  lemma {:induction false} GreatestOf(s: set<nat>) returns (m: nat)
    requires s != {}
    ensures m in s && forall x :: x in s ==> x <= m
    decreases |s|
  {
    m :| m in s;
    if y :| y in s && m < y {
      var rest := s - {m};
      assert y in rest;
      var k := GreatestOf(rest);
      forall x | x in s ensures x <= k {
        if x != m {
          assert x in rest;
        }
      }
      m := k;
    }
  }

  /** `max(s)` */
  function Greatest(s: set<nat>): (m: nat)
    requires s != {}
    ensures m in s && forall x :: x in s ==> x <= m
  {
    assert exists m :: m in s && forall x :: x in s ==> x <= m by {
      var greatest := GreatestOf(s);
    }
    var m :| m in s && forall x :: x in s ==> x <= m;
    m
  }

  /** `sorted(s)` for the keys of a dict or the elements of a set. */
  function Sorted(s: set<nat>): (q: seq<nat>)
    ensures Ascending(q)
    ensures forall x :: x in q <==> x in s
  {
    if s == {} then []
    else
      var m := Least(s);
      var tail := Sorted(s - {m});
      assert forall x :: x in s <==> x == m || x in s - {m};
      assert forall i :: 0 <= i < |tail| ==> tail[i] in tail;
      [m] + tail
  }
}
