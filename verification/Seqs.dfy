/** Sums and concatenations over sequences, used by several components. */
module Seqs {

  function Concat<T>(ss: seq<seq<T>>): (r: seq<T>)
  {
    if ss == [] then [] else ss[0] + Concat(ss[1..])
  }

  lemma {:induction false} ConcatAppend<T>(a: seq<seq<T>>, b: seq<seq<T>>)
    ensures Concat(a + b) == Concat(a) + Concat(b)
  {
    if a == [] {
      assert a + b == b;
    } else {
      assert (a + b)[0] == a[0] && (a + b)[1..] == a[1..] + b;
      ConcatAppend(a[1..], b);
    }
  }

  lemma ConcatSnoc<T>(a: seq<seq<T>>, x: seq<T>)
    ensures Concat(a + [x]) == Concat(a) + x
  {
    ConcatAppend(a, [x]);
    assert Concat([x]) == x + Concat([x][1..]);
  }

  /** The sum of `weight` over `s`. */
  function Total<T>(s: seq<T>, weight: T -> nat): (n: nat)
  {
    if s == [] then 0 else weight(s[0]) + Total(s[1..], weight)
  }

  lemma {:induction false} TotalUpdate<T>(s: seq<T>, weight: T -> nat, i: nat, x: T)
    requires i < |s|
    ensures Total(s[i := x], weight) == Total(s, weight) - weight(s[i]) + weight(x)
    ensures Total(s, weight) >= weight(s[i])
  {
    if i == 0 {
      assert s[i := x][1..] == s[1..];
    } else {
      assert s[i := x][1..] == s[1..][i - 1 := x];
      TotalUpdate(s[1..], weight, i - 1, x);
    }
  }

  lemma {:induction false} TotalAppend<T>(a: seq<T>, b: seq<T>, weight: T -> nat)
    ensures Total(a + b, weight) == Total(a, weight) + Total(b, weight)
  {
    if a == [] {
      assert a + b == b;
    } else {
      assert (a + b)[0] == a[0] && (a + b)[1..] == a[1..] + b;
      TotalAppend(a[1..], b, weight);
    }
  }

  lemma {:induction false} TotalBound<T>(s: seq<T>, weight: T -> nat, most: nat)
    requires forall x :: x in s ==> weight(x) <= most
    ensures Total(s, weight) <= |s| * most
  {
    if s != [] {
      TotalBound(s[1..], weight, most);
    }
  }

  lemma {:induction false} TotalZero<T>(s: seq<T>, weight: T -> nat)
    requires forall i :: 0 <= i < |s| ==> weight(s[i]) == 0
    ensures Total(s, weight) == 0
  {
    if s != [] {
      TotalZero(s[1..], weight);
    }
  }

  lemma {:induction false} TotalPositive<T>(s: seq<T>, weight: T -> nat, i: nat)
    requires i < |s|
    ensures weight(s[i]) <= Total(s, weight)
  {
    TotalUpdate(s, weight, i, s[i]);
  }

  /** Where the first item of `a` sits in a rearrangement, and what is left. */
  lemma TakeOut<T>(a: seq<T>, b: seq<T>) returns (j: nat)
    requires a != [] && multiset(a) == multiset(b)
    ensures j < |b| && b[j] == a[0] && multiset(a[1..]) == multiset(b[..j] + b[j + 1..])
  {
    assert a[0] in multiset(b);
    j :| 0 <= j < |b| && b[j] == a[0];
    assert a == [a[0]] + a[1..];
    assert b == b[..j] + [b[j]] + b[j + 1..];
    assert multiset(a[1..]) == multiset(a) - multiset{a[0]};
    assert multiset(b[..j] + b[j + 1..]) == multiset(b) - multiset{b[j]};
  }

  /** Weights of 0 and 1 count the places that weigh 1. */
  lemma {:induction false} TotalIsCount<T>(s: seq<T>, weight: T -> nat, found: set<nat>)
    requires forall i :: 0 <= i < |s| ==> weight(s[i]) <= 1
    requires forall i: nat :: i in found <==> i < |s| && weight(s[i]) == 1
    ensures Total(s, weight) == |found|
    decreases |s|
  {
    if s == [] {
      assert found == {};
    } else {
      var n := |s| - 1;
      var front, some := s[..n], found - {n};
      forall i: nat ensures i in some <==> i < |front| && weight(front[i]) == 1 {
        assert i < n ==> front[i] == s[i];
      }
      TotalIsCount(front, weight, some);
      assert n in found ==> found == some + {n};
      assert n !in found ==> found == some;
      TotalLast(s, weight);
    }
  }

  lemma TotalLast<T>(s: seq<T>, weight: T -> nat)
    requires s != []
    ensures Total(s, weight) == Total(s[..|s| - 1], weight) + weight(s[|s| - 1])
  {
    var n := |s| - 1;
    assert s == s[..n] + [s[n]];
    TotalAppend(s[..n], [s[n]], weight);
    assert [s[n]][1..] == [];
  }

  /** Places moved up by one are as many. */
  lemma {:induction false} ShiftedCount(a: set<nat>, b: set<nat>)
    requires forall i: nat :: i in b <==> i > 0 && i - 1 in a
    ensures |a| == |b|
    decreases |a|
  {
    if i: nat :| i in a {
      assert i + 1 in b;
      ShiftedCount(a - {i}, b - {i + 1});
    } else {
      assert b == {};
    }
  }
}
