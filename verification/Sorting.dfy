/** Sorting records by key, and what the scan of neighbours finds. */
module Sorting {
  import opened Tower
  import opened TreeReader
  import opened Keys

  /** `cmp` is a three-way comparison of the keys in `dom`. */
  ghost predicate Orders(cmp: Comparison, dom: Key -> bool) {
    && StrictOrder(LessBy(cmp), dom)
    && forall a, b :: dom(a) && dom(b) ==> (cmp(a, b) == 0 <==> a == b) && cmp(b, a) == -cmp(a, b)
  }

  ghost predicate InDomain(recs: seq<Record>, dom: Key -> bool) {
    forall i :: 0 <= i < |recs| ==> dom(recs[i].key)
  }

  ghost predicate Ascending(recs: seq<Record>, cmp: Comparison) {
    forall i, j :: 0 <= i < j < |recs| ==> cmp(recs[i].key, recs[j].key) <= 0
  }

  /** No key occurs twice. */
  ghost predicate DistinctKeys(recs: seq<Record>) {
    forall i, j :: 0 <= i < j < |recs| ==> recs[i].key != recs[j].key
  }

  lemma NotAboveTrans(cmp: Comparison, dom: Key -> bool, a: Key, b: Key, c: Key)
    requires Orders(cmp, dom) && dom(a) && dom(b) && dom(c) && cmp(a, b) <= 0 && cmp(b, c) <= 0
    ensures cmp(a, c) <= 0
  {
    var lt := LessBy(cmp);
    if a != b && b != c {
      assert lt(a, b) && lt(b, c);
      assert lt(a, c);
    }
  }

  /** Any order the library's unstable sort may leave: it is some ascending
      permutation, and callers may rely on no more than that. */
  method Sort(records: seq<Record>, cmp: Comparison, ghost dom: Key -> bool) returns (sorted: seq<Record>)
    requires Orders(cmp, dom) && InDomain(records, dom)
    ensures multiset(sorted) == multiset(records) && Ascending(sorted, cmp) && InDomain(sorted, dom)
    ensures |sorted| == |records|
  {
    sorted := [];
    for i := 0 to |records|
      invariant multiset(sorted) == multiset(records[..i]) && |sorted| == i
      invariant Ascending(sorted, cmp) && InDomain(sorted, dom)
    {
      hide Ascending, InDomain, Orders;
      assert records[..i + 1] == records[..i] + [records[i]];
      sorted := Insert(sorted, records[i], cmp, dom);
    }
    assert records[..|records|] == records;
  }

  method Insert(sorted: seq<Record>, rec: Record, cmp: Comparison, ghost dom: Key -> bool) returns (r: seq<Record>)
    requires Orders(cmp, dom) && InDomain(sorted, dom) && dom(rec.key) && Ascending(sorted, cmp)
    ensures multiset(r) == multiset(sorted) + multiset{rec} && |r| == |sorted| + 1
    ensures Ascending(r, cmp) && InDomain(r, dom)
  {
    hide Ascending, InDomain, Orders;
    var k: nat := |sorted|;
    while k > 0 && cmp(rec.key, sorted[k - 1].key) < 0
      invariant k <= |sorted|
      invariant forall i :: k <= i < |sorted| ==> cmp(rec.key, sorted[i].key) < 0
    {
      k := k - 1;
    }
    r := sorted[..k] + [rec] + sorted[k..];
    assert sorted == sorted[..k] + sorted[k..];
    Inserted(sorted, rec, k, cmp, dom);
  }

  lemma Inserted(sorted: seq<Record>, rec: Record, k: nat, cmp: Comparison, dom: Key -> bool)
    requires Orders(cmp, dom) && InDomain(sorted, dom) && dom(rec.key) && Ascending(sorted, cmp) && k <= |sorted|
    requires k > 0 ==> cmp(rec.key, sorted[k - 1].key) >= 0
    requires forall i :: k <= i < |sorted| ==> cmp(rec.key, sorted[i].key) < 0
    ensures Ascending(sorted[..k] + [rec] + sorted[k..], cmp) && InDomain(sorted[..k] + [rec] + sorted[k..], dom)
  {
    var r := sorted[..k] + [rec] + sorted[k..];
    forall i, j | 0 <= i < j < |r| ensures cmp(r[i].key, r[j].key) <= 0 {
      InsertedAt(sorted, rec, k, i);
      InsertedAt(sorted, rec, k, j);
      if j == k {
        if i < k - 1 {
          NotAboveTrans(cmp, dom, sorted[i].key, sorted[k - 1].key, rec.key);
        }
        assert cmp(sorted[i].key, rec.key) <= 0;
      } else if i != k {
        assert cmp(sorted[if i < k then i else i - 1].key, sorted[if j < k then j else j - 1].key) <= 0;
      }
    }
    forall i | 0 <= i < |r| ensures dom(r[i].key) {
      InsertedAt(sorted, rec, k, i);
    }
  }

  lemma InsertedAt(sorted: seq<Record>, rec: Record, k: nat, i: nat)
    requires k <= |sorted| && i <= |sorted|
    ensures (sorted[..k] + [rec] + sorted[k..])[i] == if i < k then sorted[i] else if i == k then rec else sorted[i - 1]
  {
  }

  // ----- neighbours

  ghost predicate NeighboursDiffer(recs: seq<Record>, cmp: Comparison) {
    forall i :: 0 < i < |recs| ==> cmp(recs[i - 1].key, recs[i].key) != 0
  }

  lemma {:induction false} StrictlyAfter(recs: seq<Record>, cmp: Comparison, dom: Key -> bool, i: nat, j: nat)
    requires Orders(cmp, dom) && InDomain(recs, dom) && Ascending(recs, cmp) && NeighboursDiffer(recs, cmp)
    requires i < j < |recs|
    ensures cmp(recs[i].key, recs[j].key) < 0
    decreases j - i
  {
    var lt := LessBy(cmp);
    assert cmp(recs[j - 1].key, recs[j].key) < 0;
    if i < j - 1 {
      StrictlyAfter(recs, cmp, dom, i, j - 1);
      assert lt(recs[i].key, recs[j - 1].key) && lt(recs[j - 1].key, recs[j].key);
    }
  }

  /** In ascending order, equal keys anywhere means equal neighbours. */
  lemma NeighboursDecide(recs: seq<Record>, cmp: Comparison, dom: Key -> bool)
    requires Orders(cmp, dom) && InDomain(recs, dom) && Ascending(recs, cmp)
    ensures NeighboursDiffer(recs, cmp) <==> DistinctKeys(recs)
    ensures NeighboursDiffer(recs, cmp) ==> Sorted(recs, LessBy(cmp), dom)
  {
    if NeighboursDiffer(recs, cmp) {
      forall i, j | 0 <= i < j < |recs| ensures cmp(recs[i].key, recs[j].key) < 0 {
        StrictlyAfter(recs, cmp, dom, i, j);
      }
    }
  }

  // ----- permutations

  lemma Twice(s: seq<Record>, i: nat, j: nat)
    requires i < j < |s| && s[i] == s[j]
    ensures multiset(s)[s[i]] >= 2
  {
    assert s == s[..i] + [s[i]] + s[i + 1..j] + [s[j]] + s[j + 1..];
  }

  lemma OccursTwice(s: seq<Record>, x: Record)
    requires multiset(s)[x] >= 2
    ensures exists i, j :: 0 <= i < j < |s| && s[i] == x && s[j] == x
  {
    var k :| 0 <= k < |s| && s[k] == x;
    var rest := s[..k] + s[k + 1..];
    assert s == s[..k] + [x] + s[k + 1..];
    assert multiset(rest)[x] >= 1;
    var m :| 0 <= m < |rest| && rest[m] == x;
    assert if m < k then s[m] == x else s[m + 1] == x;
  }

  ghost predicate KeyTwice(recs: seq<Record>, k: Key) {
    exists i, j :: 0 <= i < j < |recs| && recs[i].key == k && recs[j].key == k
  }

  /** Equal keys stay equal keys however the records are arranged. */
  lemma TwiceElsewhere(a: seq<Record>, b: seq<Record>, k: Key)
    requires multiset(a) == multiset(b) && KeyTwice(a, k)
    ensures KeyTwice(b, k)
  {
    var i, j :| 0 <= i < j < |a| && a[i].key == k && a[j].key == k;
    if a[i] == a[j] {
      Twice(a, i, j);
      OccursTwice(b, a[i]);
    } else {
      assert a[i] in multiset(b) && a[j] in multiset(b);
      var m :| 0 <= m < |b| && b[m] == a[i];
      var n :| 0 <= n < |b| && b[n] == a[j];
      assert if m < n then b[m].key == b[n].key == k else b[n].key == b[m].key == k;
    }
  }

  lemma DistinctElsewhere(a: seq<Record>, b: seq<Record>)
    requires multiset(a) == multiset(b)
    ensures DistinctKeys(a) <==> DistinctKeys(b)
  {
    if !DistinctKeys(a) {
      var i, j :| 0 <= i < j < |a| && a[i].key == a[j].key;
      TwiceElsewhere(a, b, a[i].key);
    }
    if !DistinctKeys(b) {
      var i, j :| 0 <= i < j < |b| && b[i].key == b[j].key;
      TwiceElsewhere(b, a, b[i].key);
    }
  }

  lemma FirstIsLeast(a: seq<Record>, b: seq<Record>, lt: Order, dom: Key -> bool)
    requires multiset(a) == multiset(b) && StrictOrder(lt, dom) && Sorted(a, lt, dom) && Sorted(b, lt, dom)
    requires a != []
    ensures b != [] && a[0] == b[0]
  {
    assert |multiset(b)| == |b| && |multiset(a)| == |a|;
    assert a[0] in multiset(b) && b[0] in multiset(a);
    FirstNotAbove(a, b[0], lt, dom);
    FirstNotAbove(b, a[0], lt, dom);
    hide Sorted;
  }

  lemma FirstNotAbove(a: seq<Record>, x: Record, lt: Order, dom: Key -> bool)
    requires Sorted(a, lt, dom) && x in a
    ensures a != [] && (a[0] == x || lt(a[0].key, x.key)) && dom(x.key) && dom(a[0].key)
  {
    var i :| 0 <= i < |a| && a[i] == x;
    if i > 0 {
      assert lt(a[0].key, a[i].key);
    }
  }

  lemma SortedTail(a: seq<Record>, lt: Order, dom: Key -> bool)
    requires Sorted(a, lt, dom) && a != []
    ensures Sorted(a[1..], lt, dom) && multiset(a[1..]) == multiset(a) - multiset{a[0]}
  {
    assert a == [a[0]] + a[1..];
  }

  /** Strictly sorted, a collection of records has only one order: what the sort
      leaves does not depend on the order it was given. */
  lemma {:induction false} SortedIsUnique(a: seq<Record>, b: seq<Record>, lt: Order, dom: Key -> bool)
    requires multiset(a) == multiset(b) && StrictOrder(lt, dom) && Sorted(a, lt, dom) && Sorted(b, lt, dom)
    ensures a == b
    decreases |a|
  {
    if a == [] {
      assert |multiset(b)| == |b|;
    } else {
      FirstIsLeast(a, b, lt, dom);
      SortedTail(a, lt, dom);
      SortedTail(b, lt, dom);
      assert a == [a[0]] + a[1..] && b == [b[0]] + b[1..];
      hide Sorted, StrictOrder;
      SortedIsUnique(a[1..], b[1..], lt, dom);
    }
  }
}
