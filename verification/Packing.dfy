/** Greedy left-to-right packing of sized items into nodes of a fixed capacity. */
module Packing {
  import opened Seqs

  /** `groups` is what the greedy packer makes of `items`: the items in order,
      no empty group, a group over capacity only if it holds a single item, and
      no group whose successor's first item would still have fitted. */
  ghost predicate Greedy<T>(items: seq<T>, size: T -> nat, cap: nat, groups: seq<seq<T>>)
  {
    && Concat(groups) == items
    && (forall g :: 0 <= g < |groups| ==> groups[g] != [])
    && (forall g :: 0 <= g < |groups| ==> |groups[g]| == 1 || Total(groups[g], size) <= cap)
    && (forall g :: 0 <= g < |groups| - 1 ==> Total(groups[g], size) + size(groups[g + 1][0]) > cap)
  }

  lemma GreedyNothing<T>(size: T -> nat, cap: nat)
    ensures Greedy([], size, cap, [])
  {
  }

  lemma TotalSnoc<T>(s: seq<T>, x: T, size: T -> nat)
    ensures Total(s + [x], size) == Total(s, size) + size(x)
  {
    TotalAppend(s, [x], size);
  }

  lemma TotalSingle<T>(s: seq<T>, size: T -> nat)
    requires s != []
    ensures |s| == 1 ==> Total(s, size) == size(s[0])
  {
  }

  /** An item that fits joins the open group. */
  lemma GreedyJoin<T>(items: seq<T>, size: T -> nat, cap: nat, groups: seq<seq<T>>, cur: seq<T>, x: T)
    requires Greedy(items, size, cap, groups + [cur]) && Total(cur, size) + size(x) <= cap
    ensures Greedy(items + [x], size, cap, groups + [cur + [x]])
  {
    var before, after := groups + [cur], groups + [cur + [x]];
    assert before[|groups|] == cur;
    TotalSnoc(cur, x, size);
    ConcatSnoc(groups, cur);
    ConcatSnoc(groups, cur + [x]);
    assert cur != [] && (cur + [x])[0] == cur[0];
    forall g | 0 <= g < |after| ensures before[g] != [] && after[g] != [] && after[g][0] == before[g][0] {
      assert after[g] == if g < |groups| then before[g] else cur + [x];
    }
    forall g | 0 <= g < |after| - 1 ensures Total(after[g], size) + size(after[g + 1][0]) > cap {
      assert after[g] == before[g];
    }
  }

  /** An item that does not fit closes the open group and starts the next. */
  lemma GreedyFlush<T>(items: seq<T>, size: T -> nat, cap: nat, groups: seq<seq<T>>, cur: seq<T>, x: T)
    requires Greedy(items, size, cap, groups + [cur]) && Total(cur, size) + size(x) > cap
    ensures Greedy(items + [x], size, cap, groups + [cur] + [[x]])
  {
    ConcatSnoc(groups + [cur], [x]);
  }

  lemma GreedyStart<T>(size: T -> nat, cap: nat, x: T)
    ensures Greedy([x], size, cap, [[x]])
  {
    assert Concat([[x]]) == [x] + Concat([[x]][1..]);
  }

  // ----- what follows from being greedy

  lemma GreedyTail<T>(items: seq<T>, size: T -> nat, cap: nat, groups: seq<seq<T>>)
    requires Greedy(items, size, cap, groups) && groups != []
    ensures items == groups[0] + Concat(groups[1..])
    ensures Greedy(items[|groups[0]|..], size, cap, groups[1..])
  {
    assert items[|groups[0]|..] == Concat(groups[1..]);
  }

  lemma TotalSame<T, U>(a: seq<T>, size: T -> nat, b: seq<U>, size': U -> nat)
    requires |a| == |b| && forall i :: 0 <= i < |a| ==> size(a[i]) == size'(b[i])
    ensures Total(a, size) == Total(b, size')
  {
    if a != [] {
      assert size(a[0]) == size'(b[0]);
      TotalSame(a[1..], size, b[1..], size');
    }
  }

  /** With the same sizes, one packing's first group cannot be shorter. */
  lemma FirstGroupNotShorter<T, U>(items: seq<T>, size: T -> nat, groups: seq<seq<T>>,
                                   items': seq<U>, size': U -> nat, groups': seq<seq<U>>, cap: nat)
    requires Greedy(items, size, cap, groups) && Greedy(items', size', cap, groups')
    requires |items| == |items'| && forall i :: 0 <= i < |items| ==> size(items[i]) == size'(items'[i])
    requires groups != [] && groups' != []
    ensures |groups[0]| >= |groups'[0]|
  {
    var n := |groups[0]|;
    GreedyTail(items, size, cap, groups);
    GreedyTail(items', size', cap, groups');
    if n < |groups'[0]| {
      assert |groups| > 1;
      var next := groups[1][0];
      assert Total(groups[0], size) + size(groups[0 + 1][0]) > cap;
      assert Concat(groups[1..])[0] == next;
      assert items[n] == next;
      var head := groups'[0][..n + 1];
      assert groups'[0][..n + 1] + groups'[0][n + 1..] == groups'[0];
      TotalAppend(head, groups'[0][n + 1..], size');
      assert groups[0] + [next] == items[..n + 1];
      assert head == items'[..n + 1];
      TotalSame(items[..n + 1], size, items'[..n + 1], size');
      TotalSnoc(groups[0], next, size);
    }
  }

  /** Greedy packing is determined by the sizes alone: two lists of equal sizes
      fall into groups of equal lengths. */
  lemma {:induction false} GreedyDetermined<T, U>(items: seq<T>, size: T -> nat, groups: seq<seq<T>>,
                                                  items': seq<U>, size': U -> nat, groups': seq<seq<U>>, cap: nat)
    requires Greedy(items, size, cap, groups) && Greedy(items', size', cap, groups')
    requires |items| == |items'| && forall i :: 0 <= i < |items| ==> size(items[i]) == size'(items'[i])
    ensures |groups| == |groups'| && forall g :: 0 <= g < |groups| ==> |groups[g]| == |groups'[g]|
    decreases |groups|
  {
    if groups == [] || groups' == [] {
      assert groups != [] ==> Concat(groups) != [];
      assert groups' != [] ==> Concat(groups') != [];
    } else {
      FirstGroupNotShorter(items, size, groups, items', size', groups', cap);
      FirstGroupNotShorter(items', size', groups', items, size, groups, cap);
      GreedyTail(items, size, cap, groups);
      GreedyTail(items', size', cap, groups');
      var n := |groups[0]|;
      GreedyDetermined(items[n..], size, groups[1..], items'[n..], size', groups'[1..], cap);
      forall g | 0 <= g < |groups| ensures |groups[g]| == |groups'[g]| {
        if g > 0 {
          assert groups[g] == groups[1..][g - 1] && groups'[g] == groups'[1..][g - 1];
        }
      }
    }
  }

  /** Groups of equal lengths hold corresponding items. */
  lemma {:induction false} Aligned<T, W>(groups: seq<seq<T>>, groups': seq<seq<T>>, mark: T -> W, g: nat, i: nat)
    requires |groups| == |groups'| && forall k :: 0 <= k < |groups| ==> |groups[k]| == |groups'[k]|
    requires |Concat(groups)| == |Concat(groups')|
    requires forall k :: 0 <= k < |Concat(groups)| ==> mark(Concat(groups)[k]) == mark(Concat(groups')[k])
    requires g < |groups| && i < |groups[g]|
    ensures mark(groups[g][i]) == mark(groups'[g][i])
  {
    var n := |groups[0]|;
    var all, all' := Concat(groups), Concat(groups');
    var rest, rest' := Concat(groups[1..]), Concat(groups'[1..]);
    assert all == groups[0] + rest && all' == groups'[0] + rest';
    hide Concat;
    if g == 0 {
      assert all[i] == groups[0][i] && all'[i] == groups'[0][i];
    } else {
      forall k | 0 <= k < |rest| ensures mark(rest[k]) == mark(rest'[k]) {
        assert rest[k] == all[n + k] && rest'[k] == all'[n + k];
      }
      Aligned(groups[1..], groups'[1..], mark, g - 1, i);
    }
  }

  /** The packing of a list is one packing. */
  lemma {:induction false} GroupsSame<T>(items: seq<T>, size: T -> nat, cap: nat, a: seq<seq<T>>, b: seq<seq<T>>)
    requires Greedy(items, size, cap, a) && Greedy(items, size, cap, b)
    ensures a == b
  {
    GreedyDetermined(items, size, a, items, size, b, cap);
    var self := (x: T) => x;
    forall g | 0 <= g < |a| ensures a[g] == b[g] {
      forall i | 0 <= i < |a[g]| ensures a[g][i] == b[g][i] {
        Aligned(a, b, self, g, i);
        assert self(a[g][i]) == self(b[g][i]);
      }
    }
  }

  /** No two neighbours fit a group together. */
  ghost predicate NoPair<T>(items: seq<T>, size: T -> nat, cap: nat) {
    forall i :: 0 < i < |items| ==> size(items[i - 1]) + size(items[i]) > cap
  }

  lemma NoPairSplits<T>(items: seq<T>, size: T -> nat, cap: nat)
    requires items != []
    ensures NoPair(items, size, cap) <==>
      (|items| > 1 ==> size(items[0]) + size(items[1]) > cap) && NoPair(items[1..], size, cap)
  {
    var rest := items[1..];
    if (|items| > 1 ==> size(items[0]) + size(items[1]) > cap) && NoPair(rest, size, cap) {
      forall i | 0 < i < |items| ensures size(items[i - 1]) + size(items[i]) > cap {
        if i > 1 {
          assert items[i] == rest[i - 1] && items[i - 1] == rest[i - 1 - 1];
        }
      }
    }
    if NoPair(items, size, cap) {
      forall i | 0 < i < |rest| ensures size(rest[i - 1]) + size(rest[i]) > cap {
        assert rest[i] == items[i + 1] && rest[i - 1] == items[i + 1 - 1];
      }
    }
  }

  /** Packing makes as many groups as there are items exactly if no two neighbours
      fit together. */
  lemma {:induction false} NothingGained<T>(items: seq<T>, size: T -> nat, cap: nat, groups: seq<seq<T>>)
    requires Greedy(items, size, cap, groups)
    ensures |groups| <= |items|
    ensures |groups| == |items| <==> NoPair(items, size, cap)
    decreases |groups|
  {
    if groups != [] {
      GreedyTail(items, size, cap, groups);
      var n, rest := |groups[0]|, items[|groups[0]|..];
      NothingGained(rest, size, cap, groups[1..]);
      NoPairSplits(items, size, cap);
      if n == 1 {
        TotalSingle(groups[0], size);
        if |groups| > 1 {
          assert Total(groups[0], size) + size(groups[0 + 1][0]) > cap;
          assert rest[0] == Concat(groups[1..])[0] == groups[1][0];
        }
      } else {
        assert groups[0] == [items[0], items[1]] + groups[0][2..];
        TotalAppend([items[0], items[1]], groups[0][2..], size);
        TotalPair(items[0], items[1], size);
      }
    }
  }

  lemma TotalPair<T>(x: T, y: T, size: T -> nat)
    ensures Total([x, y], size) == size(x) + size(y)
  {
    TotalAppend([x], [y], size);
    TotalSingle([x], size);
    TotalSingle([y], size);
    assert [x] + [y] == [x, y];
  }

  /** When any two items fit together, every group but the last holds two, so
      packing at least halves. */
  lemma {:induction false} GreedyHalves<T>(items: seq<T>, size: T -> nat, cap: nat, groups: seq<seq<T>>)
    requires Greedy(items, size, cap, groups)
    requires forall i :: 0 <= i < |items| ==> 2 * size(items[i]) <= cap
    ensures |groups| <= (|items| + 1) / 2
    decreases |groups|
  {
    if |groups| >= 1 {
      GreedyTail(items, size, cap, groups);
      if |groups| > 1 {
        assert Concat(groups[1..])[0] == groups[1][0];
        assert items[0] == groups[0][0] && items[|groups[0]|] == groups[1][0];
        assert Total(groups[0], size) + size(groups[0 + 1][0]) > cap;
        TotalSingle(groups[0], size);
        assert |groups[0]| >= 2;
      }
      GreedyHalves(items[|groups[0]|..], size, cap, groups[1..]);
    }
  }

  /** An item larger than the capacity is alone in its group. */
  lemma OversizeAlone<T>(items: seq<T>, size: T -> nat, cap: nat, groups: seq<seq<T>>, g: nat, i: nat)
    requires Greedy(items, size, cap, groups) && g < |groups| && i < |groups[g]| && size(groups[g][i]) > cap
    ensures groups[g] == [groups[g][i]]
  {
    TotalPositive(groups[g], size, i);
  }

  /** Where an item of the concatenation lives. */
  lemma {:induction false} ConcatAt<T>(groups: seq<seq<T>>, k: nat) returns (g: nat, i: nat)
    requires k < |Concat(groups)|
    ensures g < |groups| && i < |groups[g]| && groups[g][i] == Concat(groups)[k]
  {
    if k < |groups[0]| {
      g, i := 0, k;
    } else {
      g, i := ConcatAt(groups[1..], k - |groups[0]|);
      g := g + 1;
    }
  }
}
