/** The block arithmetic of a planned volume, on numbers alone: prefix sums of
    region lengths, and the bitmap that has to hold a bit for itself. */
module Geometry {
  import opened Bytes
  import opened Allocation

  // ----- sums

  function SumOf(s: seq<nat>): nat {
    if s == [] then 0 else SumOf(s[..|s| - 1]) + s[|s| - 1]
  }

  lemma SumStep(s: seq<nat>, k: nat)
    requires k < |s|
    ensures SumOf(s[..k + 1]) == SumOf(s[..k]) + s[k]
  {
    assert s[..k + 1][..k] == s[..k];
  }

  lemma {:induction false} SumMonotone(s: seq<nat>, j: nat, k: nat)
    requires j <= k <= |s|
    ensures SumOf(s[..j]) <= SumOf(s[..k])
    ensures j < k ==> SumOf(s[..j]) + s[j] <= SumOf(s[..k])
    decreases k
  {
    if j < k {
      SumStep(s, k - 1);
      SumMonotone(s, j, k - 1);
    }
  }

  /** Below the sum every number falls into exactly one part. */
  lemma {:induction false} SumLocates(s: seq<nat>, n: nat, k: nat) returns (i: nat)
    requires k <= |s| && n < SumOf(s[..k])
    ensures i < k && SumOf(s[..i]) <= n < SumOf(s[..i]) + s[i]
    decreases k
  {
    if k > 0 {
      SumStep(s, k - 1);
      if n >= SumOf(s[..k - 1]) {
        i := k - 1;
      } else {
        i := SumLocates(s, n, k - 1);
      }
    }
  }

  lemma {:induction false} SumBounded(s: seq<nat>, most: nat)
    requires forall i :: 0 <= i < |s| ==> s[i] <= most
    ensures SumOf(s) <= |s| * most
  {
    if s != [] {
      SumBounded(s[..|s| - 1], most);
    }
  }

  // ----- rounding up, without a width

  function Ceil(n: nat, d: nat): (q: nat)
    requires d > 0
    ensures IsCeil(n, d, q)
  {
    CeilBounds(n, d);
    (n + d - 1) / d
  }

  lemma CeilBounds(n: nat, d: nat)
    requires d > 0
    ensures IsCeil(n, d, (n + d - 1) / d)
  {
    var q := (n + d - 1) / d;
    assert n + d - 1 == q * d + (n + d - 1) % d;
    assert (q - 1) * d == q * d - d;
  }

  lemma CeilIs(n: nat, d: nat, q: nat)
    requires d > 0 && IsCeil(n, d, q)
    ensures q == Ceil(n, d)
  {
    hide Ceil;
    var p: int := Ceil(n, d);
    Scaled(p, q - 1, d);
    Scaled(q, p - 1, d);
  }

  lemma CeilMonotone(m: nat, n: nat, d: nat)
    requires d > 0 && m <= n
    ensures Ceil(m, d) <= Ceil(n, d)
  {
    hide Ceil;
    Scaled(Ceil(n, d), Ceil(m, d) - 1, d);
  }

  lemma CeilAtLeastOne(n: nat, d: nat)
    requires d > 0 && n > 0
    ensures Ceil(n, d) >= 1
  {
    hide Ceil;
  }

  /** A large divisor shrinks: `ceil(n / d)` for `d >= 4096`. */
  lemma CeilShrinks(n: nat, d: nat, most: nat)
    requires d >= 4096 && n <= 2 * most && most >= 2
    ensures Ceil(n, d) <= most
  {
    hide Ceil;
    var q: int := Ceil(n, d);
    if q > 0 {
      Factors(q - 1, 4096, d);
    }
  }

  lemma Factors(x: nat, a: nat, b: nat)
    requires a <= b
    ensures x * a <= x * b
  {
  }

  // ----- the bitmap holds a bit for its own blocks

  /** Boot block, bitmap, the other forks and files, alternate header; at least `least`. */
  function VolumeBlocks(alloc: nat, others: nat, least: nat): (total: nat)
    ensures total >= least && total >= 2 + alloc + others
  {
    if 2 + alloc + others < least then least else 2 + alloc + others
  }

  /** Bitmap blocks needed for the volume that `alloc` bitmap blocks make. */
  function Needed(alloc: nat, others: nat, least: nat, blockSize: nat): nat
    requires blockSize > 0
  {
    Ceil(VolumeBlocks(alloc, others, least), 8 * blockSize)
  }

  lemma NeededMonotone(a: nat, b: nat, others: nat, least: nat, blockSize: nat)
    requires blockSize > 0 && a <= b
    ensures Needed(a, others, least, blockSize) <= Needed(b, others, least, blockSize)
  {
    CeilMonotone(VolumeBlocks(a, others, least), VolumeBlocks(b, others, least), 8 * blockSize);
  }

  /** `alloc` is the least positive number of bitmap blocks that is exactly enough. */
  ghost predicate LeastFixedPoint(alloc: nat, others: nat, least: nat, blockSize: nat)
    requires blockSize > 0
  {
    && alloc >= 1 && Needed(alloc, others, least, blockSize) == alloc
    && forall a :: 1 <= a < alloc ==> Needed(a, others, least, blockSize) != a
  }

  const WIDE: nat := 0x7FFF_FFFF_FFFF_FFFF

  /** Iterates to the fixed point; never asks for more blocks than everything else
      together, which is why it stops. */
  method SizeBitmap(blockSize: nat, others: nat, least: nat) returns (alloc: nat, total: nat)
    requires 512 <= blockSize < U32_LIMIT && others + 2 <= WIDE / 4 && least <= WIDE / 4
    ensures LeastFixedPoint(alloc, others, least, blockSize)
    ensures total == VolumeBlocks(alloc, others, least)
  {
    hide Ceil;
    alloc := 1;
    ghost var most := VolumeBlocks(0, others, least);
    CeilAtLeastOne(VolumeBlocks(1, others, least), 8 * blockSize);
    while true
      invariant 1 <= alloc <= most && alloc <= Needed(alloc, others, least, blockSize)
      invariant forall a :: 1 <= a < alloc ==> Needed(a, others, least, blockSize) > a
      decreases most - alloc
    {
      total := 1 + alloc + others + 1;
      if total < least {
        total := least;
      }
      DivIsCeil(total, 8 * blockSize);
      var need := DivRoundUp(total, blockSize * 8);
      if need <= alloc {
        break;
      }
      CeilShrinks(total, 8 * blockSize, most);
      NeededMonotone(alloc, need, others, least, blockSize);
      forall a | 1 <= a < need ensures Needed(a, others, least, blockSize) > a {
        if a >= alloc {
          NeededMonotone(alloc, a, others, least, blockSize);
        }
      }
      alloc := need;
    }
  }

  /** Far from 2^64 the machine's rounding is the true one. */
  lemma DivIsCeil(n: nat, d: nat)
    requires 0 < d && n + d - 1 < U64_LIMIT
    ensures DivRoundUp(n, d) == Ceil(n, d)
  {
  }
}
