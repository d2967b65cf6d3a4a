/** The allocation file: one bit per allocation block, most significant bit first. */
module Allocation {
  import opened Bytes
  import opened Bits

  // ----- rounding up

  /** `(n + d - 1) / d` on 64-bit values. */
  function DivRoundUp(n: nat, d: nat): (q: nat)
    requires 0 < d
  {
    (n + d - 1) % U64_LIMIT / d
  }

  /** The smallest number of `d`-sized pieces that hold `n`. */
  ghost predicate IsCeil(n: nat, d: nat, q: nat) {
    (q - 1) * d < n <= q * d
  }

  /** The sum wraps exactly when it reaches 2^64; below that the quotient rounds up. */
  lemma DivRoundUpIsCeil(n: nat, d: nat)
    requires 0 < d < U64_LIMIT && n < U64_LIMIT
    ensures IsCeil(n, d, DivRoundUp(n, d)) <==> n == 0 || n + d - 1 < U64_LIMIT
  {
    var sum, q := n + d - 1, DivRoundUp(n, d);
    if sum < U64_LIMIT {
      assert sum == sum / d * d + sum % d;
    } else {
      var cut := sum - U64_LIMIT;
      assert sum % U64_LIMIT == cut;
      assert cut == cut / d * d + cut % d;
      assert q * d <= cut < n;
    }
  }

  // ----- counting bits

  function One(b: bool): (n: nat) { if b then 1 else 0 }

  /** The bits set in a byte. */
  function Ones(b: byte): nat {
    One(Bit(b, 0)) + One(Bit(b, 1)) + One(Bit(b, 2)) + One(Bit(b, 3))
    + One(Bit(b, 4)) + One(Bit(b, 5)) + One(Bit(b, 6)) + One(Bit(b, 7))
  }

  /** Adds neighbouring bits, then neighbouring pairs, then the two halves. */
  function Popcount(b: bv8): bv8 {
    var pairs := (b & 0x55) + ((b >> 1) & 0x55);
    var fours := (pairs & 0x33) + ((pairs >> 2) & 0x33);
    (fours & 0x0F) + ((fours >> 4) & 0x0F)
  }

  lemma PopcountAdds(b: bv8)
    ensures Popcount(b) == (b & 1) + ((b >> 1) & 1) + ((b >> 2) & 1) + ((b >> 3) & 1)
                           + ((b >> 4) & 1) + ((b >> 5) & 1) + ((b >> 6) & 1) + ((b >> 7) & 1)
  {
  }

  /** Bit `k` as a machine shift finds it. */
  lemma ShiftFindsBit(b: byte)
    ensures Bit(b, 7) <==> (b as bv8 & 1) as int == 1
    ensures Bit(b, 6) <==> ((b as bv8 >> 1) & 1) as int == 1
    ensures Bit(b, 5) <==> ((b as bv8 >> 2) & 1) as int == 1
    ensures Bit(b, 4) <==> ((b as bv8 >> 3) & 1) as int == 1
    ensures Bit(b, 3) <==> ((b as bv8 >> 4) & 1) as int == 1
    ensures Bit(b, 2) <==> ((b as bv8 >> 5) & 1) as int == 1
    ensures Bit(b, 1) <==> ((b as bv8 >> 6) & 1) as int == 1
    ensures Bit(b, 0) <==> ((b as bv8 >> 7) & 1) as int == 1
  {
    BitIsQuotient(b);
    hide Bit;
    assert (b as bv8 & 1) as int == b % 2;
    assert ((b as bv8 >> 1) & 1) as int == b / 2 % 2;
    assert ((b as bv8 >> 2) & 1) as int == b / 4 % 2;
    assert ((b as bv8 >> 3) & 1) as int == b / 8 % 2;
    assert ((b as bv8 >> 4) & 1) as int == b / 16 % 2;
    assert ((b as bv8 >> 5) & 1) as int == b / 32 % 2;
    assert ((b as bv8 >> 6) & 1) as int == b / 64 % 2;
    assert ((b as bv8 >> 7) & 1) as int == b / 128 % 2;
  }

  lemma BitIsQuotient(b: byte)
    ensures (Bit(b, 7) <==> b % 2 == 1) && (Bit(b, 6) <==> b / 2 % 2 == 1)
    ensures (Bit(b, 5) <==> b / 4 % 2 == 1) && (Bit(b, 4) <==> b / 8 % 2 == 1)
    ensures (Bit(b, 3) <==> b / 16 % 2 == 1) && (Bit(b, 2) <==> b / 32 % 2 == 1)
    ensures (Bit(b, 1) <==> b / 64 % 2 == 1) && (Bit(b, 0) <==> b / 128 % 2 == 1)
  {
    BitIs(b, 0); BitIs(b, 1); BitIs(b, 2); BitIs(b, 3); BitIs(b, 4); BitIs(b, 5); BitIs(b, 6); BitIs(b, 7);
    assert Mask(7) == 1 && Mask(6) == 2 && Mask(5) == 4;
    assert Mask(4) == 8 && Mask(3) == 16;
    assert Mask(2) == 32 && Mask(1) == 64;
    assert Mask(0) == 128;
    hide Bit, Mask;
  }

  lemma {:induction false} BitIs(b: nat, k: nat)
    requires k < 8
    ensures Bit(b, k) <==> b / Mask(k) % 2 == 1
    decreases 8 - k
  {
    if k < 7 {
      BitIs(b / 2, k + 1);
      HalfFirst(b, Mask(k + 1));
    }
  }

  lemma HalfFirst(b: nat, m: nat)
    requires m > 0
    ensures b / 2 / m == b / (2 * m)
  {
    var q, h := b / 2 / m, b / 2;
    assert h == q * m + h % m;
    assert (q + 1) * m == q * m + m;
    assert q * (2 * m) == 2 * (q * m) && (q + 1) * (2 * m) == 2 * ((q + 1) * m);
    QuotientIs(b, 2 * m, q);
  }

  lemma QuotientIs(n: nat, d: nat, q: nat)
    requires d > 0 && q * d <= n < (q + 1) * d
    ensures n / d == q
  {
    var p := n / d;
    assert n == p * d + n % d;
    Scaled(p + 1, q, d);
    Scaled(q + 1, p, d);
  }

  lemma Scaled(a: int, b: int, d: nat)
    ensures a <= b ==> a * d <= b * d
  {
  }

  lemma SmallSum(a: bv8, b: bv8, c: bv8, d: bv8, e: bv8, f: bv8, g: bv8, h: bv8)
    requires a <= 1 && b <= 1 && c <= 1 && d <= 1 && e <= 1 && f <= 1 && g <= 1 && h <= 1
    ensures (a + b + c + d + e + f + g + h) as int
         == a as int + b as int + c as int + d as int + e as int + f as int + g as int + h as int
  {
  }

  lemma OneBit(x: bv8)
    ensures (x & 1) <= 1 && ((x & 1) as int == 0 || (x & 1) as int == 1)
  {
  }

  /** The bit trick counts the bits that are set. */
  lemma PopcountCounts(b: byte)
    ensures Popcount(b as bv8) as int == Ones(b)
  {
    var x := b as bv8;
    PopcountAdds(x);
    ShiftFindsBit(b);
    hide Bit, Popcount;
    OneBit(x); OneBit(x >> 1); OneBit(x >> 2); OneBit(x >> 3);
    OneBit(x >> 4); OneBit(x >> 5); OneBit(x >> 6); OneBit(x >> 7);
    SmallSum(x & 1, (x >> 1) & 1, (x >> 2) & 1, (x >> 3) & 1, (x >> 4) & 1, (x >> 5) & 1, (x >> 6) & 1, (x >> 7) & 1);
  }

  // ----- the bitmap

  /** Bits set below `n`. */
  ghost function SetBits(bs: seq<byte>, n: nat): nat
    requires n <= 8 * |bs|
  {
    n - ClearBits(bs, n)
  }

  lemma OneByte(bs: seq<byte>, i: nat)
    requires i < |bs|
    ensures SetBits(bs, 8 * i + 8) == SetBits(bs, 8 * i) + Ones(bs[i])
  {
    hide Bit, ClearBits;
    FirstFour(bs, i);
    ClearStep(bs, i, 4); ClearStep(bs, i, 5); ClearStep(bs, i, 6); ClearStep(bs, i, 7);
  }

  lemma FirstFour(bs: seq<byte>, i: nat)
    requires i < |bs|
    ensures ClearBits(bs, 8 * i + 4) == ClearBits(bs, 8 * i) + 4
      - One(Bit(bs[i], 0)) - One(Bit(bs[i], 1)) - One(Bit(bs[i], 2)) - One(Bit(bs[i], 3))
  {
    hide Bit, ClearBits;
    ClearStep(bs, i, 0); ClearStep(bs, i, 1); ClearStep(bs, i, 2); ClearStep(bs, i, 3);
  }

  lemma CountStep(bs: seq<byte>, i: nat)
    requires i < |bs|
    ensures SetBits(bs, 8 * i + 8) == SetBits(bs, 8 * i) + Popcount(bs[i] as bv8) as int
  {
    hide Popcount, Ones, ClearBits;
    PopcountCounts(bs[i]);
    OneByte(bs, i);
  }

  lemma ClearStep(bs: seq<byte>, i: nat, k: nat)
    requires i < |bs| && k < 8
    ensures ClearBits(bs, 8 * i + k + 1) == ClearBits(bs, 8 * i + k) + 1 - One(Bit(bs[i], k))
  {
    assert (8 * i + k) / 8 == i && (8 * i + k) % 8 == k;
    hide Bit;
  }

  /** No bit from `n` on is set. */
  ghost predicate ClearFrom(bs: seq<byte>, n: nat) {
    forall k :: n <= k < 8 * |bs| ==> !BitAt(bs, k)
  }

  lemma {:induction false} ClearTail(bs: seq<byte>, n: nat, m: nat)
    requires ClearFrom(bs, n) && n <= m <= 8 * |bs|
    ensures SetBits(bs, m) == SetBits(bs, n)
    decreases m - n
  {
    hide BitAt;
    if n < m {
      ClearTail(bs, n, m - 1);
      assert !BitAt(bs, m - 1);
    }
  }

  lemma {:induction false} ZeroIsClear(bs: seq<byte>)
    requires forall i :: 0 <= i < |bs| ==> bs[i] == 0
    ensures ClearFrom(bs, 0)
  {
    forall k | 0 <= k < 8 * |bs| ensures !BitAt(bs, k) {
      ZeroHasNoBit(k % 8);
    }
  }

  class AllocationBitmap {
    const bytes: array<byte>
    const bits: nat

    /** All blocks free. The length is computed on 32 bits, where `total + 7` wraps. */
    constructor (total: nat)
      requires total < U32_LIMIT
      ensures fresh(bytes) && bits == total
      ensures bytes.Length == (total + 7) % U32_LIMIT / 8
      ensures ClearFrom(bytes[..], 0)
    {
      var n := (total + 7) % U32_LIMIT / 8;
      bytes := new byte[n](_ => 0);
      bits := total;
      new;
      ZeroIsClear(bytes[..]);
    }

    /** Every block has a bit. */
    predicate Covers() {
      bits <= 8 * bytes.Length
    }

    /** Mark a run of blocks, cut off at the volume's end. Without a byte for a
        block of the run the store is out of range and the call does not return. */
    method MarkUsed(start: nat, count: nat) returns (inRange: bool)
      requires start < U32_LIMIT && count < U32_LIMIT && bits < U32_LIMIT
      modifies bytes
      ensures inRange <==> count == 0 || bits <= start || start + count <= 8 * bytes.Length || Covers()
      ensures inRange ==> forall n :: 0 <= n < 8 * bytes.Length ==>
        (BitAt(bytes[..], n) <==> (start <= n < start + count && n < bits) || BitAt(old(bytes[..]), n))
    {
      hide BitAt;
      for i := 0 to count
        invariant start + i <= bits || i == 0
        invariant start + i <= 8 * bytes.Length || i == 0
        invariant forall n :: 0 <= n < 8 * bytes.Length ==>
          (BitAt(bytes[..], n) <==> start <= n < start + i || BitAt(old(bytes[..]), n))
      {
        var b := (start + i) % U32_LIMIT;
        if b >= bits {
          break;
        }
        if b / 8 >= bytes.Length {
          return false;
        }
        ghost var before := bytes[..];
        bytes[b / 8] := SetBit(bytes[b / 8], b % 8);
        assert bytes[..] == before[b / 8 := SetBit(before[b / 8], b % 8)];
        forall n | 0 <= n < 8 * bytes.Length ensures BitAt(bytes[..], n) <==> n == b || BitAt(before, n) {
          SetBitAt(before, b, n);
        }
      }
      return true;
    }

    /** The blocks whose bit is clear. */
    method FreeBlocks() returns (free: nat)
      requires Covers() && bits < U32_LIMIT && bytes.Length < U32_LIMIT / 8 && ClearFrom(bytes[..], bits)
      ensures free == ClearBits(bytes[..], bits)
    {
      ghost var bs := bytes[..];
      var used := 0;
      assert SetBits(bs, 0) == 0;
      hide ClearBits, Popcount, ClearFrom, BitAt, SetBits;
      for i := 0 to bytes.Length
        invariant used == SetBits(bs, 8 * i)
      {
        CountStep(bs, i);
        AtMostAll(bs, 8 * i + 8);
        used := (used + Popcount(bytes[i] as bv8) as int) % U32_LIMIT;
      }
      Rest(bs, bits, used);
      return (bits + U32_LIMIT - used) % U32_LIMIT;
    }
  }

  lemma AtMostAll(bs: seq<byte>, n: nat)
    requires n <= 8 * |bs|
    ensures SetBits(bs, n) <= n
  {
  }

  lemma Rest(bs: seq<byte>, bits: nat, used: nat)
    requires ClearFrom(bs, bits) && bits <= 8 * |bs| && used == SetBits(bs, 8 * |bs|) && bits < U32_LIMIT
    ensures used <= bits && (bits + U32_LIMIT - used) % U32_LIMIT == ClearBits(bs, bits)
  {
    assert SetBits(bs, bits) == bits - ClearBits(bs, bits);
    hide ClearBits;
    ClearTail(bs, bits, 8 * |bs|);
  }

  /** A new bitmap covers its volume unless the volume has one of the seven
      largest 32-bit block counts; for those it has no byte at all. */
  lemma BitmapCoversUnlessWrapped(total: nat)
    requires total < U32_LIMIT
    ensures total <= 8 * ((total + 7) % U32_LIMIT / 8) <==> total <= U32_LIMIT - 8
    ensures total > U32_LIMIT - 8 ==> (total + 7) % U32_LIMIT / 8 == 0
  {
  }
}
