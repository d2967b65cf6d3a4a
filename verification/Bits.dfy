/** One bit of a byte, most significant first, as the volume bitmap and the
    B-tree node map number them. */
module Bits {
  import opened Bytes

  /** Bit `k` of a byte; bit 0 is the most significant, bit 7 the lowest. */
  predicate Bit(b: nat, k: nat)
    requires k < 8
    decreases 8 - k
  {
    if k == 7 then b % 2 == 1 else Bit(b / 2, k + 1)
  }

  /** `1 << (7 - k)` */
  function Mask(k: nat): (m: nat)
    requires k < 8
    ensures m > 0
    decreases 8 - k
  {
    if k == 7 then 1 else 2 * Mask(k + 1)
  }

  /** A clear bit leaves room for its mask below any multiple of twice that. */
  lemma {:induction false} MaskFits(b: nat, k: nat, scale: nat)
    requires k < 8 && !Bit(b, k) && b < 2 * Mask(k) * scale
    ensures b + Mask(k) < 2 * Mask(k) * scale
    decreases 8 - k
  {
    if k < 7 {
      assert 2 * Mask(k) * scale == 2 * (2 * Mask(k + 1) * scale);
      MaskFits(b / 2, k + 1, scale);
    }
  }

  /** `b | 1 << (7 - k)` */
  function SetBit(b: byte, k: nat): (r: byte)
    requires k < 8
  {
    if Bit(b, k) then b
    else
      var scale := if k == 0 then 1 else if k == 1 then 2 else if k == 2 then 4 else if k == 3 then 8
                   else if k == 4 then 16 else if k == 5 then 32 else if k == 6 then 64 else 128;
      assert 2 * Mask(k) * scale == 256;
      MaskFits(b, k, scale);
      b + Mask(k)
  }

  lemma {:induction false} AddMask(b: nat, k: nat, j: nat)
    requires k < 8 && j < 8 && !Bit(b, k)
    ensures Bit(b + Mask(k), j) <==> j == k || Bit(b, j)
    decreases 8 - k, 8 - j
  {
    if k < 7 && j < 7 {
      assert (b + Mask(k)) / 2 == b / 2 + Mask(k + 1);
      AddMask(b / 2, k + 1, j + 1);
    } else if k == 7 && j < 7 {
      assert (b + 1) / 2 == b / 2;
    }
  }

  /** Setting a bit sets that bit and no other. */
  lemma SetBitSets(b: byte, k: nat, j: nat)
    requires k < 8 && j < 8
    ensures Bit(SetBit(b, k), j) <==> j == k || Bit(b, j)
  {
    if !Bit(b, k) {
      AddMask(b, k, j);
    }
  }

  /** Bit `n` of a bitmap. */
  predicate BitAt(bs: seq<byte>, n: nat)
    requires n < 8 * |bs|
  {
    Bit(bs[n / 8], n % 8)
  }

  lemma {:induction false} ZeroHasNoBit(k: nat)
    requires k < 8
    ensures !Bit(0, k)
    decreases 8 - k
  {
    if k < 7 {
      ZeroHasNoBit(k + 1);
    }
  }

  /** Setting bit `m` of a bitmap changes that bit only. */
  lemma SetBitAt(bs: seq<byte>, m: nat, n: nat)
    requires m < 8 * |bs| && n < 8 * |bs|
    ensures BitAt(bs[m / 8 := SetBit(bs[m / 8], m % 8)], n) <==> n == m || BitAt(bs, n)
  {
    if n / 8 == m / 8 {
      SetBitSets(bs[m / 8], m % 8, n % 8);
    }
  }

  /** Clear bits below `n`. */
  ghost function ClearBits(bs: seq<byte>, n: nat): (c: nat)
    requires n <= 8 * |bs|
    ensures c <= n
  {
    if n == 0 then 0 else ClearBits(bs, n - 1) + if BitAt(bs, n - 1) then 0 else 1
  }
}
