/** Bytes, fixed-width integer fields, and writes into the middle of a buffer. */
module Bytes {

  const U32_LIMIT: nat := 0x1_0000_0000
  const U64_LIMIT: nat := 0x1_0000_0000_0000_0000

  type byte = x: int | 0 <= x < 256
  type u32 = x: int | 0 <= x < 0x1_0000_0000

  function Zero(n: nat): (z: seq<byte>)
    ensures |z| == n && forall i :: 0 <= i < n ==> z[i] == 0
  {
    seq(n, _ => 0)
  }

  // ----- big-endian fields: values are cut to the field's width

  function U16(v: nat): (b: seq<byte>)
    ensures |b| == 2
  {
    [(v / 0x100) % 0x100, v % 0x100]
  }

  function U32(v: nat): (b: seq<byte>)
    ensures |b| == 4
  {
    U16(v / 0x1_0000) + U16(v)
  }

  function U64(v: nat): (b: seq<byte>)
    ensures |b| == 8
  {
    U32(v / 0x1_0000_0000) + U32(v)
  }

  function Get16(b: seq<byte>, at: nat): (v: nat)
    requires at + 2 <= |b|
    ensures v < 0x1_0000
  {
    var hi: nat, lo: nat := b[at], b[at + 1];
    hi * 0x100 + lo
  }

  function Get32(b: seq<byte>, at: nat): (v: nat)
    requires at + 4 <= |b|
    ensures v < 0x1_0000_0000
  {
    Get16(b, at) * 0x1_0000 + Get16(b, at + 2)
  }

  function Get64(b: seq<byte>, at: nat): (v: nat)
    requires at + 8 <= |b|
    ensures v < 0x1_0000_0000_0000_0000
  {
    Get32(b, at) * 0x1_0000_0000 + Get32(b, at + 4)
  }

  lemma U16RoundTrip(v: nat)
    ensures Get16(U16(v), 0) == v % 0x1_0000
  {
  }

  lemma U32RoundTrip(v: nat)
    ensures Get32(U32(v), 0) == v % 0x1_0000_0000
  {
    var b := U32(v);
    assert b[0..2] == U16(v / 0x1_0000) && b[2..4] == U16(v);
    Get16Slice(b, 0, v / 0x1_0000);
    Get16Slice(b, 2, v);
  }

  /** The most significant byte comes first. */
  lemma BigEndian(b: seq<byte>, at: nat)
    ensures at + 2 <= |b| ==> var b0: nat, b1: nat := b[at], b[at + 1]; Get16(b, at) == 256 * b0 + b1
    ensures at + 4 <= |b| ==>
      var b0: nat, b1: nat, b2: nat, b3: nat := b[at], b[at + 1], b[at + 2], b[at + 3];
      Get32(b, at) == 0x100_0000 * b0 + 0x1_0000 * b1 + 256 * b2 + b3
    ensures at + 8 <= |b| ==> Get64(b, at) == 0x1_0000_0000 * Get32(b, at) + Get32(b, at + 4)
  {
  }

  /** A field found inside a buffer reads the same as on its own. */
  lemma Get16Slice(b: seq<byte>, at: nat, v: nat)
    requires at + 2 <= |b| && b[at..at + 2] == U16(v)
    ensures Get16(b, at) == v % 0x1_0000
  {
    assert b[at] == b[at..at + 2][0] && b[at + 1] == b[at..at + 2][1];
    U16RoundTrip(v);
  }

  lemma Get32Slice(b: seq<byte>, at: nat, v: nat)
    requires at + 4 <= |b| && b[at..at + 4] == U32(v)
    ensures Get32(b, at) == v % 0x1_0000_0000
  {
    var s := b[at..at + 4];
    assert s[0] == b[at] && s[1] == b[at + 1] && s[2] == b[at + 2] && s[3] == b[at + 3];
    U32RoundTrip(v);
  }

  lemma Get64Slice(b: seq<byte>, at: nat, v: nat)
    requires at + 8 <= |b| && b[at..at + 8] == U64(v) && v < 0x1_0000_0000_0000_0000
    ensures Get64(b, at) == v
  {
    hide U32, Get32;
    var s := b[at..at + 8];
    assert s[0..4] == U32(v / 0x1_0000_0000) && s[4..8] == U32(v);
    SubSlice(b, at, at + 8, 0, 4);
    SubSlice(b, at, at + 8, 4, 8);
    Get32Slice(b, at, v / 0x1_0000_0000);
    Get32Slice(b, at + 4, v);
  }

  /** A stretch of a stretch. */
  lemma SubSlice<T>(s: seq<T>, lo: nat, hi: nat, a: nat, b: nat)
    requires lo <= hi <= |s| && a <= b <= hi - lo
    ensures s[lo..hi][a..b] == s[lo + a..lo + b]
  {
    forall i | 0 <= i < b - a ensures s[lo..hi][a..b][i] == s[lo + a..lo + b][i] {
      assert s[lo..hi][a + i] == s[lo + a + i];
    }
  }

  /** Buffers that agree below `hi` agree on every stretch below it. */
  lemma SameBelow<T>(s: seq<T>, t: seq<T>, hi: nat, a: nat, b: nat)
    requires hi <= |s| && hi <= |t| && s[..hi] == t[..hi] && a <= b <= hi
    ensures s[a..b] == t[a..b]
  {
    forall i | a <= i < b ensures s[i] == t[i] {
      assert s[..hi][i] == s[i] && t[..hi][i] == t[i];
    }
  }

  /** Buffers that agree from `lo` on agree on every stretch above it. */
  lemma SameAbove<T>(s: seq<T>, t: seq<T>, lo: nat, a: nat, b: nat)
    requires lo <= a <= b <= |s| == |t| && s[lo..] == t[lo..]
    ensures s[a..b] == t[a..b]
  {
    forall i | a <= i < b ensures s[i] == t[i] {
      assert s[lo..][i - lo] == s[i] && t[lo..][i - lo] == t[i];
    }
  }

  // ----- writes into a buffer

  /** `s` with `bs` written over it at `at`. */
  function Splice<T>(s: seq<T>, at: nat, bs: seq<T>): (r: seq<T>)
    requires at + |bs| <= |s|
    ensures |r| == |s|
  {
    s[..at] + bs + s[at + |bs|..]
  }

  lemma SpliceSame<T>(s: seq<T>, at: nat, bs: seq<T>)
    requires at + |bs| <= |s|
    ensures Splice(s, at, bs)[at..at + |bs|] == bs
  {
  }

  /** A write leaves every stretch it does not touch. */
  lemma SpliceOther<T>(s: seq<T>, at: nat, bs: seq<T>, lo: nat, hi: nat)
    requires at + |bs| <= |s| && lo <= hi <= |s|
    requires hi <= at || at + |bs| <= lo
    ensures Splice(s, at, bs)[lo..hi] == s[lo..hi]
  {
  }

  /** A write right behind a known stretch extends it. */
  lemma SpliceExtend<T>(s: seq<T>, lo: nat, at: nat, bs: seq<T>)
    requires lo <= at && at + |bs| <= |s|
    ensures Splice(s, at, bs)[lo..at + |bs|] == s[lo..at] + bs
  {
  }

  /** A write right in front of a known stretch extends it to the left. */
  lemma SpliceExtendLeft<T>(s: seq<T>, at: nat, bs: seq<T>, hi: nat)
    requires at + |bs| <= hi <= |s|
    ensures Splice(s, at, bs)[at..hi] == bs + s[at + |bs|..hi]
  {
  }

  /** Two writes side by side are one. */
  lemma SpliceTwice<T>(s: seq<T>, at: nat, a: seq<T>, b: seq<T>)
    requires at + |a| + |b| <= |s|
    ensures Splice(Splice(s, at, a), at + |a|, b) == Splice(s, at, a + b)
  {
  }

  /** Go's `copy` of `bs` into a buffer. */
  method Put(a: array<byte>, at: nat, bs: seq<byte>)
    requires at + |bs| <= a.Length
    modifies a
    ensures a[..] == Splice(old(a[..]), at, bs)
  {
    forall i | 0 <= i < |bs| {
      a[at + i] := bs[i];
    }
    assert a[..at] == old(a[..at]);
    assert a[at + |bs|..] == old(a[at + |bs|..]);
    assert a[at..at + |bs|] == bs;
    assert a[..] == a[..at] + a[at..at + |bs|] + a[at + |bs|..];
  }

  /** Fills the buffer front to back: a field goes right behind what is written. */
  method PutNext(a: array<byte>, at: nat, bs: seq<byte>) returns (next: nat)
    requires at + |bs| <= a.Length
    modifies a
    ensures next == at + |bs| && a[..next] == old(a[..at]) + bs
  {
    hide Splice;
    ghost var before := a[..];
    Put(a, at, bs);
    next := at + |bs|;
    SpliceExtend(before, 0, at, bs);
    assert a[..next] == a[..][0..next] && before[0..at] == before[..at];
  }
}
