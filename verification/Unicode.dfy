/** Names as the catalog holds them: UTF-16 code units of the NFD form. */
module Unicode {
  import opened Bytes
  import opened Wrappers

  type CodeUnit = x: int | 0 <= x < 0x1_0000
  type Name = seq<CodeUnit>

  /** A Unicode scalar value: what ranging over a string yields. */
  type Rune = x: int | 0 <= x < 0x11_0000 && !(0xD800 <= x < 0xE000)

  const MAX_NAME: nat := 255

  /** A name the catalog accepts. */
  type HfsName = n: Name | |n| <= MAX_NAME

  datatype NameError = NameTooLong

  // ----- UTF-16

  function UnitsOf(r: Rune): (u: Name)
    ensures r < 0x1_0000 ==> u == [r]
    ensures r >= 0x1_0000 ==>
      && |u| == 2 && 0xD800 <= u[0] < 0xDC00 <= u[1] < 0xE000
      && var high: int, low: int := u[0], u[1]; r == 0x1_0000 + (high - 0xD800) * 0x400 + (low - 0xDC00)
  {
    if r < 0x1_0000 then [r]
    else [0xD800 + (r - 0x1_0000) / 0x400, 0xDC00 + (r - 0x1_0000) % 0x400]
  }

  function Utf16(s: seq<Rune>): Name
  {
    if s == [] then [] else UnitsOf(s[0]) + Utf16(s[1..])
  }

  lemma {:induction false} Utf16Append(a: seq<Rune>, b: seq<Rune>)
    ensures Utf16(a + b) == Utf16(a) + Utf16(b)
  {
    if a == [] {
      assert a + b == b;
    } else {
      assert (a + b)[0] == a[0] && (a + b)[1..] == a[1..] + b;
      Utf16Append(a[1..], b);
    }
  }

  method EncodeUtf16(s: seq<Rune>) returns (units: Name)
    ensures units == Utf16(s)
  {
    units := [];
    for i := 0 to |s|
      invariant units == Utf16(s[..i])
    {
      Utf16Append(s[..i], [s[i]]);
      assert s[..i + 1] == s[..i] + [s[i]];
      assert Utf16([s[i]]) == UnitsOf(s[i]) + Utf16([s[i]][1..]);
      var r := s[i];
      if r < 0x1_0000 {
        units := units + [r];
      } else {
        var low: int := r;
        low := low - 0x1_0000;
        units := units + [0xD800 + low / 0x400, 0xDC00 + low % 0x400];
      }
    }
    assert s[..|s|] == s;
  }

  /** The scalar value of a surrogate pair. */
  function Paired(high: int, low: int): Rune
    requires 0xD800 <= high < 0xDC00 <= low < 0xE000
  {
    0x1_0000 + (high - 0xD800) * 0x400 + (low - 0xDC00)
  }

  /** The runes a unit string stands for, if it is well formed. */
  function Runes(units: Name): Option<seq<Rune>>
  {
    if units == [] then Some([])
    else if !(0xD800 <= units[0] < 0xE000) then
      match Runes(units[1..])
      case Some(rest) => Some([units[0]] + rest)
      case None => None
    else if units[0] < 0xDC00 && |units| >= 2 && 0xDC00 <= units[1] < 0xE000 then
      match Runes(units[2..])
      case Some(rest) => Some([Paired(units[0], units[1])] + rest)
      case None => None
    else None
  }

  /** No two strings share an encoding: decoding gives the string back. */
  lemma {:induction false} RunesInverts(s: seq<Rune>)
    ensures Runes(Utf16(s)) == Some(s)
  {
    if s != [] {
      RunesInverts(s[1..]);
      var units := Utf16(s);
      assert s == [s[0]] + s[1..];
      if s[0] < 0x1_0000 {
        assert units[1..] == Utf16(s[1..]);
      } else {
        assert units[2..] == Utf16(s[1..]);
      }
    }
  }

  /** NFD is a parameter: nothing here depends on its tables. */
  type Normalizer = seq<Rune> -> seq<Rune>

  method NewName(s: seq<Rune>, nfd: Normalizer) returns (r: Result<HfsName, NameError>)
    ensures r.Ok? <==> |Utf16(nfd(s))| <= 255
    ensures r.Ok? ==> r.value == Utf16(nfd(s))
    ensures r.Err? ==> r.error == NameTooLong
  {
    var units := EncodeUtf16(nfd(s));
    if |units| > MAX_NAME {
      return Err(NameTooLong);
    }
    return Ok(units);
  }

  /** Two strings get one name exactly when their normal forms are equal. */
  lemma SameNameSameForm(s: seq<Rune>, t: seq<Rune>, nfd: Normalizer)
    ensures Utf16(nfd(s)) == Utf16(nfd(t)) <==> nfd(s) == nfd(t)
  {
    RunesInverts(nfd(s));
    RunesInverts(nfd(t));
  }

  lemma OnlyNothingIsEmpty(s: seq<Rune>)
    ensures Utf16(s) == [] <==> s == []
  {
  }

  // ----- the name field

  function NameBytes(name: Name): (b: seq<byte>)
    ensures |b| == 2 * |name|
  {
    if name == [] then [] else U16(name[0]) + NameBytes(name[1..])
  }

  /** The `n` code units at `at`. */
  function UnitsAt(b: seq<byte>, at: nat, n: nat): (u: Name)
    requires at + 2 * n <= |b|
    ensures |u| == n
    ensures forall i :: 0 <= i < n ==> u[i] == Get16(b, at + 2 * i)
  {
    seq(n, i requires 0 <= i < n => Get16(b, at + 2 * i))
  }

  lemma {:induction false} NameBytesAt(name: Name, i: nat)
    requires i < |name|
    ensures NameBytes(name)[2 * i..2 * i + 2] == U16(name[i])
  {
    var b := NameBytes(name);
    if i > 0 {
      NameBytesAt(name[1..], i - 1);
      assert b[2..] == NameBytes(name[1..]);
      assert b[2 * i..2 * i + 2] == b[2..][2 * (i - 1)..2 * (i - 1) + 2];
    }
  }

  /** A name found inside a buffer reads back. */
  lemma NameReadsBack(b: seq<byte>, at: nat, name: Name)
    requires at + 2 * |name| <= |b| && b[at..at + 2 * |name|] == NameBytes(name)
    ensures UnitsAt(b, at, |name|) == name
  {
    hide NameBytes, Get16;
    forall i | 0 <= i < |name| ensures Get16(b, at + 2 * i) == name[i] {
      UnitReadsBack(b, at, name, i);
    }
  }

  lemma UnitReadsBack(b: seq<byte>, at: nat, name: Name, i: nat)
    requires at + 2 * |name| <= |b| && b[at..at + 2 * |name|] == NameBytes(name) && i < |name|
    ensures Get16(b, at + 2 * i) == name[i]
  {
    hide NameBytes, Get16, U16;
    NameBytesAt(name, i);
    SubSlice(b, at, at + 2 * |name|, 2 * i, 2 * i + 2);
    Get16Slice(b, at + 2 * i, name[i]);
  }

  lemma U16Of(b: seq<byte>)
    requires |b| == 2
    ensures U16(Get16(b, 0)) == b
  {
  }

  lemma {:induction false} BytesReadBack(b: seq<byte>, at: nat, n: nat)
    requires at + 2 * n == |b|
    ensures NameBytes(UnitsAt(b, at, n)) == b[at..]
    decreases n
  {
    if n > 0 {
      BytesReadBack(b, at + 2, n - 1);
      assert UnitsAt(b, at, n)[1..] == UnitsAt(b, at + 2, n - 1);
      U16Of(b[at..at + 2]);
      assert b[at..] == b[at..at + 2] + b[at + 2..];
    }
  }

  /** Fills a buffer two bytes at a time. */
  method PutName(buf: array<byte>, at: nat, name: Name)
    requires at + 2 * |name| <= buf.Length
    modifies buf
    ensures buf[..] == Splice(old(buf[..]), at, NameBytes(name))
  {
    ghost var before := buf[..];
    assert NameBytes(name[..0]) == [];
    assert Splice(before, at, []) == before;
    hide NameBytes, U16, Splice;
    for i := 0 to |name|
      invariant buf[..] == Splice(before, at, NameBytes(name[..i]))
    {
      Put(buf, at + 2 * i, U16(name[i]));
      SpliceTwice(before, at, NameBytes(name[..i]), U16(name[i]));
      NameSnoc(name[..i], name[i]);
      assert name[..i + 1] == name[..i] + [name[i]];
    }
    assert name[..|name|] == name;
  }

  lemma {:induction false} NameSnoc(name: Name, u: CodeUnit)
    ensures NameBytes(name + [u]) == NameBytes(name) + U16(u)
  {
    if name == [] {
      assert name + [u] == [u] && [u][1..] == [];
    } else {
      assert (name + [u])[1..] == name[1..] + [u];
      NameSnoc(name[1..], u);
    }
  }

  // ----- binary comparison

  /** Compare from unit `i` on: the first difference decides, then the length. */
  function CompareFrom(a: Name, b: Name, i: nat): (c: int)
    requires i <= |a| && i <= |b|
    ensures -1 <= c <= 1
    decreases |a| - i
  {
    if i == |a| || i == |b| then
      if |a| < |b| then -1 else if |a| > |b| then 1 else 0
    else if a[i] < b[i] then -1
    else if a[i] > b[i] then 1
    else CompareFrom(a, b, i + 1)
  }

  function Compare(a: Name, b: Name): (c: int) {
    CompareFrom(a, b, 0)
  }

  method HFSCompare(a: Name, b: Name) returns (c: int)
    ensures c == Compare(a, b)
  {
    var least := if |b| < |a| then |b| else |a|;
    for i := 0 to least
      invariant CompareFrom(a, b, 0) == CompareFrom(a, b, i)
    {
      if a[i] < b[i] {
        return -1;
      }
      if a[i] > b[i] {
        return 1;
      }
    }
    return if |a| < |b| then -1 else if |a| > |b| then 1 else 0;
  }

  lemma {:induction false} CompareIsTotal(a: Name, b: Name, i: nat)
    requires i <= |a| && i <= |b| && a[..i] == b[..i]
    ensures CompareFrom(a, b, i) == 0 <==> a == b
    ensures CompareFrom(b, a, i) == -CompareFrom(a, b, i)
    decreases |a| - i
  {
    if i == |a| || i == |b| {
      assert a[..i] == a || b[..i] == b;
    } else if a[i] == b[i] {
      assert a[..i + 1] == a[..i] + [a[i]] && b[..i + 1] == b[..i] + [b[i]];
      CompareIsTotal(a, b, i + 1);
    }
  }

  lemma {:induction false} CompareIsTransitive(a: Name, b: Name, c: Name, i: nat)
    requires i <= |a| && i <= |b| && i <= |c|
    requires CompareFrom(a, b, i) < 0 && CompareFrom(b, c, i) < 0
    ensures CompareFrom(a, c, i) < 0
    decreases |a| - i
  {
    if i < |a| && i < |b| && i < |c| && a[i] == b[i] == c[i] {
      CompareIsTransitive(a, b, c, i + 1);
    }
  }

  /** The first unit that differs decides, by its value; a name comes before every
      longer one that starts with it. */
  lemma {:induction false} CompareIsLexicographic(a: Name, b: Name, i: nat)
    requires i <= |a| && i <= |b| && a[..i] == b[..i]
    ensures CompareFrom(a, b, i) == -1 <==>
      exists k :: i <= k <= |a| && k <= |b| && a[..k] == b[..k] && (if k < |a| then k < |b| && a[k] < b[k] else k < |b|)
    decreases |a| - i
  {
    if i < |a| && i < |b| {
      assert a[..i + 1] == a[..i] + [a[i]] && b[..i + 1] == b[..i] + [b[i]];
      if a[i] == b[i] {
        CompareIsLexicographic(a, b, i + 1);
      } else {
        forall k | i < k <= |a| && k <= |b| ensures a[..k] != b[..k] {
          assert a[..k][i] == a[i] && b[..k][i] == b[i];
        }
      }
    }
  }
}
