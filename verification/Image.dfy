/** A seekable destination, and what a list of writes into it leaves behind. */
module Image {
  import opened Bytes

  // ----- one write

  /** Grown with zeros to at least `n` bytes. */
  function Extended(s: seq<byte>, n: nat): (r: seq<byte>)
    ensures |r| == if |s| < n then n else |s|
  {
    if |s| < n then s + Zero(n - |s|) else s
  }

  /** `bs` written at `at`, past the end if need be; writing nothing changes nothing. */
  function WrittenAt(s: seq<byte>, at: nat, bs: seq<byte>): (r: seq<byte>)
    ensures |r| == if bs == [] || at + |bs| <= |s| then |s| else at + |bs|
  {
    if bs == [] then s else Splice(Extended(s, at + |bs|), at, bs)
  }

  /** Byte `n`, reading zero past the end. */
  function ByteAt(s: seq<byte>, n: nat): byte {
    if n < |s| then s[n] else 0
  }

  lemma WrittenByte(s: seq<byte>, at: nat, bs: seq<byte>, n: nat)
    ensures ByteAt(WrittenAt(s, at, bs), n) == if at <= n < at + |bs| then bs[n - at] else ByteAt(s, n)
  {
  }

  lemma WrittenTwice(s: seq<byte>, at: nat, a: seq<byte>, b: seq<byte>)
    ensures WrittenAt(WrittenAt(s, at, a), at + |a|, b) == WrittenAt(s, at, a + b)
  {
    if a == [] {
      assert a + b == b;
    } else if b == [] {
      assert a + b == a;
    } else {
      hide WrittenAt;
      WrittenBoth(s, at, a, b);
    }
  }

  lemma WrittenBoth(s: seq<byte>, at: nat, a: seq<byte>, b: seq<byte>)
    requires a != [] && b != []
    ensures WrittenAt(WrittenAt(s, at, a), at + |a|, b) == WrittenAt(s, at, a + b)
  {
    var l, r := WrittenAt(WrittenAt(s, at, a), at + |a|, b), WrittenAt(s, at, a + b);
    hide WrittenAt;
    assert |l| == |r|;
    forall n | 0 <= n < |l| ensures l[n] == r[n] {
      SameByteTwice(s, at, a, b, n);
      assert ByteAt(l, n) == l[n] && ByteAt(r, n) == r[n];
    }
  }

  lemma SameByteTwice(s: seq<byte>, at: nat, a: seq<byte>, b: seq<byte>, n: nat)
    ensures ByteAt(WrittenAt(WrittenAt(s, at, a), at + |a|, b), n) == ByteAt(WrittenAt(s, at, a + b), n)
  {
    hide WrittenAt;
    WrittenByte(WrittenAt(s, at, a), at + |a|, b, n);
    WrittenByte(s, at, a, n);
    WrittenByte(s, at, a + b, n);
  }

  /** The next `n` bytes of `b` behind the first `done`. */
  lemma WrittenOn(s: seq<byte>, at: nat, b: seq<byte>, done: nat, n: nat)
    requires done + n <= |b|
    ensures WrittenAt(WrittenAt(s, at, b[..done]), at + done, b[done..done + n]) == WrittenAt(s, at, b[..done + n])
  {
    hide WrittenAt;
    WrittenTwice(s, at, b[..done], b[done..done + n]);
    assert b[..done] + b[done..done + n] == b[..done + n];
  }

  lemma WrittenNothing(s: seq<byte>, at: nat)
    ensures WrittenAt(s, at, []) == s
  {
  }

  /** A buffer with a position. Writing past the end fills the gap with zeros;
      past `capacity` only what fits is written and the write fails. */
  class Image {
    var buf: seq<byte>
    var off: nat
    const capacity: nat

    constructor (capacity: nat)
      ensures buf == [] && off == 0 && this.capacity == capacity
    {
      buf, off, this.capacity := [], 0, capacity;
    }

    method Seek(to: int) returns (ok: bool)
      modifies `off
      ensures ok <==> to >= 0
      ensures ok ==> off == to
    {
      if to < 0 {
        return false;
      }
      off := to;
      return true;
    }

    method Write(p: seq<byte>) returns (n: nat, ok: bool)
      modifies this
      ensures n <= |p| && (ok <==> n == |p|)
      ensures ok <==> p == [] || old(off) + |p| <= capacity
      ensures buf == WrittenAt(old(buf), old(off), p[..n]) && off == old(off) + n
      ensures ok ==> buf == WrittenAt(old(buf), old(off), p)
    {
      n := if p == [] || off + |p| <= capacity then |p| else if off >= capacity then 0 else capacity - off;
      buf := WrittenAt(buf, off, p[..n]);
      off := off + n;
      ok := n == |p|;
    }
  }

  /** Seek, then write until everything is out. */
  method WriteAt(out: Image, at: int, b: seq<byte>) returns (ok: bool)
    modifies out
    ensures ok <==> at >= 0 && (b == [] || at + |b| <= out.capacity)
    ensures ok ==> out.buf == WrittenAt(old(out.buf), at, b)
  {
    ghost var before := out.buf;
    ok := out.Seek(at);
    if !ok {
      return;
    }
    var rest := b;
    WrittenNothing(before, at);
    hide WrittenAt;
    while |rest| > 0
      invariant rest == b || rest == []
      invariant rest == b ==> out.buf == before && out.off == at
      invariant rest == [] ==> out.buf == WrittenAt(before, at, b) && (b == [] || at + |b| <= out.capacity)
    {
      var n;
      n, ok := out.Write(rest);
      if !ok {
        return;
      }
      rest := rest[n..];
    }
    return true;
  }

  // ----- a file's bytes

  /** How a source ends: cleanly, or with a read error. */
  datatype Ending = Eof | Broken

  datatype Source = NoFile | Opened(data: seq<byte>, end: Ending)

  datatype StreamError = OpenFailed | SeekFailed | Shrank(read: nat) | Grew | ReadFailed | WriteFailed

  const COPY_CHUNK: nat := 32768

  /** Copy `n` available bytes in chunks. */
  method CopyN(out: Image, data: seq<byte>, n: nat) returns (ok: bool)
    requires n <= |data|
    modifies out
    ensures ok <==> n == 0 || old(out.off) + n <= out.capacity
    ensures ok ==> out.buf == WrittenAt(old(out.buf), old(out.off), data[..n])
  {
    ghost var before, at := out.buf, out.off;
    var copied := 0;
    WrittenNothing(before, at);
    hide WrittenAt;
    while copied < n
      invariant 0 <= copied <= n && out.off == at + copied
      invariant out.buf == WrittenAt(before, at, data[..copied])
      invariant copied == 0 || at + copied <= out.capacity
    {
      var take := if n - copied < COPY_CHUNK then n - copied else COPY_CHUNK;
      ok := CopyChunk(out, data, copied, take, before, at);
      if !ok {
        return;
      }
      copied := copied + take;
    }
    return true;
  }

  method CopyChunk(out: Image, data: seq<byte>, copied: nat, take: nat, ghost before: seq<byte>, ghost at: nat)
    returns (ok: bool)
    requires 0 < take && copied + take <= |data| && out.off == at + copied
    requires out.buf == WrittenAt(before, at, data[..copied])
    modifies out
    ensures ok <==> at + copied + take <= out.capacity
    ensures ok ==> out.buf == WrittenAt(before, at, data[..copied + take]) && out.off == at + copied + take
  {
    hide WrittenAt;
    WrittenOn(before, at, data, copied, take);
    var wrote;
    wrote, ok := out.Write(data[copied..copied + take]);
  }

  /** A file has to have exactly the length it was planned with: too few bytes and
      one byte too many are both errors. */
  method StreamFileAt(out: Image, at: nat, source: Source, size: nat) returns (error: seq<StreamError>)
    modifies out
    ensures error == [] <==>
      source.Opened? && |source.data| == size && source.end == Eof && (size == 0 || at + size <= out.capacity)
    ensures error == [] ==> out.buf == WrittenAt(old(out.buf), at, source.data)
    ensures source.Opened? && source.end == Eof && |source.data| > size && (size == 0 || at + size <= out.capacity) ==>
      error == [Grew]
    ensures source.Opened? && source.end == Eof && |source.data| < size && at + size <= out.capacity ==>
      error == [Shrank(|source.data|)]
  {
    if source.NoFile? {
      return [OpenFailed];
    }
    var data := source.data;
    var sought := out.Seek(at);
    var available := if |data| < size then |data| else size;
    var copied := CopyN(out, data, available);
    if !copied {
      return [WriteFailed];
    }
    if available < size {
      return if source.end == Eof then [Shrank(available)] else [ReadFailed];
    }
    if |data| > size {
      return [Grew];
    }
    assert data[..available] == data;
    return if source.end == Eof then [] else [ReadFailed];
  }

  // ----- many writes

  datatype Write = Write(at: nat, bytes: seq<byte>)
  {
    predicate Touches(n: nat) { at <= n < at + |bytes| }

    predicate Apart(other: Write) {
      at + |bytes| <= other.at || other.at + |other.bytes| <= at
    }
  }

  function ApplyAll(s: seq<byte>, ws: seq<Write>): seq<byte> {
    if ws == [] then s
    else WrittenAt(ApplyAll(s, ws[..|ws| - 1]), ws[|ws| - 1].at, ws[|ws| - 1].bytes)
  }

  lemma ApplyNext(s: seq<byte>, ws: seq<Write>, w: Write)
    ensures ApplyAll(s, ws + [w]) == WrittenAt(ApplyAll(s, ws), w.at, w.bytes)
  {
    assert (ws + [w])[..|ws + [w]| - 1] == ws;
  }

  lemma ApplyOne(s: seq<byte>, w: Write)
    ensures ApplyAll(s, [w]) == WrittenAt(s, w.at, w.bytes)
  {
    assert [w][..0] == [] && ApplyAll(s, []) == s;
    hide WrittenAt;
  }

  /** A byte no write touches keeps its value. */
  lemma {:induction false} Untouched(s: seq<byte>, ws: seq<Write>, n: nat)
    requires forall i :: 0 <= i < |ws| ==> !ws[i].Touches(n)
    ensures ByteAt(ApplyAll(s, ws), n) == ByteAt(s, n)
    decreases |ws|
  {
    hide WrittenAt;
    if ws != [] {
      var last := |ws| - 1;
      Untouched(s, ws[..last], n);
      WrittenByte(ApplyAll(s, ws[..last]), ws[last].at, ws[last].bytes, n);
      assert !ws[last].Touches(n);
    }
  }

  /** The last write to touch a byte decides it. */
  lemma {:induction false} LastDecides(s: seq<byte>, ws: seq<Write>, k: nat, n: nat)
    requires k < |ws| && ws[k].Touches(n)
    requires forall j :: k < j < |ws| ==> !ws[j].Touches(n)
    ensures ByteAt(ApplyAll(s, ws), n) == ws[k].bytes[n - ws[k].at]
    decreases |ws|
  {
    hide WrittenAt;
    var last := |ws| - 1;
    WrittenByte(ApplyAll(s, ws[..last]), ws[last].at, ws[last].bytes, n);
    if k < last {
      LastDecides(s, ws[..last], k, n);
      assert !ws[last].Touches(n);
    }
  }

  lemma {:induction false} AppliedLength(s: seq<byte>, ws: seq<Write>, size: nat)
    requires ws != [] && |s| <= size && ws[0].bytes != [] && ws[0].at + |ws[0].bytes| == size
    requires forall i :: 0 <= i < |ws| ==> ws[i].at + |ws[i].bytes| <= size
    ensures |ApplyAll(s, ws)| == size
    decreases |ws|
  {
    if |ws| > 1 {
      AppliedLength(s, ws[..|ws| - 1], size);
    } else {
      assert ApplyAll(s, ws[..0]) == s;
    }
  }

  /** Writes that do not overlap all survive, whatever order they come in. */
  lemma StretchSurvives(s: seq<byte>, ws: seq<Write>, k: nat)
    requires k < |ws| && ws[k].at + |ws[k].bytes| <= |ApplyAll(s, ws)|
    requires forall j :: k < j < |ws| ==> ws[k].Apart(ws[j])
    ensures ApplyAll(s, ws)[ws[k].at..ws[k].at + |ws[k].bytes|] == ws[k].bytes
  {
    var r, w := ApplyAll(s, ws), ws[k];
    hide ApplyAll;
    forall i | 0 <= i < |w.bytes| ensures r[w.at..w.at + |w.bytes|][i] == w.bytes[i] {
      forall j | k < j < |ws| ensures !ws[j].Touches(w.at + i) {
        assert w.Apart(ws[j]);
      }
      LastDecides(s, ws, k, w.at + i);
    }
  }
}
