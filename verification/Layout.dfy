/** The volume planner: where every fork and file goes, and the bitmap that says so. */
module Layout {
  import opened Bytes
  import opened Bits
  import opened Wrappers
  import opened Seqs
  import opened Allocation
  import opened Geometry
  import opened BTree
  import opened Catalog

  const DEFAULT_BLOCK_SIZE: nat := 4096
  const U32_MAX: nat := 0xFFFF_FFFF

  /** A file's entry and the length of its data. */
  datatype UserFile = UserFile(entry: Entry, size: u64)

  datatype Placement = Placement(start: u32, blocks: u32)

  datatype PlanError =
    | BadBlockSize
    | ForkTooLarge
    | FileTooLarge(size: nat)
    | VolumeTooLarge(blocks: nat)
    | BitmapOutOfRange // the store into an empty bitmap, where the source panics

  // ----- the plan in numbers

  /** The regions of a volume, front to back: boot block, bitmap, the three
      B-trees and the files follow each other; the alternate header's block is
      the last of the volume. */
  datatype Map = Map(blockSize: nat, total: nat, alloc: nat, catalog: nat, extents: nat, attrs: nat, counts: seq<nat>)
  {
    function Lengths(): (s: seq<nat>)
      ensures |s| == 5 + |counts|
    {
      [1, alloc, catalog, extents, attrs] + counts
    }

    /** First block of region `k`; for `k == 5 + |counts|` the first block behind them. */
    function Start(k: nat): nat
      requires k <= 5 + |counts|
    {
      SumOf(Lengths()[..k])
    }

    function End(): nat { Start(5 + |counts|) }

    function FileStart(i: nat): nat
      requires i < |counts|
    {
      Start(5 + i)
    }

    function Others(): nat { catalog + extents + attrs + SumOf(counts) }

    /** `blocks` blocks in bytes. */
    function SizeIn(blocks: nat): nat { blocks * blockSize }

    function LargestTree(): (n: nat)
      ensures n >= catalog && n >= extents && n >= attrs
    {
      var n := if extents > catalog then extents else catalog;
      if attrs > n then attrs else n
    }

    ghost predicate Planned() {
      && 512 <= blockSize < U32_LIMIT && PowerOfTwo(blockSize)
      && catalog >= 1 && extents >= 1 && attrs >= 1
      && LeastFixedPoint(alloc, Others(), 4 * LargestTree(), blockSize)
      && total == VolumeBlocks(alloc, Others(), 4 * LargestTree())
    }

    /** Block `n` belongs to a fork, a file or a header. */
    ghost predicate Occupied(n: nat) {
      n == total - 1 || exists k :: 0 <= k < 5 + |counts| && Start(k) <= n < Start(k) + Lengths()[k]
    }
  }

  lemma {:induction false} SumAppend(a: seq<nat>, b: seq<nat>)
    ensures SumOf(a + b) == SumOf(a) + SumOf(b)
    decreases |b|
  {
    if b == [] {
      assert a + b == a;
    } else {
      assert (a + b)[..|a + b| - 1] == a + b[..|b| - 1];
      SumAppend(a, b[..|b| - 1]);
    }
  }

  lemma FirstStarts(m: Map)
    ensures m.Start(0) == 0 && m.Start(1) == 1 && m.Start(2) == 1 + m.alloc && m.Start(3) == 1 + m.alloc + m.catalog
    ensures m.Start(4) == 1 + m.alloc + m.catalog + m.extents
    ensures m.Start(5) == 1 + m.alloc + m.catalog + m.extents + m.attrs
  {
    var s := m.Lengths();
    assert s[..0] == [];
    SumStep(s, 0);
    SumStep(s, 1);
    SumStep(s, 2);
    SumStep(s, 3);
    SumStep(s, 4);
    hide SumOf;
  }

  lemma FileStarts(m: Map, i: nat)
    requires i <= |m.counts|
    ensures m.Start(5 + i) == 1 + m.alloc + m.catalog + m.extents + m.attrs + SumOf(m.counts[..i])
  {
    FirstStarts(m);
    var s := m.Lengths();
    assert s[..5 + i] == s[..5] + m.counts[..i];
    SumAppend(s[..5], m.counts[..i]);
  }

  /** The whole volume in numbers: boot block, forks, files and alternate header, or
      four times the largest tree if that is more; the bitmap is just long enough. */
  lemma TotalInNumbers(m: Map)
    requires m.Planned()
    ensures var all := 2 + m.alloc + m.catalog + m.extents + m.attrs + SumOf(m.counts);
      && m.total >= all && m.total >= 4 * m.catalog && m.total >= 4 * m.extents && m.total >= 4 * m.attrs
      && (m.total == all || m.total == 4 * m.catalog || m.total == 4 * m.extents || m.total == 4 * m.attrs)
    ensures (m.alloc - 1) * (8 * m.blockSize) < m.total <= m.alloc * (8 * m.blockSize)
  {
    hide SumOf, PowerOfTwo, Ceil;
    CeilBetween(m.total, 8 * m.blockSize);
  }

  lemma CeilBetween(n: nat, d: nat)
    requires n > 0 && d > 0
    ensures (Ceil(n, d) - 1) * d < n <= Ceil(n, d) * d
  {
    assert IsCeil(n, d, Ceil(n, d));
  }

  /** Everything but the alternate header ends before it. */
  lemma EndInside(m: Map)
    requires m.Planned()
    ensures m.End() == 1 + m.alloc + m.Others() && m.End() <= m.total - 1
  {
    FileStarts(m, |m.counts|);
    assert m.counts[..|m.counts|] == m.counts;
  }

  /** Block conservation: no two regions share a block, none reaches the alternate
      header, and all lie in the volume. */
  lemma RegionsDisjoint(m: Map, j: nat, k: nat)
    requires m.Planned() && j < k < 5 + |m.counts|
    ensures m.Start(j) + m.Lengths()[j] <= m.Start(k)
    ensures m.Start(k) + m.Lengths()[k] <= m.total - 1
  {
    EndInside(m);
    var s := m.Lengths();
    SumMonotone(s, j, k);
    SumMonotone(s, k, |s|);
    assert s[..|s|] == s;
  }

  /** The occupied blocks are those in front of the free space, and the last. */
  lemma OccupiedIs(m: Map, n: nat)
    requires m.Planned() && n < m.total
    ensures m.Occupied(n) <==> n < m.End() || n == m.total - 1
  {
    var s := m.Lengths();
    if n < m.End() {
      var i := SumLocates(s, n, |s|);
      assert m.Start(i) <= n < m.Start(i) + m.Lengths()[i];
    }
    forall k | 0 <= k < |s| ensures m.Start(k) + s[k] <= m.End() {
      SumMonotone(s, k, |s|);
    }
  }

  /** Every B-tree fork is at most a quarter of the volume. */
  lemma TreesAreQuarters(m: Map)
    requires m.Planned()
    ensures 4 * m.catalog <= m.total && 4 * m.extents <= m.total && 4 * m.attrs <= m.total
  {
  }

  /** The bitmap's fork has room for one bit per block, and no block to spare. */
  lemma BitmapFits(m: Map)
    requires m.Planned()
    ensures IsCeil(m.total, 8 * m.blockSize, m.alloc)
    ensures (m.total + 7) / 8 <= m.alloc * m.blockSize
  {
    hide Ceil, SumOf, PowerOfTwo;
    BitsFit(m.total, m.blockSize, m.alloc);
  }

  lemma BitsFit(total: nat, blockSize: nat, alloc: nat)
    requires IsCeil(total, 8 * blockSize, alloc)
    ensures (total + 7) / 8 <= alloc * blockSize
  {
    var bytes := alloc * blockSize;
    assert alloc * (8 * blockSize) == 8 * bytes;
  }

  // ----- block counts

  /** Enough blocks for the fork, and at least one. */
  function BlocksFor(size: nat, blockSize: nat): (n: nat)
    requires blockSize > 0
    ensures n >= 1 && n * blockSize >= size
    ensures size > 0 ==> IsCeil(size, blockSize, n)
  {
    if size == 0 then 1 else CeilPositive(size, blockSize)
  }

  function CeilPositive(size: nat, blockSize: nat): (n: nat)
    requires blockSize > 0 && size > 0
    ensures n >= 1 && IsCeil(size, blockSize, n)
  {
    CeilAtLeastOne(size, blockSize);
    Ceil(size, blockSize)
  }

  lemma NoBlocks(blockSize: nat)
    requires blockSize > 0
    ensures Ceil(0, blockSize) == 0
  {
    hide Ceil;
    CeilIs(0, blockSize, 0);
  }

  method ForkBlocks(size: nat, blockSize: nat) returns (r: Result<nat, PlanError>)
    requires 512 <= blockSize < U32_LIMIT && size <= WIDE
    ensures r.Ok? <==> BlocksFor(size, blockSize) <= U32_MAX
    ensures r.Ok? ==> r.value == BlocksFor(size, blockSize)
    ensures r.Err? ==> r.error == ForkTooLarge
  {
    DivIsCeil(size, blockSize);
    NoBlocks(blockSize);
    hide Ceil, DivRoundUp;
    if size > 0 {
      CeilAtLeastOne(size, blockSize);
    }
    var n := DivRoundUp(size, blockSize);
    if n == 0 {
      n := 1;
    }
    if n > U32_MAX {
      return Err(ForkTooLarge);
    }
    return Ok(n);
  }

  function CountsFor(files: seq<UserFile>, blockSize: nat): (c: seq<nat>)
    requires blockSize > 0
    ensures |c| == |files| && forall i :: 0 <= i < |files| ==> c[i] == Ceil(files[i].size, blockSize)
  {
    seq(|files|, i requires 0 <= i < |files| => Ceil(files[i].size, blockSize))
  }

  ghost predicate SizesInRange(files: seq<UserFile>) {
    forall i :: 0 <= i < |files| ==> files[i].size <= WIDE
  }

  /** Each file gets just enough blocks for its data, none if it is empty. */
  method CountBlocks(files: seq<UserFile>, blockSize: nat) returns (r: Result<seq<nat>, PlanError>, total: nat)
    requires 512 <= blockSize < U32_LIMIT && SizesInRange(files)
    ensures r.Ok? <==> forall i :: 0 <= i < |files| ==> Ceil(files[i].size, blockSize) <= U32_MAX
    ensures r.Ok? ==> r.value == CountsFor(files, blockSize) && total == SumOf(r.value)
    ensures r.Err? ==> r.error.FileTooLarge?
  {
    hide Ceil, DivRoundUp;
    var counts: seq<nat> := [];
    total := 0;
    for i := 0 to |files|
      invariant |counts| == i && total == SumOf(counts)
      invariant forall j :: 0 <= j < i ==> counts[j] == Ceil(files[j].size, blockSize) <= U32_MAX
    {
      DivIsCeil(files[i].size, blockSize);
      var n := DivRoundUp(files[i].size, blockSize);
      if n > U32_MAX {
        return Err(FileTooLarge(files[i].size)), total;
      }
      assert (counts + [n])[..i] == counts;
      counts := counts + [n];
      total := total + n;
    }
    return Ok(counts), total;
  }

  // ----- placement

  function EntriesOf(files: seq<UserFile>): set<Entry> {
    set i | 0 <= i < |files| :: files[i].entry
  }

  /** No file after `i` and before `n` has the same entry. */
  ghost predicate LastFor(files: seq<UserFile>, i: nat, n: nat)
    requires i < n <= |files|
  {
    forall k :: i < k < n ==> files[k].entry != files[i].entry
  }

  /** What the plan makes of a file: an extent unless it is empty. */
  function PlacementOf(start: nat, blocks: nat): Placement
    requires start < U32_LIMIT && blocks < U32_LIMIT
  {
    Placement(if blocks == 0 then 0 else start, blocks)
  }

  /** The entry names the placement. */
  ghost predicate Names(e: Entry, size: u64, p: Placement)
    reads e
  {
    e.size == size && e.blocks == p.blocks && e.extent == Extent(p.start, p.blocks)
  }

  /** The placements run on from `start` in order. */
  ghost predicate PlacedFrom(placements: seq<Placement>, counts: seq<nat>, start: nat) {
    && |placements| <= |counts|
    && forall i :: 0 <= i < |placements| ==>
         && start + SumOf(counts[..i]) < U32_LIMIT && counts[i] < U32_LIMIT
         && placements[i] == PlacementOf(start + SumOf(counts[..i]), counts[i])
  }

  lemma PlacedNext(placements: seq<Placement>, counts: seq<nat>, start: nat, cursor: nat, i: nat)
    requires PlacedFrom(placements, counts, start) && i == |placements| < |counts|
    requires cursor == start + SumOf(counts[..i]) && start + SumOf(counts) < U32_LIMIT
    ensures cursor + counts[i] < U32_LIMIT && cursor + counts[i] == start + SumOf(counts[..i + 1])
    ensures PlacedFrom(placements + [PlacementOf(cursor, counts[i])], counts, start)
  {
    hide SumOf, PlacementOf;
    SumUpTo(counts, i);
  }

  lemma SumUpTo(counts: seq<nat>, i: nat)
    requires i < |counts|
    ensures SumOf(counts[..i + 1]) == SumOf(counts[..i]) + counts[i] <= SumOf(counts)
  {
    SumStep(counts, i);
    SumMonotone(counts, i + 1, |counts|);
    hide SumOf;
    assert counts[..|counts|] == counts;
  }

  /** Every entry names the placement of the last file that has it. */
  ghost predicate EntriesName(files: seq<UserFile>, placements: seq<Placement>)
    reads EntriesOf(files)
  {
    && |placements| <= |files|
    && forall i :: 0 <= i < |placements| && LastFor(files, i, |placements|) ==>
         Names(files[i].entry, files[i].size, placements[i])
  }

  /** Files in input order from `start` on; their entries are updated in place.
      With one entry listed twice the later file wins. */
  method Place(files: seq<UserFile>, counts: seq<nat>, start: nat) returns (placements: seq<Placement>, cursor: nat)
    requires |counts| == |files| && start + SumOf(counts) < U32_LIMIT
    modifies EntriesOf(files)`size, EntriesOf(files)`blocks, EntriesOf(files)`extent
    ensures |placements| == |files| && cursor == start + SumOf(counts)
    ensures PlacedFrom(placements, counts, start) && EntriesName(files, placements)
  {
    placements := [];
    cursor := start;
    assert counts[..0] == [] && counts[..|counts|] == counts;
    for i := 0 to |files|
      invariant |placements| == i && cursor == start + SumOf(counts[..i])
      invariant PlacedFrom(placements, counts, start)
      invariant EntriesName(files, placements)
    {
      hide SumOf, PlacementOf, PlacedFrom, EntriesName, EntriesOf;
      PlacedNext(placements, counts, start, cursor, i);
      var p := PlaceNext(files, i, placements, cursor, counts[i]);
      placements := placements + [p];
      cursor := cursor + counts[i];
    }
  }

  /** The next file: its entry gets the extent, or none. */
  method PlaceNext(files: seq<UserFile>, i: nat, ghost placements: seq<Placement>, cursor: u32, blocks: u32)
    returns (p: Placement)
    requires |placements| == i < |files| && EntriesName(files, placements)
    modifies EntriesOf(files)`size, EntriesOf(files)`blocks, EntriesOf(files)`extent
    ensures p == PlacementOf(cursor, blocks) && EntriesName(files, placements + [p])
  {
    var e := files[i].entry;
    assert e in EntriesOf(files);
    p := Placement(cursor, blocks);
    if blocks == 0 {
      p := Placement(0, 0);
      e.extent := Extent(0, 0);
    } else {
      e.extent := Extent(cursor, blocks);
    }
    e.blocks := blocks;
    e.size := files[i].size;
  }

  // ----- the bitmap

  ghost predicate MarkedBelow(bs: seq<byte>, n: nat) {
    forall k :: 0 <= k < 8 * |bs| ==> (BitAt(bs, k) <==> k < n)
  }

  /** The bitmap of a planned volume: used up to the free space, and the last block. */
  ghost predicate MarksPlan(bs: seq<byte>, m: Map) {
    && m.total <= 8 * |bs|
    && forall k :: 0 <= k < 8 * |bs| ==> (BitAt(bs, k) <==> k < m.End() || k == m.total - 1)
  }

  /** Marking right behind what is marked extends it; marking nothing is harmless. */
  method MarkRun(bm: AllocationBitmap, start: nat, count: nat, ghost below: nat)
    requires bm.Covers() && below + count <= bm.bits < U32_LIMIT && start < U32_LIMIT
    requires MarkedBelow(bm.bytes[..], below) && (count == 0 || start == below)
    modifies bm.bytes
    ensures MarkedBelow(bm.bytes[..], below + count)
  {
    hide BitAt;
    var inRange := bm.MarkUsed(start, count);
  }

  lemma FileEnds(m: Map, i: nat)
    requires m.Planned() && i < |m.counts|
    ensures m.Start(5 + i) + m.counts[i] == m.Start(5 + i + 1) <= m.total - 1
  {
    SumStep(m.Lengths(), 5 + i);
    SumMonotone(m.Lengths(), 5 + i + 1, 5 + |m.counts|);
    EndInside(m);
    hide SumOf;
  }

  lemma FileRun(placements: seq<Placement>, m: Map, i: nat)
    requires |placements| == |m.counts| && PlacedFrom(placements, m.counts, m.Start(5)) && i < |m.counts|
    ensures placements[i].blocks == m.counts[i] && (m.counts[i] == 0 || placements[i].start == m.Start(5 + i))
  {
    FileStarts(m, i);
    FirstStarts(m);
    hide SumOf;
    assert placements[i] == PlacementOf(m.Start(5) + SumOf(m.counts[..i]), m.counts[i]);
  }

  method MarkFiles(bm: AllocationBitmap, placements: seq<Placement>, ghost m: Map)
    requires m.Planned() && bm.Covers() && m.total == bm.bits < U32_LIMIT
    requires |placements| == |m.counts| && PlacedFrom(placements, m.counts, m.Start(5))
    requires MarkedBelow(bm.bytes[..], m.Start(5))
    modifies bm.bytes
    ensures MarkedBelow(bm.bytes[..], m.End())
  {
    hide SumOf, MarkedBelow, PlacedFrom;
    for i := 0 to |placements|
      invariant MarkedBelow(bm.bytes[..], m.Start(5 + i))
    {
      FileRun(placements, m, i);
      FileEnds(m, i);
      MarkRun(bm, placements[i].start, placements[i].blocks, m.Start(5 + i));
    }
  }

  /** Mark every region. Without a byte for the first block the very first store
      is out of range. */
  method MarkRegions(bm: AllocationBitmap, placements: seq<Placement>, alloc: nat, catalog: nat, extents: nat, attrs: nat,
                     ghost m: Map)
    returns (inRange: bool)
    requires m.Planned() && m.total == bm.bits < U32_LIMIT && bm.bytes.Length == (m.total + 7) % U32_LIMIT / 8
    requires m.alloc == alloc && m.catalog == catalog && m.extents == extents && m.attrs == attrs
    requires |placements| == |m.counts| && PlacedFrom(placements, m.counts, m.Start(5))
    requires ClearFrom(bm.bytes[..], 0)
    modifies bm.bytes
    ensures inRange <==> m.total <= U32_LIMIT - 8
    ensures inRange ==> MarksPlan(bm.bytes[..], m)
  {
    BitmapCoversUnlessWrapped(m.total);
    FirstStarts(m);
    EndInside(m);
    FilesEnd(m);
    ghost var fresh0 := bm.bytes[..];
    hide SumOf, PlacedFrom, BitAt;
    inRange := bm.MarkUsed(0, 1);
    if !inRange {
      return;
    }
    assert MarkedBelow(bm.bytes[..], 1);
    hide MarkedBelow;
    MarkRun(bm, 1, alloc, 1);
    MarkRun(bm, 1 + alloc, catalog, 1 + alloc);
    MarkRun(bm, 1 + alloc + catalog, extents, 1 + alloc + catalog);
    MarkRun(bm, 1 + alloc + catalog + extents, attrs, 1 + alloc + catalog + extents);
    MarkFiles(bm, placements, m);
    ghost var before := bm.bytes[..];
    var last := bm.MarkUsed(bm.bits - 1, 1);
    LastMarked(before, bm.bytes[..], m);
  }

  lemma FilesEnd(m: Map)
    ensures m.Start(5) <= m.End()
  {
    SumMonotone(m.Lengths(), 5, 5 + |m.counts|);
  }

  lemma LastMarked(before: seq<byte>, after: seq<byte>, m: Map)
    requires m.Planned() && MarkedBelow(before, m.End()) && |after| == |before| && m.total <= 8 * |after|
    requires forall k :: 0 <= k < 8 * |after| ==> (BitAt(after, k) <==> k == m.total - 1 || BitAt(before, k))
    ensures MarksPlan(after, m)
  {
    hide BitAt, SumOf;
  }

  /** A bit is set exactly if its block is in a fork, a file or a header. */
  lemma MarkedIsOccupied(bs: seq<byte>, m: Map, n: nat)
    requires m.Planned() && MarksPlan(bs, m) && n < m.total
    ensures BitAt(bs, n) <==> m.Occupied(n)
  {
    hide BitAt, SumOf;
    OccupiedIs(m, n);
  }

  lemma {:induction false} ClearBelow(bs: seq<byte>, m: Map, n: nat)
    requires m.Planned() && MarksPlan(bs, m) && n <= m.total - 1
    ensures ClearBits(bs, n) == if n <= m.End() then 0 else n - m.End()
    decreases n
  {
    hide BitAt, SumOf;
    if n > 0 {
      ClearBelow(bs, m, n - 1);
      assert BitAt(bs, n - 1) <==> n - 1 < m.End() || n - 1 == m.total - 1;
    }
  }

  /** Free blocks are what the regions leave: the volume less their lengths. */
  lemma FreeIsTheRest(bs: seq<byte>, m: Map)
    requires m.Planned() && MarksPlan(bs, m)
    ensures ClearBits(bs, m.total) == m.total - SumOf(m.Lengths()) - 1
    ensures ClearFrom(bs, m.total)
  {
    EndInside(m);
    ClearBelow(bs, m, m.total - 1);
    assert m.Lengths()[..5 + |m.counts|] == m.Lengths();
    hide BitAt, SumOf;
    assert BitAt(bs, m.total - 1);
  }

  /** The next allocation is the lowest free block, or 0 when none is free. */
  lemma NextIsLowestFree(bs: seq<byte>, m: Map, next: nat)
    requires m.Planned() && MarksPlan(bs, m) && next == if m.End() >= m.total - 1 then 0 else m.End()
    ensures next == 0 <==> forall k :: 0 <= k < m.total ==> BitAt(bs, k)
    ensures next != 0 ==> next < m.total && !BitAt(bs, next) && forall k :: 0 <= k < next ==> BitAt(bs, k)
  {
    EndInside(m);
    hide BitAt, SumOf;
    assert m.End() < m.total - 1 ==> !BitAt(bs, m.End());
  }

  // ----- counters

  function FileWeight(): EntryView -> nat {
    (v: EntryView) => if v.cnid != ROOT_PARENT && (v.kind.File? || v.kind.Symlink?) then 1 else 0
  }

  function FolderWeight(): EntryView -> nat {
    (v: EntryView) => if v.cnid != ROOT_PARENT && v.cnid != ROOT_FOLDER && v.kind.Folder? then 1 else 0
  }

  /** Which entries are files or links, and which are folders other than the root. */
  ghost function FilesIn(vs: seq<EntryView>): (found: set<nat>)
    ensures forall i: nat :: i in found <==> i < |vs| && vs[i].cnid != 1 && (vs[i].kind == File || vs[i].kind == Symlink)
  {
    set i: nat | i < |vs| && vs[i].cnid != 1 && (vs[i].kind == File || vs[i].kind == Symlink)
  }

  ghost function FoldersIn(vs: seq<EntryView>): (found: set<nat>)
    ensures forall i: nat :: i in found <==> i < |vs| && vs[i].cnid != 1 && vs[i].cnid != 2 && vs[i].kind == Folder
  {
    set i: nat | i < |vs| && vs[i].cnid != 1 && vs[i].cnid != 2 && vs[i].kind == Folder
  }

  /** The numbers of files and links, and of folders but for the root. */
  ghost predicate CountsAre(vs: seq<EntryView>, files: nat, folders: nat) {
    files == |FilesIn(vs)| && folders == |FoldersIn(vs)|
  }

  lemma WeightsCount(vs: seq<EntryView>)
    ensures CountsAre(vs, Total(vs, FileWeight()), Total(vs, FolderWeight()))
  {
    TotalIsCount(vs, FileWeight(), FilesIn(vs));
    TotalIsCount(vs, FolderWeight(), FoldersIn(vs));
  }

  ghost predicate IsMaxCnid(vs: seq<EntryView>, most: nat) {
    && (forall i :: 0 <= i < |vs| && vs[i].cnid != ROOT_PARENT ==> vs[i].cnid <= most)
    && (most == 0 || exists i :: 0 <= i < |vs| && vs[i].cnid == most && vs[i].cnid != ROOT_PARENT)
  }

  /** Files and symlinks, folders but for the root, and the largest CNID. */
  method Count(entries: seq<Entry>) returns (files: nat, folders: nat, maxCnid: nat)
    requires |entries| < U32_LIMIT
    ensures files == Total(Views(entries), FileWeight()) <= |entries|
    ensures folders == Total(Views(entries), FolderWeight()) <= |entries|
    ensures CountsAre(Views(entries), files, folders)
    ensures IsMaxCnid(Views(entries), maxCnid) && maxCnid < U32_LIMIT
  {
    ghost var vs := Views(entries);
    files, folders, maxCnid := 0, 0, 0;
    for i := 0 to |entries|
      invariant files == Total(vs[..i], FileWeight()) <= i
      invariant folders == Total(vs[..i], FolderWeight()) <= i
      invariant IsMaxCnid(vs[..i], maxCnid) && maxCnid < U32_LIMIT
    {
      var e := entries[i];
      CountStep(vs, i);
      MaxStep(vs, i, maxCnid);
      hide Total, IsMaxCnid, Views;
      if e.cnid == ROOT_PARENT {
        continue;
      }
      if e.cnid > maxCnid {
        maxCnid := e.cnid;
      }
      match e.kind {
        case Folder =>
          if e.cnid != ROOT_FOLDER {
            folders := folders + 1;
          }
        case File => files := files + 1;
        case Symlink => files := files + 1;
        case Unknown(_) =>
      }
    }
    assert vs[..|entries|] == vs;
    WeightsCount(vs);
  }

  lemma CountStep(vs: seq<EntryView>, i: nat)
    requires i < |vs|
    ensures Total(vs[..i + 1], FileWeight()) == Total(vs[..i], FileWeight()) + FileWeight()(vs[i])
    ensures Total(vs[..i + 1], FolderWeight()) == Total(vs[..i], FolderWeight()) + FolderWeight()(vs[i])
  {
    assert vs[..i + 1] == vs[..i] + [vs[i]];
    TotalAppend(vs[..i], [vs[i]], FileWeight());
    TotalAppend(vs[..i], [vs[i]], FolderWeight());
  }

  lemma MaxStep(vs: seq<EntryView>, i: nat, most: nat)
    requires i < |vs| && IsMaxCnid(vs[..i], most)
    ensures IsMaxCnid(vs[..i + 1], if vs[i].cnid != ROOT_PARENT && vs[i].cnid > most then vs[i].cnid else most)
  {
    var next := if vs[i].cnid != ROOT_PARENT && vs[i].cnid > most then vs[i].cnid else most;
    var front, all := vs[..i], vs[..i + 1];
    assert all[i] == vs[i];
    forall k | 0 <= k < |all| && all[k].cnid != ROOT_PARENT ensures all[k].cnid <= next {
      assert k < i ==> front[k] == all[k];
    }
    if next == most && most != 0 {
      var k :| 0 <= k < |front| && front[k].cnid == most && front[k].cnid != ROOT_PARENT;
      assert all[k] == front[k];
    }
  }

  /** The next catalog ID exceeds every ID in use exactly when the largest is not
      the last 32-bit number. */
  lemma NextIdIsFree(vs: seq<EntryView>, most: nat, next: nat)
    requires IsMaxCnid(vs, most) && most < U32_LIMIT && next == (most + 1) % U32_LIMIT
    ensures (forall i :: 0 <= i < |vs| && vs[i].cnid != ROOT_PARENT ==> vs[i].cnid < next) <==> most != U32_MAX
  {
  }

  // ----- the planner

  datatype Plan = Plan(
    blockSize: nat, totalBlocks: nat, nextAllocation: nat, fileCount: nat, folderCount: nat, nextCatalogID: nat,
    allocFile: ForkData, catalogFile: ForkData, extentsFile: ForkData, attributesFile: ForkData,
    allocStart: nat, catalogStart: nat, extentsStart: nat, attributesStart: nat, userDataStart: nat,
    bitmap: AllocationBitmap, placements: seq<Placement>)

  /** A special file: clump size and extent both describe the whole fork. */
  function ForkAt(start: nat, blocks: nat, blockSize: nat): ForkData
    requires start < U32_LIMIT && blocks < U32_LIMIT && blockSize < U32_LIMIT
  {
    Product(blocks, blockSize);
    ForkData(blocks * blockSize, blocks * blockSize % U32_LIMIT, blocks, Extent(start, blocks))
  }

  lemma Product(a: nat, b: nat)
    requires a < U32_LIMIT && b < U32_LIMIT
    ensures a * b < U64_LIMIT
  {
    Factors(a, b, 0x1_0000_0000);
  }

  /** A fork of whole blocks from `start` on. */
  ghost predicate ForkIs(f: ForkData, start: nat, blocks: nat, blockSize: nat) {
    && f.extent.start == start && f.extent.count == blocks && f.totalBlocks == blocks
    && f.logicalSize == blocks * blockSize && f.clumpSize == blocks * blockSize % U32_LIMIT
  }

  /** The plan's numbers are those of the map. */
  ghost predicate PlanIs(plan: Plan, m: Map) {
    && plan.blockSize == m.blockSize && plan.totalBlocks == m.total
    && plan.nextAllocation == (if m.End() >= m.total - 1 then 0 else m.End())
    && ForkIs(plan.allocFile, m.Start(1), m.alloc, m.blockSize) && plan.allocStart == m.Start(1)
    && ForkIs(plan.catalogFile, m.Start(2), m.catalog, m.blockSize) && plan.catalogStart == m.Start(2)
    && ForkIs(plan.extentsFile, m.Start(3), m.extents, m.blockSize) && plan.extentsStart == m.Start(3)
    && ForkIs(plan.attributesFile, m.Start(4), m.attrs, m.blockSize) && plan.attributesStart == m.Start(4)
    && plan.userDataStart == m.Start(5)
    && |plan.placements| == |m.counts| && PlacedFrom(plan.placements, m.counts, m.Start(5))
  }

  lemma StartsFit(m: Map)
    requires m.Planned() && m.total < U32_LIMIT
    ensures m.alloc < U32_LIMIT && m.catalog < U32_LIMIT && m.extents < U32_LIMIT && m.attrs < U32_LIMIT
    ensures m.Start(1) <= m.Start(2) <= m.Start(3) <= m.Start(4) <= m.Start(5) <= m.End() < U32_LIMIT
  {
    FirstStarts(m);
    FilesEnd(m);
    EndInside(m);
    hide SumOf;
  }

  /** What the sizes ask for. */
  ghost predicate MapFor(m: Map, blockSize: nat, files: seq<UserFile>, catalog: nat, extents: nat, attrs: nat) {
    && m.blockSize == (if blockSize == 0 then DEFAULT_BLOCK_SIZE else blockSize) && m.Planned()
    && m.catalog == BlocksFor(catalog, m.blockSize) && m.extents == BlocksFor(extents, m.blockSize)
    && m.attrs == BlocksFor(attrs, m.blockSize) && m.counts == CountsFor(files, m.blockSize)
  }

  /** Every fork's block count fits its 32-bit field. */
  predicate Countable(blockSize: nat, files: seq<UserFile>, catalog: nat, extents: nat, attrs: nat)
    requires blockSize > 0
  {
    && BlocksFor(catalog, blockSize) <= U32_MAX && BlocksFor(extents, blockSize) <= U32_MAX
    && BlocksFor(attrs, blockSize) <= U32_MAX
    && forall i :: 0 <= i < |files| ==> Ceil(files[i].size, blockSize) <= U32_MAX
  }

  const MOST_FILES: nat := 0x1000_0000

  /** Block counts, and the totals they lead to. */
  method MakeMap(blockSize: nat, files: seq<UserFile>, catalog: nat, extents: nat, attrs: nat)
    returns (r: Result<Map, PlanError>)
    requires 512 <= blockSize < U32_LIMIT && PowerOfTwo(blockSize) && SizesInRange(files) && |files| <= MOST_FILES
    requires catalog <= WIDE && extents <= WIDE && attrs <= WIDE
    ensures r.Ok? ==> MapFor(r.value, blockSize, files, catalog, extents, attrs)
    ensures r.Ok? <==> Countable(blockSize, files, catalog, extents, attrs)
    ensures r.Err? ==> r.error.ForkTooLarge? || r.error.FileTooLarge?
  {
    hide Ceil, BlocksFor, PowerOfTwo, LeastFixedPoint, SumOf, SizesInRange;
    var catalogBlocks := ForkBlocks(catalog, blockSize);
    if catalogBlocks.Err? {
      return Err(catalogBlocks.error);
    }
    var extentsBlocks := ForkBlocks(extents, blockSize);
    if extentsBlocks.Err? {
      return Err(extentsBlocks.error);
    }
    var attrsBlocks := ForkBlocks(attrs, blockSize);
    if attrsBlocks.Err? {
      return Err(attrsBlocks.error);
    }
    var counted, userBlocks := CountBlocks(files, blockSize);
    if counted.Err? {
      return Err(counted.error);
    }
    var m := FinishMap(blockSize, catalogBlocks.value, extentsBlocks.value, attrsBlocks.value, counted.value, userBlocks);
    return Ok(m);
  }

  /** The largest B-tree sets the least volume; the bitmap is sized for the result. */
  method FinishMap(blockSize: nat, catalog: nat, extents: nat, attrs: nat, counts: seq<nat>, userBlocks: nat)
    returns (m: Map)
    requires 512 <= blockSize < U32_LIMIT && PowerOfTwo(blockSize) && |counts| <= MOST_FILES
    requires 1 <= catalog <= U32_MAX && 1 <= extents <= U32_MAX && 1 <= attrs <= U32_MAX
    requires userBlocks == SumOf(counts) && forall i :: 0 <= i < |counts| ==> counts[i] <= U32_MAX
    ensures m.Planned() && m.blockSize == blockSize && m.counts == counts
    ensures m.catalog == catalog && m.extents == extents && m.attrs == attrs
  {
    SumBounded(counts, U32_MAX);
    Factors(U32_MAX, |counts|, MOST_FILES);
    hide LeastFixedPoint, SumOf, PowerOfTwo, VolumeBlocks;
    var largest := catalog;
    if extents > largest {
      largest := extents;
    }
    if attrs > largest {
      largest := attrs;
    }
    var alloc, total := SizeBitmap(blockSize, catalog + extents + attrs + userBlocks, 4 * largest);
    return Map(blockSize, total, alloc, catalog, extents, attrs, counts);
  }

  /** The whole plan, its counters included. */
  ghost predicate Made(plan: Plan, m: Map, vs: seq<EntryView>)
    reads plan.bitmap, plan.bitmap.bytes
  {
    && m.Planned() && m.total <= U32_LIMIT - 8 && PlanIs(plan, m)
    && plan.bitmap.bits == m.total && plan.bitmap.bytes.Length == (m.total + 7) / 8
    && MarksPlan(plan.bitmap.bytes[..], m)
    && plan.fileCount == Total(vs, FileWeight()) && plan.folderCount == Total(vs, FolderWeight())
    && exists most: nat :: IsMaxCnid(vs, most) && plan.nextCatalogID == (most + 1) % U32_LIMIT
  }

  function BlockSizeFor(blockSize: nat): nat {
    if blockSize == 0 then DEFAULT_BLOCK_SIZE else blockSize
  }

  /** The block size is one the volume format has, and every count fits its field. */
  predicate Plannable(blockSize: nat, files: seq<UserFile>, catalog: nat, extents: nat, attrs: nat) {
    && BlockSizeFor(blockSize) >= 512 && PowerOfTwo(BlockSizeFor(blockSize))
    && Countable(BlockSizeFor(blockSize), files, catalog, extents, attrs)
  }

  /** Lays the volume out and updates the files' entries. The map returned beside
      the result says what was computed when a limit refuses it. */
  method BuildPlan(blockSize: nat, entries: seq<Entry>, files: seq<UserFile>, catalog: nat, extents: nat, attrs: nat)
    returns (r: Result<Plan, PlanError>, ghost m: Map)
    requires blockSize < U32_LIMIT && |entries| < U32_LIMIT && SizesInRange(files) && |files| <= MOST_FILES
    requires catalog <= WIDE && extents <= WIDE && attrs <= WIDE
    modifies EntriesOf(files)`size, EntriesOf(files)`blocks, EntriesOf(files)`extent
    ensures r.Ok? <==> Plannable(blockSize, files, catalog, extents, attrs) && m.total <= U32_LIMIT - 8
    ensures Plannable(blockSize, files, catalog, extents, attrs) ==> MapFor(m, blockSize, files, catalog, extents, attrs)
    ensures r.Err? && r.error.BadBlockSize? <==> blockSize != 0 && (blockSize < 512 || !PowerOfTwo(blockSize))
    ensures r.Ok? ==>
      && MapFor(m, blockSize, files, catalog, extents, attrs)
      && fresh(r.value.bitmap) && fresh(r.value.bitmap.bytes) && Made(r.value, m, Views(entries))
      && EntriesName(files, r.value.placements)
    ensures r.Ok? ==> CountsAre(Views(entries), r.value.fileCount, r.value.folderCount)
    ensures r.Ok? ==> r.value.blockSize == m.blockSize == if blockSize == 0 then 4096 else blockSize
    ensures r.Err? && (r.error.ForkTooLarge? || r.error.FileTooLarge?) ==>
      !Countable(if blockSize == 0 then DEFAULT_BLOCK_SIZE else blockSize, files, catalog, extents, attrs)
    ensures r.Err? && r.error.VolumeTooLarge? ==> MapFor(m, blockSize, files, catalog, extents, attrs) && m.total > U32_MAX
    ensures r.Err? && r.error.BitmapOutOfRange? ==>
      MapFor(m, blockSize, files, catalog, extents, attrs) && U32_LIMIT - 8 < m.total <= U32_MAX
  {
    m := Map(0, 0, 0, 0, 0, 0, []);
    var size := blockSize;
    if size == 0 {
      size := DEFAULT_BLOCK_SIZE;
      DefaultIsPower();
    }
    hide PowerOfTwo, MapFor, Made, EntriesName, EntriesOf, SizesInRange, BlocksFor, Ceil, Countable;
    if size < 512 || !PowerOfTwo(size) {
      return Err(BadBlockSize), m;
    }
    var made := MakeMap(size, files, catalog, extents, attrs);
    if made.Err? {
      return Err(made.error), m;
    }
    var v := made.value;
    m := v;
    MapDefaults(m, blockSize, files, catalog, extents, attrs);
    if v.total > U32_MAX {
      return Err(VolumeTooLarge(v.total)), m;
    }
    var plan := MakePlan(v, entries, files);
    if plan.None? {
      return Err(BitmapOutOfRange), m;
    }
    PlanCounts(plan.value, m, Views(entries));
    return Ok(plan.value), m;
  }

  lemma PlanCounts(plan: Plan, m: Map, vs: seq<EntryView>)
    requires Made(plan, m, vs)
    ensures CountsAre(vs, plan.fileCount, plan.folderCount)
  {
    hide LeastFixedPoint, PowerOfTwo, SumOf, PlacedFrom, MarksPlan, IsMaxCnid, Total, PlanIs;
    WeightsCount(vs);
  }

  lemma DefaultIsPower()
    ensures PowerOfTwo(DEFAULT_BLOCK_SIZE)
  {
    assert PowerOfTwo(64);
    assert PowerOfTwo(1024);
  }

  lemma MapDefaults(m: Map, blockSize: nat, files: seq<UserFile>, catalog: nat, extents: nat, attrs: nat)
    requires MapFor(m, if blockSize == 0 then DEFAULT_BLOCK_SIZE else blockSize, files, catalog, extents, attrs)
    ensures MapFor(m, blockSize, files, catalog, extents, attrs)
    ensures m.Planned() && |m.counts| == |files|
  {
    hide BlocksFor, PowerOfTwo, LeastFixedPoint;
  }

  method MakePlan(m: Map, entries: seq<Entry>, files: seq<UserFile>) returns (r: Option<Plan>)
    requires m.Planned() && m.total <= U32_MAX && |m.counts| == |files| && |entries| < U32_LIMIT
    modifies EntriesOf(files)`size, EntriesOf(files)`blocks, EntriesOf(files)`extent
    ensures r.None? <==> m.total > U32_LIMIT - 8
    ensures r.Some? ==>
      && fresh(r.value.bitmap) && fresh(r.value.bitmap.bytes) && Made(r.value, m, Views(entries))
      && EntriesName(files, r.value.placements)
  {
    PlacesFit(m);
    hide SumOf, EntriesOf, EntriesName, PlacedFrom, MarksPlan, IsMaxCnid, Total, PlanIs, Made, Views;
    var placements, cursor := Place(files, m.counts, 1 + m.alloc + m.catalog + m.extents + m.attrs);
    var marked := MakeBitmap(m, placements);
    if marked.None? {
      return None;
    }
    var fileCount, folderCount, maxCnid := Count(entries);
    var plan := Assemble(m, cursor, fileCount, folderCount, maxCnid, marked.value, placements);
    PlanIsMade(plan, m, Views(entries), maxCnid);
    return Some(plan);
  }

  lemma PlacesFit(m: Map)
    requires m.Planned() && m.total <= U32_MAX
    ensures m.Start(5) == 1 + m.alloc + m.catalog + m.extents + m.attrs
    ensures m.Start(5) + SumOf(m.counts) == m.End() < U32_LIMIT
  {
    FirstStarts(m);
    EndInside(m);
    hide SumOf;
  }

  method MakeBitmap(m: Map, placements: seq<Placement>) returns (r: Option<AllocationBitmap>)
    requires m.Planned() && m.total <= U32_MAX
    requires |placements| == |m.counts| && PlacedFrom(placements, m.counts, m.Start(5))
    ensures r.None? <==> m.total > U32_LIMIT - 8
    ensures r.Some? ==>
      && fresh(r.value) && fresh(r.value.bytes)
      && r.value.bits == m.total && r.value.bytes.Length == (m.total + 7) / 8 && MarksPlan(r.value.bytes[..], m)
  {
    hide SumOf, PlacedFrom, MarksPlan;
    var bitmap := new AllocationBitmap(m.total);
    var inRange := MarkRegions(bitmap, placements, m.alloc, m.catalog, m.extents, m.attrs, m);
    if !inRange {
      return None;
    }
    return Some(bitmap);
  }

  method Assemble(m: Map, cursor: nat, fileCount: nat, folderCount: nat, maxCnid: nat, bitmap: AllocationBitmap,
                  placements: seq<Placement>)
    returns (plan: Plan)
    requires m.Planned() && m.total <= U32_MAX && cursor == m.End()
    requires |placements| == |m.counts| && PlacedFrom(placements, m.counts, m.Start(5))
    ensures PlanIs(plan, m) && plan.fileCount == fileCount && plan.folderCount == folderCount
    ensures plan.nextCatalogID == (maxCnid + 1) % U32_LIMIT && plan.bitmap == bitmap && plan.placements == placements
  {
    FirstStarts(m);
    StartsFit(m);
    hide SumOf, PlacedFrom;
    var allocStart := 1;
    var catalogStart := allocStart + m.alloc;
    var extentsStart := catalogStart + m.catalog;
    var attributesStart := extentsStart + m.extents;
    var userStart := attributesStart + m.attrs;
    var next := cursor;
    if next >= m.total - 1 {
      next := 0;
    }
    plan := Plan(m.blockSize, m.total, next, fileCount, folderCount, (maxCnid + 1) % U32_LIMIT,
                 ForkAt(allocStart, m.alloc, m.blockSize), ForkAt(catalogStart, m.catalog, m.blockSize),
                 ForkAt(extentsStart, m.extents, m.blockSize), ForkAt(attributesStart, m.attrs, m.blockSize),
                 allocStart, catalogStart, extentsStart, attributesStart, userStart, bitmap, placements);
  }

  lemma PlanIsMade(plan: Plan, m: Map, vs: seq<EntryView>, most: nat)
    requires m.Planned() && m.total <= U32_LIMIT - 8 && PlanIs(plan, m)
    requires plan.bitmap.bits == m.total && plan.bitmap.bytes.Length == (m.total + 7) / 8
    requires MarksPlan(plan.bitmap.bytes[..], m)
    requires plan.fileCount == Total(vs, FileWeight()) && plan.folderCount == Total(vs, FolderWeight())
    requires IsMaxCnid(vs, most) && plan.nextCatalogID == (most + 1) % U32_LIMIT
    ensures Made(plan, m, vs)
  {
    hide PlanIs, MarksPlan, IsMaxCnid, Total, PowerOfTwo, LeastFixedPoint;
  }
}
