/** Writing a file and reading it back, and the slots of the inode table. */
module Ext2FileIO {
  import opened Bits
  import opened ByteBlocks
  import opened Ext2Alloc
  import opened Ext2Files

  function Least(a: nat, b: nat): nat {
    if a < b then a else b
  }

  function CeilDiv(a: nat, b: nat): nat
    requires b > 0
  {
    (a + b - 1) / b
  }

  /** The loop of `fs_ext2_write_file` from block `i` on, `w` bytes behind. */
  function WriteFrom(fs: Fs, ino: Inode, buf: Block, i: nat, w: nat): (r: (Fs, Inode, nat))
    requires Formatted(fs) && |ino.raw| == INODE_BYTES && w <= |buf|
    ensures Formatted(r.0) && r.0.geo == fs.geo && |r.0.disk| == |fs.disk|
    ensures |r.1.raw| == INODE_BYTES && r.1.id == ino.id
    ensures r.2 <= |buf|
    decreases |buf| - w
  {
    if w == |buf| then (fs, ino, w)
    else
      var n := Least(|buf| - w, fs.geo.blockSize);
      var (f1, ino1, b) := GetOrAlloc(fs, ino, i);
      if b == 0 then (f1, ino1, w)
      else
        var f2 := WriteBlock(f1, b, Splice(ReadBlock(f1, b), 0, buf[w..w + n]));
        WriteFrom(f2, ino1, buf, i + 1, w + n)
  }

  /** The loop of `fs_ext2_read_file_contents`. */
  function ReadFrom(fs: Fs, ino: Inode, size: nat, i: nat, w: nat): Block
    requires Formatted(fs) && |ino.raw| == INODE_BYTES
    decreases size - w
  {
    if i >= CeilDiv(Size(ino), fs.geo.blockSize) || w >= size || Ptr(fs, ino, i) == 0 then []
    else
      var n := Least(size - w, fs.geo.blockSize);
      ReadBlock(fs, Ptr(fs, ino, i))[..n] + ReadFrom(fs, ino, size, i + 1, w + n)
  }

  // ----- what the write needs

  function ZeroPtrs(fs: Fs, ino: Inode, i: nat, w: nat, size: nat): nat
    requires Formatted(fs) && |ino.raw| == INODE_BYTES
    decreases size - w
  {
    if w >= size then 0
    else (if Ptr(fs, ino, i) == 0 then 1 else 0) + ZeroPtrs(fs, ino, i + 1, w + fs.geo.blockSize, size)
  }

  predicate ReachesIndirect(bs: nat, i: nat, w: nat, size: nat)
    requires bs > 0
    decreases size - w
  {
    w < size && (i >= DIRECT || ReachesIndirect(bs, i + 1, w + bs, size))
  }

  /** Free blocks the write takes: one for each missing pointer, one for a missing
      indirect block. */
  function Needed(fs: Fs, ino: Inode, i: nat, w: nat, size: nat): nat
    requires Formatted(fs) && |ino.raw| == INODE_BYTES
  {
    ZeroPtrs(fs, ino, i, w, size)
    + (if Indirect(ino) == 0 && ReachesIndirect(fs.geo.blockSize, i, w, size) then 1 else 0)
  }

  /** Along the write, a missing indirect block gets a block that reads zero. */
  predicate WriteReady(fs: Fs, ino: Inode, buf: Block, i: nat, w: nat)
    requires Formatted(fs) && |ino.raw| == INODE_BYTES && w <= |buf|
    decreases |buf| - w
  {
    w < |buf| ==>
      IndirectReady(fs, ino, i) &&
      var n := Least(|buf| - w, fs.geo.blockSize);
      var (f1, ino1, b) := GetOrAlloc(fs, ino, i);
      b == 0 || WriteReady(WriteBlock(f1, b, Splice(ReadBlock(f1, b), 0, buf[w..w + n])), ino1, buf, i + 1, w + n)
  }

  // ----- one block written

  /** Writing the data of block `i` moves no pointer, and changes no other data
      block of the file and no foreign block. */
  lemma DataWritten(fs: Fs, ino: Inode, i: nat, data: Block)
    requires FsOk(fs) && FileOk(fs, ino) && i < MaxBlocks(fs.geo) && |ino.raw| == INODE_BYTES
    requires Ptr(fs, ino, i) != 0 && |data| == fs.geo.blockSize
    ensures var t := WriteBlock(fs, Ptr(fs, ino, i), data);
      && FsOk(t) && FileOk(t, ino) && t.freeBlocks == fs.freeBlocks
      && (forall j: nat :: j < MaxBlocks(fs.geo) ==> Ptr(t, ino, j) == Ptr(fs, ino, j))
      && (forall j: nat :: j < MaxBlocks(fs.geo) && j != i && Ptr(fs, ino, j) != 0 ==>
            ReadBlock(t, Ptr(fs, ino, j)) == ReadBlock(fs, Ptr(fs, ino, j)))
      && ReadBlock(t, Ptr(fs, ino, i)) == data
      && (forall c: nat :: Foreign(fs, ino, c) ==> Foreign(t, ino, c) && t.disk[c] == fs.disk[c])
      && (forall c: nat :: IsTable(t, c) <==> IsTable(fs, c))
  {
    hide FsOk, Formatted, Taken, IsBitmap, IsTable, Word, WriteBlock, Ptr, Foreign;
    FsParts(fs);
    var b := Ptr(fs, ino, i);
    assert DataBlock(fs, b);
    WriteKeeps(fs, b, data);
    var t := WriteBlock(fs, b, data);
    forall j: nat | j < MaxBlocks(fs.geo) ensures Ptr(t, ino, j) == Ptr(fs, ino, j) {
      PtrIndirect(fs, ino, j);
      PtrIndirect(t, ino, j);
      if Indirect(ino) != 0 {
        IndirectData(fs, ino);
      }
    }
    forall c: nat | Foreign(fs, ino, c) ensures c < |fs.disk| && Foreign(t, ino, c) && t.disk[c] == fs.disk[c] {
      ForeignRange(fs, ino, c);
      ForeignWritten(fs, ino, t, i, c);
    }
  }

  lemma ForeignRange(fs: Fs, ino: Inode, c: nat)
    requires Formatted(fs) && |ino.raw| == INODE_BYTES && Foreign(fs, ino, c)
    ensures c < |fs.disk|
  {
  }

  lemma ForeignWritten(fs: Fs, ino: Inode, t: Fs, i: nat, c: nat)
    requires Formatted(fs) && Formatted(t) && |ino.raw| == INODE_BYTES && t.geo == fs.geo && |t.disk| == |fs.disk|
    requires i < MaxBlocks(fs.geo) && Ptr(fs, ino, i) != 0 && Foreign(fs, ino, c)
    requires Taken(t, c) <==> Taken(fs, c)
    requires IsBitmap(t, c) <==> IsBitmap(fs, c)
    requires forall j: nat :: j < MaxBlocks(fs.geo) ==> Ptr(t, ino, j) == Ptr(fs, ino, j)
    requires forall c: nat :: c < |fs.disk| && c != Ptr(fs, ino, i) ==> t.disk[c] == fs.disk[c]
    ensures Foreign(t, ino, c) && t.disk[c] == fs.disk[c]
  {
    hide Formatted, Taken, IsBitmap, Ptr;
  }

  // ----- the whole write

  lemma BlockIndex(i: nat, bs: nat, size: nat, max: nat)
    requires bs > 0 && i * bs < size
    ensures i < CeilDiv(size, bs) && (size <= max * bs ==> i < max)
    ensures i * bs + Least(size - i * bs, bs) == size || i * bs + Least(size - i * bs, bs) == (i + 1) * bs
  {
    if i >= max {
      MulGapOrEqual(bs, max, i);
    }
    CeilAbove(i, bs, size);
  }

  lemma MulGapOrEqual(bs: nat, a: nat, b: nat)
    requires a <= b
    ensures a * bs <= b * bs
  {
    assert (b - a) * bs >= 0;
  }

  lemma CeilAbove(i: nat, bs: nat, size: nat)
    requires bs > 0 && i * bs < size
    ensures i < CeilDiv(size, bs)
  {
    var q := CeilDiv(size, bs);
    var r := (size + bs - 1) % bs;
    SplitNumber(size + bs - 1, bs);
    if q <= i {
      MulGapOrEqual(bs, q, i);
      MulCommutes(q, bs);
    }
  }

  /** The counts after one index was served. */
  lemma NeededStep(fs: Fs, ino: Inode, t: Fs, ino': Inode, i: nat, w: nat, size: nat, b: nat)
    requires Formatted(fs) && Formatted(t) && |ino.raw| == INODE_BYTES == |ino'.raw| && t.geo == fs.geo
    requires w < size && i < MaxBlocks(fs.geo) && size <= MaxBlocks(fs.geo) * fs.geo.blockSize
             && w == i * fs.geo.blockSize
    requires forall j: nat :: j < MaxBlocks(fs.geo) ==> Ptr(t, ino', j) == if j == i then b else Ptr(fs, ino, j)
    requires i >= DIRECT ==> Indirect(ino') != 0
    requires i < DIRECT || Indirect(ino) != 0 ==> Indirect(ino') == Indirect(ino)
    ensures Needed(t, ino', i + 1, w + fs.geo.blockSize, size) + NeedAt(fs, ino, i) == Needed(fs, ino, i, w, size)
  {
    hide Formatted, Ptr, Word, Indirect;
    MulStepUp(i, fs.geo.blockSize);
    SamePtrCount(fs, ino, t, ino', i, i + 1, w + fs.geo.blockSize, size, b);
  }

  lemma MulStepUp(i: nat, bs: nat)
    ensures (i + 1) * bs == i * bs + bs
  {
  }

  lemma {:induction false} SamePtrCount(fs: Fs, ino: Inode, t: Fs, ino': Inode, i: nat, j: nat, w: nat, size: nat,
      b: nat)
    requires Formatted(fs) && Formatted(t) && |ino.raw| == INODE_BYTES == |ino'.raw| && t.geo == fs.geo
    requires i < j && size <= MaxBlocks(fs.geo) * fs.geo.blockSize && w == j * fs.geo.blockSize
    requires forall x: nat :: x < MaxBlocks(fs.geo) ==> Ptr(t, ino', x) == if x == i then b else Ptr(fs, ino, x)
    ensures ZeroPtrs(t, ino', j, w, size) == ZeroPtrs(fs, ino, j, w, size)
    decreases size - w
  {
    hide Formatted, Ptr, Word;
    FormattedSize(fs);
    if w < size {
      BlockIndex(j, fs.geo.blockSize, size, MaxBlocks(fs.geo));
      MulStepUp(j, fs.geo.blockSize);
      SamePtrCount(fs, ino, t, ino', i, j + 1, w + fs.geo.blockSize, size, b);
    }
  }

  lemma FormattedSize(fs: Fs)
    requires Formatted(fs)
    ensures fs.geo.blockSize > 0
  {
  }

  lemma PastEnd(fs: Fs, ino: Inode, i: nat, w: nat, size: nat)
    requires Formatted(fs) && |ino.raw| == INODE_BYTES && w >= size
    ensures Needed(fs, ino, i, w, size) == 0
  {
  }

  /** What a finished write from index `i` on guarantees. */
  ghost predicate Written(fs: Fs, ino: Inode, buf: Block, i: nat, w: nat, t: Fs, ino': Inode)
    requires Formatted(fs) && |ino.raw| == INODE_BYTES && Formatted(t) && |ino'.raw| == INODE_BYTES && w <= |buf|
  {
    && t.geo == fs.geo && |t.disk| == |fs.disk| && FsOk(t) && FileOk(t, ino')
    && ino'.id == ino.id && Size(ino') == Size(ino) && Word(ino'.raw, 0) == Word(ino.raw, 0)
    && (forall c: nat :: IsTable(t, c) <==> IsTable(fs, c))
    && (forall c: nat :: Foreign(fs, ino, c) ==> Foreign(t, ino', c) && t.disk[c] == fs.disk[c])
    && (forall j: nat :: j < i && j < MaxBlocks(fs.geo) ==> Ptr(t, ino', j) == Ptr(fs, ino, j))
    && (forall j: nat :: j < i && j < MaxBlocks(fs.geo) && Ptr(fs, ino, j) != 0 ==>
          ReadBlock(t, Ptr(fs, ino, j)) == ReadBlock(fs, Ptr(fs, ino, j)))
    && (Size(ino) == |buf| ==> ReadFrom(t, ino', |buf|, i, w) == buf[w..])
  }

  lemma WrittenNothing(fs: Fs, ino: Inode, buf: Block, i: nat)
    requires FsOk(fs) && FileOk(fs, ino) && |ino.raw| == INODE_BYTES
    ensures Written(fs, ino, buf, i, |buf|, fs, ino)
  {
    hide FsOk, FileOk, Formatted, Word, Foreign, Ptr;
    FsParts(fs);
    forall c: nat | Foreign(fs, ino, c) ensures c < |fs.disk| { ForeignRange(fs, ino, c); }
    assert buf[|buf|..] == [];
  }

  /** One round of the loop, then the rest of it. */
  lemma WrittenRound(fs: Fs, ino: Inode, f1: Fs, ino1: Inode, f2: Fs, t: Fs, ino': Inode,
                     buf: Block, i: nat, w: nat, n: nat, b: nat)
    requires Formatted(fs) && |ino.raw| == INODE_BYTES && Formatted(f1) && |ino1.raw| == INODE_BYTES
    requires Formatted(f2) && Formatted(t) && |ino'.raw| == INODE_BYTES
    requires w < |buf| && i < MaxBlocks(fs.geo) && n == Least(|buf| - w, fs.geo.blockSize) && f2.geo == f1.geo
             && |f2.disk| == |f1.disk|
    requires GotBlock(fs, ino, f1, ino1, i, b)
    requires forall j: nat :: j < MaxBlocks(fs.geo) ==> Ptr(f2, ino1, j) == Ptr(f1, ino1, j)
    requires forall j: nat :: j < MaxBlocks(fs.geo) && j != i && Ptr(f1, ino1, j) != 0 ==>
               ReadBlock(f2, Ptr(f1, ino1, j)) == ReadBlock(f1, Ptr(f1, ino1, j))
    requires ReadBlock(f2, b)[..n] == buf[w..w + n]
    requires forall c: nat :: Foreign(f1, ino1, c) ==> c < |f1.disk| && Foreign(f2, ino1, c) && f2.disk[c] == f1.disk[c]
    requires forall c: nat :: IsTable(f2, c) <==> IsTable(f1, c)
    requires forall j: nat :: j < MaxBlocks(fs.geo) && j != i && Ptr(fs, ino, j) != 0 ==>
               ReadBlock(f1, Ptr(fs, ino, j)) == ReadBlock(fs, Ptr(fs, ino, j))
    requires Written(f2, ino1, buf, i + 1, w + n, t, ino')
    requires Size(ino) == |buf| ==> i < CeilDiv(|buf|, fs.geo.blockSize)
    ensures Written(fs, ino, buf, i, w, t, ino')
  {
    hide FsOk, FileOk, Formatted, Word, Foreign, Ptr, ReadBlock, IsTable, DataBlock, CeilDiv;
    FormattedSize(fs);
    forall c: nat | Foreign(fs, ino, c) ensures c < |fs.disk| { ForeignRange(fs, ino, c); }
    assert Ptr(t, ino', i) == b;
    assert ReadBlock(t, b) == ReadBlock(f2, b);
    if Size(ino) == |buf| {
      assert ReadFrom(t, ino', |buf|, i, w) == ReadBlock(t, b)[..n] + ReadFrom(t, ino', |buf|, i + 1, w + n);
      assert buf[w..] == buf[w..w + n] + buf[w + n..];
    }
  }

  /** Blocks of other indices keep their contents while index `i` is served. */
  lemma OtherData(fs: Fs, ino: Inode, f1: Fs, ino1: Inode, i: nat, b: nat)
    requires FsOk(fs) && FileOk(fs, ino) && |ino.raw| == INODE_BYTES && Formatted(f1) && |ino1.raw| == INODE_BYTES
    requires GotBlock(fs, ino, f1, ino1, i, b)
    ensures forall j: nat :: j < MaxBlocks(fs.geo) && Ptr(fs, ino, j) != 0 ==>
              ReadBlock(f1, Ptr(fs, ino, j)) == ReadBlock(fs, Ptr(fs, ino, j))
  {
    hide FsOk, Formatted, Word, Foreign, Ptr, IsTable, Taken, IsBitmap, Indirect;
    FsParts(fs);
  }

  lemma {:induction false} WriteFromOk(fs: Fs, ino: Inode, buf: Block, i: nat, w: nat)
    requires FsOk(fs) && FileOk(fs, ino) && |ino.raw| == INODE_BYTES && w <= |buf|
    requires w == |buf| || w == i * fs.geo.blockSize
    requires |buf| <= MaxBlocks(fs.geo) * fs.geo.blockSize
    requires WriteReady(fs, ino, buf, i, w) && fs.freeBlocks >= Needed(fs, ino, i, w, |buf|)
    ensures var (t, ino', n) := WriteFrom(fs, ino, buf, i, w);
      n == |buf| && Written(fs, ino, buf, i, w, t, ino')
    decreases |buf| - w
  {
    hide FsOk, FileOk, Formatted, Word, Foreign, Ptr, ReadBlock, IsTable, DataBlock, Needed, NeedAt, GetOrAlloc,
         WriteBlock, IndirectReady, Indirect, Written, MapStep, CeilDiv;
    FsParts(fs);
    FormattedSize(fs);
    if w == |buf| {
      WrittenNothing(fs, ino, buf, i);
    } else {
      var bs := fs.geo.blockSize;
      var n := Least(|buf| - w, bs);
      BlockIndex(i, bs, |buf|, MaxBlocks(fs.geo));
      NeededHere(fs, ino, i, w, |buf|);
      GetOrAllocOk(fs, ino, i);
      var (f1, ino1, b) := GetOrAlloc(fs, ino, i);
      GotParts(fs, ino, f1, ino1, i, b);
      var data := Splice(ReadBlock(f1, b), 0, buf[w..w + n]);
      DataWritten(f1, ino1, i, data);
      var f2 := WriteBlock(f1, b, data);
      NeededStep(fs, ino, f2, ino1, i, w, |buf|, b);
      if w + n == |buf| { PastEnd(f2, ino1, i + 1, w + n, |buf|); }
      WriteFromOk(f2, ino1, buf, i + 1, w + n);
      var (t, ino', m) := WriteFrom(f2, ino1, buf, i + 1, w + n);
      OtherData(fs, ino, f1, ino1, i, b);
      assert ReadBlock(f2, b)[..n] == buf[w..w + n];
      WrittenRound(fs, ino, f1, ino1, f2, t, ino', buf, i, w, n, b);
    }
  }

  lemma NeededHere(fs: Fs, ino: Inode, i: nat, w: nat, size: nat)
    requires Formatted(fs) && |ino.raw| == INODE_BYTES && w < size
    ensures NeedAt(fs, ino, i) <= Needed(fs, ino, i, w, size)
  {
    hide Formatted, Ptr, Indirect;
  }

  lemma GotParts(fs: Fs, ino: Inode, f1: Fs, ino1: Inode, i: nat, b: nat)
    requires Formatted(fs) && |ino.raw| == INODE_BYTES && Formatted(f1) && |ino1.raw| == INODE_BYTES
    requires GotBlock(fs, ino, f1, ino1, i, b) && i < MaxBlocks(fs.geo)
    ensures FsOk(f1) && FileOk(f1, ino1) && b != 0 && Ptr(f1, ino1, i) == b && f1.geo == fs.geo
    ensures forall j: nat :: j < MaxBlocks(fs.geo) ==> Ptr(f1, ino1, j) == if j == i then b else Ptr(fs, ino, j)
    ensures f1.freeBlocks == fs.freeBlocks - NeedAt(fs, ino, i)
    ensures i >= DIRECT ==> Indirect(ino1) != 0
    ensures i < DIRECT || Indirect(ino) != 0 ==> Indirect(ino1) == Indirect(ino)
    ensures forall c: nat :: Foreign(f1, ino1, c) ==> c < |f1.disk|
  {
    hide FsOk, FileOk, Formatted, Word, Ptr, DataBlock, Indirect, NeedAt;
  }

  // ----- the inode table

  predicate Sized(geo: Geometry) {
    geo.blockSize > 0 && geo.inodesPerGroup > 0
  }

  function SlotGroup(fs: Fs, id: nat): nat
    requires Sized(fs.geo) && id > 0
  {
    GroupOf(fs, Inodes, id)
  }

  /** Byte position of inode `id` in its group's table. */
  function SlotPosition(fs: Fs, id: nat): nat
    requires Sized(fs.geo) && id > 0
  {
    BitOf(fs, Inodes, id) * fs.geo.inodeSize
  }

  function SlotBlock(fs: Fs, id: nat): nat
    requires Sized(fs.geo) && id > 0 && SlotGroup(fs, id) < |fs.groups|
  {
    fs.groups[SlotGroup(fs, id)].inodeTable + SlotPosition(fs, id) / fs.geo.blockSize
  }

  function SlotOffset(fs: Fs, id: nat): nat
    requires Sized(fs.geo) && id > 0
  {
    SlotPosition(fs, id) % fs.geo.blockSize
  }

  /** Inodes of at least 128 bytes, a whole number to a block; tables apart. */
  ghost predicate SlotsOk(fs: Fs)
    requires Formatted(fs)
  {
    && fs.geo.inodeSize >= INODE_BYTES && fs.geo.blockSize % fs.geo.inodeSize == 0
    && forall g, h, b: nat :: 0 <= g < |fs.groups| && 0 <= h < |fs.groups| && g != h ==>
         !(InTable(fs, g, b) && InTable(fs, h, b))
  }

  predicate HasSlot(fs: Fs, id: nat)
    requires Sized(fs.geo)
  {
    id > 0 && SlotGroup(fs, id) < |fs.groups|
  }

  function ReadInode(fs: Fs, id: nat): (r: Inode)
    requires Formatted(fs) && HasSlot(fs, id) && SlotOffset(fs, id) + INODE_BYTES <= fs.geo.blockSize
    ensures |r.raw| == INODE_BYTES && r.id == id
  {
    Inode(ReadBlock(fs, SlotBlock(fs, id))[SlotOffset(fs, id)..SlotOffset(fs, id) + INODE_BYTES], id)
  }

  function WriteInode(fs: Fs, ino: Inode): (r: Fs)
    requires Formatted(fs) && HasSlot(fs, ino.id) && SlotOffset(fs, ino.id) + INODE_BYTES <= fs.geo.blockSize
    requires |ino.raw| == INODE_BYTES
    ensures Formatted(r) && r.geo == fs.geo && |r.disk| == |fs.disk|
  {
    var b := SlotBlock(fs, ino.id);
    WriteBlock(fs, b, Splice(ReadBlock(fs, b), SlotOffset(fs, ino.id), ino.raw))
  }

  /** Where position x * s falls among blocks of m slots of s bytes. */
  lemma SlotArithmetic(x: nat, s: nat, m: nat, bs: nat)
    requires s > 0 && m > 0 && bs == m * s
    ensures (x * s) / bs == x / m && (x * s) % bs == (x % m) * s && (x % m) * s + s <= bs
  {
    var q, r := x / m, x % m;
    SplitNumber(x, m);
    assert x * s == bs * q + r * s by {
      assert x * s == (m * q + r) * s;
      Rearrange(m, q, r, s);
    }
    MulGap(s, r, m);
    MulCommutes(r, s);
    MulCommutes(m, s);
    DivUnique(x * s, bs, q, r * s);
  }

  lemma Rearrange(m: nat, q: nat, r: nat, s: nat)
    ensures (m * q + r) * s == (m * s) * q + r * s
  {
    assert (m * q + r) * s == (m * q) * s + r * s;
    assert (m * q) * s == (m * s) * q;
  }

  lemma SlotFits(fs: Fs, id: nat)
    requires Formatted(fs) && SlotsOk(fs) && id > 0
    ensures SlotOffset(fs, id) + INODE_BYTES <= fs.geo.blockSize
  {
    var m := fs.geo.blockSize / fs.geo.inodeSize;
    SplitNumber(fs.geo.blockSize, fs.geo.inodeSize);
    MulCommutes(m, fs.geo.inodeSize);
    SlotArithmetic(BitOf(fs, Inodes, id), fs.geo.inodeSize, m, fs.geo.blockSize);
  }

  lemma SlotInTable(fs: Fs, id: nat)
    requires Formatted(fs) && SlotsOk(fs) && HasSlot(fs, id)
    ensures InTable(fs, SlotGroup(fs, id), SlotBlock(fs, id)) && IsTable(fs, SlotBlock(fs, id))
  {
    hide Formatted, SlotsOk, SlotPosition, TableBlocks, GroupOf;
    FormattedSizes(fs);
    PositionHolds(fs, id);
  }

  lemma PositionHolds(fs: Fs, id: nat)
    requires Formatted(fs) && SlotsOk(fs) && HasSlot(fs, id)
    ensures fs.geo.blockSize > 0 && SlotPosition(fs, id) / fs.geo.blockSize < TableBlocks(fs.geo)
  {
    hide Formatted, CeilDiv, BitOf, GroupOf, TableBlocks;
    FormattedSizes(fs);
    Encode(fs, Inodes, id);
    TableHolds(BitOf(fs, Inodes, id), fs.geo.inodesPerGroup, fs.geo.inodeSize, fs.geo.blockSize);
    TableBlocksIs(fs.geo);
  }

  lemma TableBlocksIs(geo: Geometry)
    requires geo.blockSize > 0
    ensures TableBlocks(geo) == CeilDiv(geo.inodesPerGroup * geo.inodeSize, geo.blockSize)
  {
  }

  lemma FormattedSizes(fs: Fs)
    requires Formatted(fs)
    ensures fs.geo.blockSize > 0 && fs.geo.inodesPerGroup > 0
  {
  }

  lemma TableHolds(x: nat, ipg: nat, s: nat, bs: nat)
    requires x < ipg && s > 0 && bs > 0
    ensures (x * s) / bs < CeilDiv(ipg * s, bs)
  {
    hide CeilDiv;
    MulGap(s, x, ipg);
    MulCommutes(x, s);
    MulCommutes(ipg, s);
    var i := (x * s) / bs;
    SplitNumber(x * s, bs);
    MulCommutes(i, bs);
    CeilAbove(i, bs, ipg * s);
  }

  /** Places of `s` bytes in blocks that hold a whole number of them do not meet. */
  lemma PlacesApart(x: nat, y: nat, s: nat, m: nat, bs: nat)
    requires x != y && s > 0 && m > 0 && bs == m * s
    ensures (x * s) / bs != (y * s) / bs
            || (x * s) % bs + s <= (y * s) % bs || (y * s) % bs + s <= (x * s) % bs
  {
    SlotArithmetic(x, s, m, bs);
    SlotArithmetic(y, s, m, bs);
    SplitNumber(x, m);
    SplitNumber(y, m);
    if x / m == y / m {
      if x % m < y % m { MulGap(s, x % m, y % m); } else { MulGap(s, y % m, x % m); }
      MulCommutes(x % m, s);
      MulCommutes(y % m, s);
    }
  }

  lemma BitsDiffer(fs: Fs, a: nat, b: nat)
    requires Sized(fs.geo) && 0 < a && 0 < b && a != b && SlotGroup(fs, a) == SlotGroup(fs, b)
    ensures BitOf(fs, Inodes, a) != BitOf(fs, Inodes, b)
  {
    hide GroupOf, BitOf;
    Encode(fs, Inodes, a);
    Encode(fs, Inodes, b);
  }

  lemma OtherGroupApart(fs: Fs, a: nat, b: nat)
    requires Formatted(fs) && SlotsOk(fs) && HasSlot(fs, a) && HasSlot(fs, b) && SlotGroup(fs, a) != SlotGroup(fs, b)
    ensures SlotBlock(fs, a) != SlotBlock(fs, b)
  {
    hide Formatted, InTable, SlotBlock, IsTable;
    SlotInTable(fs, a);
    SlotInTable(fs, b);
  }

  lemma WholeNumber(fs: Fs) returns (m: nat)
    requires Formatted(fs) && SlotsOk(fs)
    ensures m > 0 && fs.geo.inodeSize >= INODE_BYTES && fs.geo.blockSize == m * fs.geo.inodeSize
  {
    m := fs.geo.blockSize / fs.geo.inodeSize;
    SplitNumber(fs.geo.blockSize, fs.geo.inodeSize);
    MulCommutes(m, fs.geo.inodeSize);
  }

  /** The slots of two inodes do not meet. */
  lemma SlotsApart(fs: Fs, a: nat, b: nat)
    requires Formatted(fs) && SlotsOk(fs) && HasSlot(fs, a) && HasSlot(fs, b) && a != b
    ensures SlotBlock(fs, a) != SlotBlock(fs, b)
            || SlotOffset(fs, a) + INODE_BYTES <= SlotOffset(fs, b)
            || SlotOffset(fs, b) + INODE_BYTES <= SlotOffset(fs, a)
  {
    if SlotGroup(fs, a) != SlotGroup(fs, b) {
      OtherGroupApart(fs, a, b);
    } else {
      hide Formatted, SlotsOk, GroupOf, BitOf;
      BitsDiffer(fs, a, b);
      var m := WholeNumber(fs);
      PlacesApart(BitOf(fs, Inodes, a), BitOf(fs, Inodes, b), fs.geo.inodeSize, m, fs.geo.blockSize);
    }
  }
}
