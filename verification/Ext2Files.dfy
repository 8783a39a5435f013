/** Files: the block map of an inode, and reading and writing through it. */
module Ext2Files {
  import opened Bits
  import opened Frames
  import opened ByteBlocks
  import opened Ext2Alloc

  const INODE_BYTES: nat := 128
  const DIRECT: nat := 12

  /** The 128 bytes of an inode as they lie on disk, and its number. */
  datatype Inode = Inode(raw: Block, id: nat)

  function Size(ino: Inode): nat
    requires |ino.raw| == INODE_BYTES
  {
    Word(ino.raw, 1)
  }

  function Direct(ino: Inode, i: nat): nat
    requires |ino.raw| == INODE_BYTES && i < DIRECT
  {
    Word(ino.raw, 10 + i)
  }

  function Indirect(ino: Inode): nat
    requires |ino.raw| == INODE_BYTES
  {
    Word(ino.raw, 22)
  }

  predicate IsFile(ino: Inode)
    requires |ino.raw| == INODE_BYTES
  {
    (Word(ino.raw, 0) % 0x1_0000) / 0x1000 == 8
  }

  function SetField(ino: Inode, k: nat, w: nat): (r: Inode)
    requires |ino.raw| == INODE_BYTES && k < 32
    ensures |r.raw| == INODE_BYTES && r.id == ino.id
  {
    ino.(raw := SetWord(ino.raw, k, w))
  }

  lemma SetFieldReads(ino: Inode, k: nat, w: nat)
    requires |ino.raw| == INODE_BYTES && k < 32 && w < WORD
    ensures forall j: nat :: j < 32 ==> Word(SetField(ino, k, w).raw, j) == if j == k then w else Word(ino.raw, j)
  {
    forall j: nat | j < 32 ensures Word(SetField(ino, k, w).raw, j) == if j == k then w else Word(ino.raw, j) {
      SetWordReads(ino.raw, k, w, j);
    }
  }

  // ----- blocks of the disk

  function ReadBlock(fs: Fs, b: nat): (r: Block)
    requires Formatted(fs)
    ensures |r| == fs.geo.blockSize
  {
    if b < |fs.disk| then fs.disk[b] else seq(fs.geo.blockSize, _ => 0)
  }

  function WriteBlock(fs: Fs, b: nat, data: Block): (r: Fs)
    requires Formatted(fs) && |data| == fs.geo.blockSize
    ensures Formatted(r) && r.geo == fs.geo && |r.disk| == |fs.disk|
  {
    if b < |fs.disk| then fs.(disk := fs.disk[b := data]) else fs
  }

  function Words(geo: Geometry): nat {
    geo.blockSize / 4
  }

  function MaxBlocks(geo: Geometry): nat {
    DIRECT + Words(geo)
  }

  /** `__fs_ext2_get_block_ptr`. */
  function Ptr(fs: Fs, ino: Inode, i: nat): nat
    requires Formatted(fs) && |ino.raw| == INODE_BYTES
  {
    if i < DIRECT then Direct(ino, i)
    else if i - DIRECT >= Words(fs.geo) || Indirect(ino) == 0 then 0
    else Word(ReadBlock(fs, Indirect(ino)), i - DIRECT)
  }

  /** The indirect block gets its pointer, allocating if it has none. */
  function GetIndirect(fs: Fs, ino: Inode): (r: (Fs, Inode))
    requires Formatted(fs) && |ino.raw| == INODE_BYTES
    ensures |r.1.raw| == INODE_BYTES && r.1.id == ino.id
    ensures Formatted(r.0) && r.0.geo == fs.geo && |r.0.disk| == |fs.disk|
  {
    if Indirect(ino) != 0 then (fs, ino)
    else
      var (f, b) := Alloc(fs, Blocks, 0);
      (f, SetField(ino, 22, b))
  }

  /** `__fs_ext2_get_or_alloc_block_ptr`; a failed allocation yields block 0. */
  function GetOrAlloc(fs: Fs, ino: Inode, i: nat): (r: (Fs, Inode, nat))
    requires Formatted(fs) && |ino.raw| == INODE_BYTES
    ensures |r.1.raw| == INODE_BYTES && r.1.id == ino.id
    ensures Formatted(r.0) && r.0.geo == fs.geo && |r.0.disk| == |fs.disk|
  {
    if i < DIRECT then
      if Direct(ino, i) != 0 then (fs, ino, Direct(ino, i))
      else
        var (f, b) := Alloc(fs, Blocks, 0);
        (f, SetField(ino, 10 + i, b), b)
    else if i - DIRECT >= Words(fs.geo) then (fs, ino, 0)
    else
      var (f1, ino1) := GetIndirect(fs, ino);
      var indirect := ReadBlock(f1, Indirect(ino1));
      var w := Word(indirect, i - DIRECT);
      if w != 0 then (f1, ino1, w)
      else
        var (f2, b) := Alloc(f1, Blocks, 0);
        (WriteBlock(f2, Indirect(ino1), SetWord(indirect, i - DIRECT, b)), ino1, b)
  }

  // ----- a file system in order

  /** Whole blocks that the inode table of a group takes. */
  function TableBlocks(geo: Geometry): nat
    requires geo.blockSize > 0
  {
    (geo.inodesPerGroup * geo.inodeSize + geo.blockSize - 1) / geo.blockSize
  }

  predicate InTable(fs: Fs, g: nat, b: nat)
    requires fs.geo.blockSize > 0 && g < |fs.groups|
  {
    fs.groups[g].inodeTable <= b < fs.groups[g].inodeTable + TableBlocks(fs.geo)
  }

  predicate BitmapAt(fs: Fs, g: nat, b: nat)
    requires g < |fs.groups|
  {
    b == fs.groups[g].blockBitmap || b == fs.groups[g].inodeBitmap
  }

  ghost predicate IsBitmap(fs: Fs, b: nat) {
    exists g :: 0 <= g < |fs.groups| && BitmapAt(fs, g, b)
  }

  ghost predicate IsTable(fs: Fs, b: nat)
    requires fs.geo.blockSize > 0
  {
    exists g :: 0 <= g < |fs.groups| && InTable(fs, g, b)
  }

  predicate Taken(fs: Fs, b: nat)
    requires Formatted(fs)
  {
    NumberInUse(fs, Blocks, b)
  }

  /** Honest counts; bitmaps and inode tables in use, in range and apart; every
      free block a real block other than block 0. */
  ghost predicate FsOk(fs: Fs) {
    && Formatted(fs) && Accounted(fs, Blocks) && Accounted(fs, Inodes) && PaddingUsed(fs, Blocks)
    && |fs.disk| < WORD
    && (forall b: nat :: !Taken(fs, b) ==> b < |fs.disk|)
    && (forall b: nat :: IsBitmap(fs, b) ==> Taken(fs, b) && b < |fs.disk| && !IsTable(fs, b))
    && (forall b: nat :: IsTable(fs, b) ==> Taken(fs, b) && b < |fs.disk|)
  }

  /** From `fs` to `t` block `n` was taken (none if `n` is 0): bitmaps and counts
      moved, no other block changed. */
  ghost predicate TookBlock(fs: Fs, t: Fs, n: nat)
    requires Formatted(fs) && Formatted(t)
  {
    && t.geo == fs.geo && |t.disk| == |fs.disk|
    && n < WORD
    && (forall b: nat :: IsBitmap(t, b) <==> IsBitmap(fs, b))
    && (forall b: nat :: IsTable(t, b) <==> IsTable(fs, b))
    && (forall b: nat :: b < |fs.disk| && !IsBitmap(fs, b) ==> t.disk[b] == fs.disk[b])
    && (forall b: nat :: Taken(t, b) <==> Taken(fs, b) || (n != 0 && b == n))
    && t.freeBlocks == fs.freeBlocks - (if n == 0 then 0 else 1)
    && (n != 0 ==> !Taken(fs, n) && n < |fs.disk|)
  }

  lemma TakeBitElsewhere(fs: Fs, kind: Kind, g: nat, f: nat)
    requires Formatted(fs) && g < |fs.groups| && FreeIn(fs.groups[g], kind) > 0 && f < 8 * fs.geo.blockSize
    ensures f < 8 * |Bitmap(fs, g, kind)|
    ensures var t := TakeBit(fs, kind, g, f);
      && (forall b: nat :: IsBitmap(t, b) <==> IsBitmap(fs, b))
      && (forall b: nat :: IsTable(t, b) <==> IsTable(fs, b))
      && (forall b: nat :: b < |fs.disk| && !IsBitmap(fs, b) ==> t.disk[b] == fs.disk[b])
  {
    BitmapSize(fs, kind, g);
    var t := TakeBit(fs, kind, g, f);
    hide Formatted;
    assert BitmapAt(fs, g, BitmapOf(fs.groups[g], kind));
    forall h, b: nat | 0 <= h < |fs.groups|
      ensures BitmapAt(t, h, b) <==> BitmapAt(fs, h, b)
      ensures InTable(t, h, b) <==> InTable(fs, h, b)
    {
    }
  }

  lemma AllocOk(fs: Fs)
    requires FsOk(fs)
    ensures var (t, n) := Alloc(fs, Blocks, 0);
      FsOk(t) && TookBlock(fs, t, n) && (n == 0 <==> fs.freeBlocks == 0)
  {
    var (t, n) := Alloc(fs, Blocks, 0);
    hide FsOk, Formatted, Accounted, PaddingUsed, TookBlock, Alloc;
    FsParts(fs);
    AllocAccounts(fs, Blocks, 0);
    AllocTook(fs);
    TookKeepsOk(fs, t, n);
  }

  lemma FsParts(fs: Fs)
    requires FsOk(fs)
    ensures Formatted(fs) && Accounted(fs, Blocks) && Accounted(fs, Inodes) && PaddingUsed(fs, Blocks)
  {
  }

  lemma AllocTook(fs: Fs)
    requires FsOk(fs)
    ensures var (t, n) := Alloc(fs, Blocks, 0); TookBlock(fs, t, n) && PaddingUsed(t, Blocks)
  {
    hide FsOk, Accounted, PaddingUsed, Formatted, NumberInUse, IsBitmap, IsTable, TakeBit, Usable, FirstZero;
    FsParts(fs);
    AllocAccounts(fs, Blocks, 0);
    var (t, n) := Alloc(fs, Blocks, 0);
    FreeInRange(fs, n);
    var g := Pick(fs, Blocks, 0, 0);
    if g < |fs.groups| {
      UsableParts(fs, g);
      var f := FirstZero(Bitmap(fs, g, Blocks), Limit(fs.geo, Blocks), 0);
      LimitFits(fs, Blocks);
      TakeBitElsewhere(fs, Blocks, g, f);
      PaddingAfter(fs, g, f);
    }
  }

  lemma UsableParts(fs: Fs, g: nat)
    requires Usable(fs, Blocks, g)
    ensures g < |fs.groups| && FreeIn(fs.groups[g], Blocks) > 0
    ensures FirstZero(Bitmap(fs, g, Blocks), Limit(fs.geo, Blocks), 0) < Limit(fs.geo, Blocks)
  {
  }

  lemma FreeInRange(fs: Fs, n: nat)
    requires FsOk(fs)
    ensures Formatted(fs) && |fs.disk| < WORD && (!Taken(fs, n) ==> n < |fs.disk|)
  {
  }

  lemma TookKeepsOk(fs: Fs, t: Fs, n: nat)
    requires FsOk(fs) && Formatted(t) && TookBlock(fs, t, n)
    requires Accounted(t, Blocks) && Accounted(t, Inodes) && PaddingUsed(t, Blocks)
    ensures FsOk(t)
  {
    hide Accounted, PaddingUsed, Formatted, NumberInUse, IsBitmap, IsTable;
  }

  lemma PaddingAfter(fs: Fs, g: nat, f: nat)
    requires Formatted(fs) && PaddingUsed(fs, Blocks)
    requires g < |fs.groups| && FreeIn(fs.groups[g], Blocks) > 0 && f < 8 * fs.geo.blockSize
    ensures f < 8 * |Bitmap(fs, g, Blocks)| && PaddingUsed(TakeBit(fs, Blocks, g, f), Blocks)
  {
    BitmapAfterUses(fs, Blocks, g, f);
    hide Formatted, Bitmap, InUse;
  }

  // ----- a file in order

  /** A block that can hold file data: real, in use, and no metadata. */
  ghost predicate DataBlock(fs: Fs, b: nat)
    requires Formatted(fs)
  {
    b < |fs.disk| && Taken(fs, b) && !IsBitmap(fs, b) && !IsTable(fs, b)
  }

  /** The file's blocks, the indirect block included, are data blocks and all
      different. */
  ghost predicate FileOk(fs: Fs, ino: Inode)
    requires Formatted(fs)
  {
    && |ino.raw| == INODE_BYTES
    && (forall i: nat :: i < MaxBlocks(fs.geo) && Ptr(fs, ino, i) != 0 ==> DataBlock(fs, Ptr(fs, ino, i)))
    && (forall i: nat, j: nat :: i < j < MaxBlocks(fs.geo) && Ptr(fs, ino, i) != 0 ==>
          Ptr(fs, ino, i) != Ptr(fs, ino, j))
    && (Indirect(ino) != 0 ==>
          DataBlock(fs, Indirect(ino)) && forall i: nat :: i < MaxBlocks(fs.geo) ==> Ptr(fs, ino, i) != Indirect(ino))
  }

  /** What one step may do to the block map: index `i` gets the fresh block `n`. */
  ghost predicate PtrsUpdated(fs: Fs, ino: Inode, t: Fs, ino': Inode, i: nat, n: nat)
    requires Formatted(fs) && Formatted(t) && |ino.raw| == INODE_BYTES == |ino'.raw|
  {
    forall j: nat :: j < MaxBlocks(fs.geo) ==> Ptr(t, ino', j) == if j == i then n else Ptr(fs, ino, j)
  }

  lemma FileGrows(fs: Fs, ino: Inode, t: Fs, ino': Inode, i: nat, n: nat)
    requires Formatted(fs) && Formatted(t) && FileOk(fs, ino) && |ino'.raw| == INODE_BYTES
    requires t.geo == fs.geo && |t.disk| == |fs.disk|
    requires forall b: nat :: DataBlock(fs, b) ==> DataBlock(t, b)
    requires PtrsUpdated(fs, ino, t, ino', i, n) && DataBlock(t, n) && !Taken(fs, n) && n != 0
    requires Indirect(ino') == Indirect(ino)
    ensures FileOk(t, ino')
  {
    hide Formatted, Taken, IsBitmap, IsTable, Ptr, Indirect;
  }

  /** Data blocks stay data blocks, and the block taken is one. */
  lemma TookData(fs: Fs, t: Fs, n: nat)
    requires FsOk(fs) && FsOk(t) && TookBlock(fs, t, n)
    ensures forall b: nat :: DataBlock(fs, b) ==> DataBlock(t, b) && t.disk[b] == fs.disk[b]
    ensures n != 0 ==> DataBlock(t, n)
  {
    hide Accounted, PaddingUsed, Formatted, NumberInUse, IsBitmap, IsTable;
  }

  /** The indirect block reads the same after a block was taken. */
  lemma PtrAfterTake(fs: Fs, ino: Inode, t: Fs, n: nat, j: nat)
    requires FsOk(fs) && FsOk(t) && TookBlock(fs, t, n) && FileOk(fs, ino)
    ensures Indirect(ino) != 0 ==> ReadBlock(t, Indirect(ino)) == ReadBlock(fs, Indirect(ino))
    ensures Ptr(t, ino, j) == Ptr(fs, ino, j)
  {
    hide FsOk, TookBlock, Formatted, Taken, IsBitmap, IsTable, Indirect;
    FsParts(fs);
    FsParts(t);
    TookData(fs, t, n);
    SizesAfter(fs, t, n);
  }

  lemma SizesAfter(fs: Fs, t: Fs, n: nat)
    requires Formatted(fs) && Formatted(t) && TookBlock(fs, t, n)
    ensures t.geo == fs.geo && |t.disk| == |fs.disk| && n < WORD
  {
  }

  // ----- the three ways a pointer is filled

  lemma DirectAllocated(fs: Fs, ino: Inode, t: Fs, n: nat, i: nat)
    requires FsOk(fs) && FsOk(t) && TookBlock(fs, t, n) && FileOk(fs, ino) && n < WORD
    requires i < DIRECT && Ptr(fs, ino, i) == 0
    ensures PtrsUpdated(fs, ino, t, SetField(ino, 10 + i, n), i, n)
    ensures Indirect(SetField(ino, 10 + i, n)) == Indirect(ino)
    ensures n != 0 ==> FileOk(t, SetField(ino, 10 + i, n))
  {
    hide FsOk, TookBlock, Formatted, Taken, IsBitmap, IsTable, FileOk, SetField;
    FsParts(fs);
    FsParts(t);
    FileRaw(fs, ino);
    var ino' := SetField(ino, 10 + i, n);
    SetFieldReads(ino, 10 + i, n);
    SizesAfter(fs, t, n);
    assert Indirect(ino') == Indirect(ino);
    forall j: nat | j < MaxBlocks(fs.geo) ensures Ptr(t, ino', j) == if j == i then n else Ptr(fs, ino, j) {
      PtrAfterTake(fs, ino, t, n, j);
      SamePtrs(t, ino, ino', j);
    }
    if n != 0 {
      TookData(fs, t, n);
      TookFresh(fs, t, n);
      FileGrows(fs, ino, t, ino', i, n);
    }
  }

  lemma SamePtrs(t: Fs, ino: Inode, ino': Inode, j: nat)
    requires Formatted(t) && |ino.raw| == INODE_BYTES == |ino'.raw| && Indirect(ino') == Indirect(ino)
    ensures j < DIRECT ==> Ptr(t, ino', j) == Direct(ino', j) && Ptr(t, ino, j) == Direct(ino, j)
    ensures j >= DIRECT ==> Ptr(t, ino', j) == Ptr(t, ino, j)
  {
    hide Formatted;
  }

  lemma TookFresh(fs: Fs, t: Fs, n: nat)
    requires Formatted(fs) && Formatted(t) && TookBlock(fs, t, n) && n != 0
    ensures !Taken(fs, n) && t.freeBlocks == fs.freeBlocks - 1
  {
  }

  lemma FileRaw(fs: Fs, ino: Inode)
    requires Formatted(fs) && FileOk(fs, ino)
    ensures |ino.raw| == INODE_BYTES
  {
  }

  /** The pointers read through the indirect block, and nothing else of it. */
  lemma PtrIndirect(fs: Fs, ino: Inode, j: nat)
    requires Formatted(fs) && |ino.raw| == INODE_BYTES
    ensures DIRECT <= j < MaxBlocks(fs.geo) ==>
              Ptr(fs, ino, j) == if Indirect(ino) == 0 then 0 else Word(ReadBlock(fs, Indirect(ino)), j - DIRECT)
    ensures j < DIRECT ==> Ptr(fs, ino, j) == Direct(ino, j)
  {
  }

  function WithEntry(t: Fs, b: nat, x: nat, n: nat): (r: Fs)
    requires Formatted(t) && x < Words(t.geo)
    ensures Formatted(r) && r.geo == t.geo && |r.disk| == |t.disk|
  {
    WriteBlock(t, b, SetWord(ReadBlock(t, b), x, n))
  }

  /** Writing to a block that is no bitmap changes no bitmap, no count, no set. */
  lemma WriteKeepsAny(t: Fs, b: nat, data: Block)
    requires FsOk(t) && b < |t.disk| && !IsBitmap(t, b) && |data| == t.geo.blockSize
    ensures var r := WriteBlock(t, b, data);
      && FsOk(r) && r.freeBlocks == t.freeBlocks && r.groups == t.groups
      && (forall c: nat :: Taken(r, c) <==> Taken(t, c))
      && (forall c: nat :: DataBlock(r, c) <==> DataBlock(t, c))
      && (forall c: nat :: IsBitmap(r, c) <==> IsBitmap(t, c))
      && (forall c: nat :: IsTable(r, c) <==> IsTable(t, c))
      && (forall c: nat :: c < |t.disk| && c != b ==> r.disk[c] == t.disk[c]) && r.disk[b] == data
  {
    hide Accounted, PaddingUsed, Formatted, Taken, IsBitmap, IsTable, WriteBlock;
    WriteAccounts(t, b, data);
    WritePlain(t, b, data);
    WriteTaken(t, b, data);
    var r := WriteBlock(t, b, data);
    forall c: nat
      ensures IsBitmap(r, c) <==> IsBitmap(t, c)
      ensures IsTable(r, c) <==> IsTable(t, c)
    {
      SameSets(t, r, c);
    }
  }

  lemma WritePlain(t: Fs, b: nat, data: Block)
    requires Formatted(t) && b < |t.disk| && |data| == t.geo.blockSize
    ensures var r := WriteBlock(t, b, data);
      && r.geo == t.geo && r.groups == t.groups && r.freeBlocks == t.freeBlocks && |r.disk| == |t.disk|
      && t.geo.blockSize > 0 && r.disk[b] == data
      && forall c: nat :: c < |t.disk| && c != b ==> r.disk[c] == t.disk[c]
  {
  }

  lemma WriteTaken(t: Fs, b: nat, data: Block)
    requires Formatted(t) && b < |t.disk| && !IsBitmap(t, b) && |data| == t.geo.blockSize
    ensures forall c: nat :: Taken(WriteBlock(t, b, data), c) <==> Taken(t, c)
  {
    hide Bitmap, InUse, IsBitmap;
    WriteBitmaps(t, b, data);
  }

  lemma WriteKeeps(t: Fs, b: nat, data: Block)
    requires FsOk(t) && DataBlock(t, b) && |data| == t.geo.blockSize
    ensures var r := WriteBlock(t, b, data);
      && FsOk(r) && r.freeBlocks == t.freeBlocks && r.groups == t.groups
      && (forall c: nat :: Taken(r, c) <==> Taken(t, c))
      && (forall c: nat :: DataBlock(r, c) <==> DataBlock(t, c))
      && (forall c: nat :: IsBitmap(r, c) <==> IsBitmap(t, c))
      && (forall c: nat :: IsTable(r, c) <==> IsTable(t, c))
      && (forall c: nat :: c < |t.disk| && c != b ==> r.disk[c] == t.disk[c]) && r.disk[b] == data
  {
    hide FsOk, Formatted, Taken, IsBitmap, IsTable, WriteBlock;
    WriteKeepsAny(t, b, data);
  }

  lemma SameSets(t: Fs, r: Fs, c: nat)
    requires t.groups == r.groups && t.geo == r.geo && t.geo.blockSize > 0
    ensures (IsBitmap(r, c) <==> IsBitmap(t, c)) && (IsTable(r, c) <==> IsTable(t, c))
  {
    if IsBitmap(t, c) { var g :| 0 <= g < |t.groups| && BitmapAt(t, g, c); assert BitmapAt(r, g, c); }
    if IsBitmap(r, c) { var g :| 0 <= g < |r.groups| && BitmapAt(r, g, c); assert BitmapAt(t, g, c); }
    if IsTable(t, c) { var g :| 0 <= g < |t.groups| && InTable(t, g, c); assert InTable(r, g, c); }
    if IsTable(r, c) { var g :| 0 <= g < |r.groups| && InTable(r, g, c); assert InTable(t, g, c); }
  }

  lemma WriteBitmaps(t: Fs, b: nat, data: Block)
    requires Formatted(t) && b < |t.disk| && !IsBitmap(t, b) && |data| == t.geo.blockSize
    ensures forall g: nat, kind :: Bitmap(WriteBlock(t, b, data), g, kind) == Bitmap(t, g, kind)
  {
    forall g: nat, kind ensures Bitmap(WriteBlock(t, b, data), g, kind) == Bitmap(t, g, kind) {
      if g < |t.groups| {
        assert BitmapAt(t, g, BitmapOf(t.groups[g], kind));
      }
    }
  }

  lemma WriteAccounts(t: Fs, b: nat, data: Block)
    requires FsOk(t) && b < |t.disk| && !IsBitmap(t, b) && |data| == t.geo.blockSize
    ensures var r := WriteBlock(t, b, data);
      Accounted(r, Blocks) && Accounted(r, Inodes) && PaddingUsed(r, Blocks)
  {
    WriteBitmaps(t, b, data);
    hide Formatted, Bitmap, IsBitmap, IsTable, Taken;
  }

  lemma EntryAllocated(fs: Fs, ino: Inode, t: Fs, n: nat, i: nat)
    requires FsOk(fs) && FsOk(t) && TookBlock(fs, t, n) && FileOk(fs, ino) && n < WORD && n != 0
    requires DIRECT <= i < MaxBlocks(fs.geo) && Indirect(ino) != 0 && Ptr(fs, ino, i) == 0
    ensures Formatted(t) && t.geo == fs.geo
    ensures var r := WithEntry(t, Indirect(ino), i - DIRECT, n);
      && FsOk(r) && r.freeBlocks == fs.freeBlocks - 1
      && PtrsUpdated(fs, ino, r, ino, i, n) && FileOk(r, ino)
  {
    hide FsOk, TookBlock, Formatted, Taken, IsBitmap, IsTable, FileOk, DataBlock, WithEntry, PtrsUpdated, ReadBlock,
         WriteBlock, SetWord, Ptr;
    FsParts(fs);
    FsParts(t);
    FileRaw(fs, ino);
    SizesAfter(fs, t, n);
    TookData(fs, t, n);
    TookFresh(fs, t, n);
    IndirectData(fs, ino);
    var b := Indirect(ino);
    var data := SetWord(ReadBlock(t, b), i - DIRECT, n);
    var r := WithEntry(t, b, i - DIRECT, n);
    EntryIs(t, b, i - DIRECT, n);
    WriteKeeps(t, b, data);
    ReadsWritten(t, b, data);
    EntryPtrs(fs, ino, t, n, i, r);
    FileGrows(fs, ino, r, ino, i, n);
  }

  lemma EntryIs(t: Fs, b: nat, x: nat, n: nat)
    requires Formatted(t) && x < Words(t.geo)
    ensures WithEntry(t, b, x, n) == WriteBlock(t, b, SetWord(ReadBlock(t, b), x, n))
  {
  }

  lemma DataInRange(t: Fs, b: nat)
    requires Formatted(t) && DataBlock(t, b)
    ensures b < |t.disk| && Taken(t, b) && !IsBitmap(t, b) && !IsTable(t, b)
  {
  }

  lemma ReadsWritten(t: Fs, b: nat, data: Block)
    requires Formatted(t) && DataBlock(t, b) && |data| == t.geo.blockSize
    ensures ReadBlock(WriteBlock(t, b, data), b) == data
  {
  }

  lemma IndirectData(fs: Fs, ino: Inode)
    requires Formatted(fs) && FileOk(fs, ino) && Indirect(ino) != 0
    ensures DataBlock(fs, Indirect(ino))
  {
  }

  lemma EntryPtrs(fs: Fs, ino: Inode, t: Fs, n: nat, i: nat, r: Fs)
    requires FsOk(fs) && FsOk(t) && TookBlock(fs, t, n) && FileOk(fs, ino) && n < WORD
    requires Formatted(t) && t.geo == fs.geo
    requires DIRECT <= i < MaxBlocks(fs.geo) && Indirect(ino) != 0
    requires Formatted(r) && r.geo == fs.geo
    requires ReadBlock(r, Indirect(ino)) == SetWord(ReadBlock(t, Indirect(ino)), i - DIRECT, n)
    ensures PtrsUpdated(fs, ino, r, ino, i, n)
  {
    hide FsOk, TookBlock, Formatted, Taken, IsBitmap, IsTable, FileOk, Ptr, ReadBlock, SetWord, Word;
    FsParts(fs);
    FileRaw(fs, ino);
    forall j: nat | j < MaxBlocks(fs.geo) ensures Ptr(r, ino, j) == if j == i then n else Ptr(fs, ino, j) {
      PtrAfterTake(fs, ino, t, n, j);
      PtrIndirect(t, ino, j);
      PtrIndirect(r, ino, j);
      if j >= DIRECT {
        SetWordReads(ReadBlock(t, Indirect(ino)), i - DIRECT, n, j - DIRECT);
      }
    }
  }

  // ----- the indirect block itself

  /** Every word of the block reads 0. */
  predicate Clear(b: Block)
    requires |b| % 4 == 0
  {
    forall x: nat :: x < |b| / 4 ==> Word(b, x) == 0
  }

  lemma BlockWords(fs: Fs, b: nat)
    requires Formatted(fs)
    ensures |ReadBlock(fs, b)| % 4 == 0 && |ReadBlock(fs, b)| / 4 == Words(fs.geo)
  {
  }

  /** A fresh indirect block is not cleared by the code: the file's pointers stay
      what they were exactly when the block reads all zero. */
  lemma IndirectAllocatedExactly(fs: Fs, ino: Inode, t: Fs, n: nat)
    requires FsOk(fs) && FsOk(t) && TookBlock(fs, t, n) && FileOk(fs, ino) && n != 0 && Indirect(ino) == 0
    ensures Formatted(t) && |ReadBlock(t, n)| % 4 == 0 && |ino.raw| == INODE_BYTES && t.geo == fs.geo
    ensures var ino' := SetField(ino, 22, n);
      && Indirect(ino') == n
      && (Clear(ReadBlock(t, n)) <==> forall j: nat :: j < MaxBlocks(fs.geo) ==> Ptr(t, ino', j) == Ptr(fs, ino, j))
      && (Clear(ReadBlock(t, n)) ==> FileOk(t, ino'))
  {
    hide FsOk, TookBlock, Formatted, Taken, IsBitmap, IsTable, FileOk, DataBlock, Ptr, ReadBlock, Word, SetField;
    FsParts(fs);
    FsParts(t);
    FileRaw(fs, ino);
    SizesAfter(fs, t, n);
    SetFieldReads(ino, 22, n);
    BlockWords(t, n);
    var ino' := SetField(ino, 22, n);
    var same := forall j: nat :: j < MaxBlocks(fs.geo) ==> Ptr(t, ino', j) == Ptr(fs, ino, j);
    forall j: nat
      ensures j < DIRECT ==> Ptr(t, ino', j) == Ptr(fs, ino, j)
      ensures DIRECT <= j < MaxBlocks(fs.geo) ==>
                Ptr(t, ino', j) == Word(ReadBlock(t, n), j - DIRECT) && Ptr(fs, ino, j) == 0
    {
      PtrIndirect(t, ino', j);
      PtrIndirect(fs, ino, j);
    }
    if same {
      forall x: nat | x < Words(t.geo) ensures Word(ReadBlock(t, n), x) == 0 {
        assert Ptr(t, ino', x + DIRECT) == Ptr(fs, ino, x + DIRECT);
      }
    }
    if Clear(ReadBlock(t, n)) {
      forall j: nat | j < MaxBlocks(fs.geo) ensures Ptr(t, ino', j) == Ptr(fs, ino, j) {
        if j >= DIRECT { assert Word(ReadBlock(t, n), j - DIRECT) == 0; }
      }
      TookData(fs, t, n);
      TookFresh(fs, t, n);
      IndirectGrows(fs, ino, t, ino', n);
    }
  }

  lemma IndirectGrows(fs: Fs, ino: Inode, t: Fs, ino': Inode, n: nat)
    requires Formatted(fs) && Formatted(t) && FileOk(fs, ino) && |ino'.raw| == INODE_BYTES && t.geo == fs.geo
    requires forall b: nat :: DataBlock(fs, b) ==> DataBlock(t, b)
    requires forall j: nat :: j < MaxBlocks(fs.geo) ==> Ptr(t, ino', j) == Ptr(fs, ino, j)
    requires DataBlock(t, n) && !Taken(fs, n) && n != 0 && Indirect(ino') == n
    ensures FileOk(t, ino')
  {
    hide Formatted, Taken, IsBitmap, IsTable, Ptr, Indirect;
  }

  // ----- get or allocate

  /** A missing indirect block would be given a block that reads all zero. */
  predicate IndirectReady(fs: Fs, ino: Inode, i: nat)
    requires Formatted(fs) && |ino.raw| == INODE_BYTES
  {
    DIRECT <= i < MaxBlocks(fs.geo) && Indirect(ino) == 0 ==>
      var (t, n) := Alloc(fs, Blocks, 0);
      BlockWords(t, n);
      n != 0 ==> Clear(ReadBlock(t, n))
  }

  /** Blocks that index `i` needs: its own, and the indirect block. */
  function NeedAt(fs: Fs, ino: Inode, i: nat): nat
    requires Formatted(fs) && |ino.raw| == INODE_BYTES
  {
    (if Ptr(fs, ino, i) == 0 then 1 else 0) + (if i >= DIRECT && Indirect(ino) == 0 then 1 else 0)
  }

  /** A used block that is neither a bitmap nor one of the file's. */
  ghost predicate Foreign(fs: Fs, ino: Inode, c: nat)
    requires Formatted(fs) && |ino.raw| == INODE_BYTES
  {
    && c < |fs.disk| && Taken(fs, c) && !IsBitmap(fs, c)
    && (c == 0 || (c != Indirect(ino) && forall j: nat :: j < MaxBlocks(fs.geo) ==> Ptr(fs, ino, j) != c))
  }

  /** From (fs, ino) to (t, ino') only the file's block map moved, at index `i`,
      to `b`: data blocks keep their contents, other blocks stay other. */
  ghost predicate MapStep(fs: Fs, ino: Inode, t: Fs, ino': Inode, i: nat, b: nat)
    requires Formatted(fs) && |ino.raw| == INODE_BYTES && Formatted(t) && |ino'.raw| == INODE_BYTES
  {
    && t.geo == fs.geo && |t.disk| == |fs.disk|
    && ino'.id == ino.id && Word(ino'.raw, 0) == Word(ino.raw, 0) && Size(ino') == Size(ino)
    && PtrsUpdated(fs, ino, t, ino', i, b)
    && (forall c: nat :: IsTable(t, c) <==> IsTable(fs, c))
    && (forall c: nat :: DataBlock(fs, c) ==> DataBlock(t, c))
    && (forall c: nat :: DataBlock(fs, c) && c != Indirect(ino) ==> t.disk[c] == fs.disk[c])
    && (forall c: nat :: Foreign(fs, ino, c) ==> Foreign(t, ino', c) && t.disk[c] == fs.disk[c])
  }

  ghost predicate GotBlock(fs: Fs, ino: Inode, t: Fs, ino': Inode, i: nat, b: nat)
    requires Formatted(fs) && |ino.raw| == INODE_BYTES && Formatted(t) && |ino'.raw| == INODE_BYTES
  {
    && FsOk(t) && FileOk(t, ino') && MapStep(fs, ino, t, ino', i, b)
    && b != 0 && DataBlock(t, b) && b != Indirect(ino')
    && t.freeBlocks == fs.freeBlocks - NeedAt(fs, ino, i)
    && (i >= DIRECT || Indirect(ino) != 0 ==> Indirect(ino') != 0)
    && (i < DIRECT || Indirect(ino) != 0 ==> Indirect(ino') == Indirect(ino))
  }

  lemma NothingStep(fs: Fs, ino: Inode, i: nat)
    requires FsOk(fs) && FileOk(fs, ino) && i < MaxBlocks(fs.geo) && Ptr(fs, ino, i) != 0
    requires i >= DIRECT ==> Indirect(ino) != 0
    ensures |ino.raw| == INODE_BYTES && GotBlock(fs, ino, fs, ino, i, Ptr(fs, ino, i))
  {
    hide FsOk, Formatted, Taken, IsBitmap, IsTable, Ptr;
    FsParts(fs);
  }

  /** After an allocation that changed no word of type or size. */
  lemma TookStep(fs: Fs, ino: Inode, t: Fs, ino': Inode, i: nat, n: nat, b: nat)
    requires FsOk(fs) && FsOk(t) && TookBlock(fs, t, n) && FileOk(fs, ino) && |ino'.raw| == INODE_BYTES
    requires Formatted(t) && |ino.raw| == INODE_BYTES
    requires ino'.id == ino.id && Word(ino'.raw, 0) == Word(ino.raw, 0) && Size(ino') == Size(ino)
    requires PtrsUpdated(fs, ino, t, ino', i, b) && (b == n || b == 0) && n != 0
    requires Indirect(ino') == Indirect(ino) || Indirect(ino') == n
    requires i < MaxBlocks(fs.geo)
    ensures MapStep(fs, ino, t, ino', i, b)
  {
    hide FsOk, Formatted, Taken, IsTable, FileOk, DataBlock, Ptr, Word, TookBlock;
    FsParts(fs);
    TookData(fs, t, n);
    TookFresh(fs, t, n);
    TookParts(fs, t, n);
    forall c: nat | Foreign(fs, ino, c) ensures Foreign(t, ino', c) && t.disk[c] == fs.disk[c] {
    }
  }

  lemma TookParts(fs: Fs, t: Fs, n: nat)
    requires Formatted(fs) && Formatted(t) && TookBlock(fs, t, n)
    ensures t.geo == fs.geo && |t.disk| == |fs.disk|
    ensures forall b: nat :: IsBitmap(t, b) <==> IsBitmap(fs, b)
    ensures forall b: nat :: IsTable(t, b) <==> IsTable(fs, b)
    ensures forall b: nat :: b < |fs.disk| && !IsBitmap(fs, b) ==> t.disk[b] == fs.disk[b]
    ensures forall b: nat :: Taken(fs, b) ==> Taken(t, b)
  {
  }

  lemma StepsCompose(fs: Fs, ino: Inode, f1: Fs, ino1: Inode, t: Fs, ino': Inode, i: nat, a: nat, b: nat)
    requires Formatted(fs) && |ino.raw| == INODE_BYTES && Formatted(f1) && |ino1.raw| == INODE_BYTES
    requires Formatted(t) && |ino'.raw| == INODE_BYTES
    requires MapStep(fs, ino, f1, ino1, i, a) && MapStep(f1, ino1, t, ino', i, b)
    requires forall c: nat :: DataBlock(fs, c) && c != Indirect(ino) ==> c != Indirect(ino1)
    ensures MapStep(fs, ino, t, ino', i, b)
  {
    hide Formatted, Taken, IsBitmap, IsTable, DataBlock, Foreign, Ptr, Word;
  }

  /** One entry of the indirect block was filled. */
  lemma EntryStep(fs: Fs, ino: Inode, t: Fs, n: nat, i: nat)
    requires FsOk(fs) && FsOk(t) && TookBlock(fs, t, n) && FileOk(fs, ino) && n != 0
    requires DIRECT <= i < MaxBlocks(fs.geo) && Indirect(ino) != 0 && Ptr(fs, ino, i) == 0
    ensures |ino.raw| == INODE_BYTES && Formatted(t) && t.geo == fs.geo
    ensures GotBlock(fs, ino, WithEntry(t, Indirect(ino), i - DIRECT, n), ino, i, n)
  {
    hide FsOk, Formatted, Taken, IsBitmap, IsTable, FileOk, DataBlock, Ptr, Word, TookBlock, WithEntry, PtrsUpdated,
         Indirect;
    FsParts(fs);
    FsParts(t);
    FileRaw(fs, ino);
    SizesAfter(fs, t, n);
    EntryAllocated(fs, ino, t, n, i);
    TookData(fs, t, n);
    TookFresh(fs, t, n);
    TookParts(fs, t, n);
    IndirectData(fs, ino);
    var r := WithEntry(t, Indirect(ino), i - DIRECT, n);
    EntryMapStep(fs, ino, t, n, i);
    IndirectTaken(fs, Indirect(ino), n);
    EntryData(t, Indirect(ino), i - DIRECT, n);
    hide MapStep;
  }

  lemma EntryData(t: Fs, b: nat, x: nat, n: nat)
    requires FsOk(t) && DataBlock(t, b) && x < Words(t.geo)
    ensures forall c: nat :: DataBlock(t, c) ==> DataBlock(WithEntry(t, b, x, n), c)
  {
    hide FsOk, Formatted, Taken, IsBitmap, IsTable, DataBlock;
    FsParts(t);
    EntryIs(t, b, x, n);
    WriteKeeps(t, b, SetWord(ReadBlock(t, b), x, n));
  }

  lemma EntryMapStep(fs: Fs, ino: Inode, t: Fs, n: nat, i: nat)
    requires FsOk(fs) && FsOk(t) && TookBlock(fs, t, n) && FileOk(fs, ino) && n != 0
    requires |ino.raw| == INODE_BYTES && Formatted(t) && t.geo == fs.geo
    requires DIRECT <= i < MaxBlocks(fs.geo) && Indirect(ino) != 0 && Ptr(fs, ino, i) == 0
    ensures MapStep(fs, ino, WithEntry(t, Indirect(ino), i - DIRECT, n), ino, i, n)
  {
    hide FsOk, Formatted, Taken, IsBitmap, IsTable, FileOk, DataBlock, Ptr, Word, TookBlock, WithEntry, PtrsUpdated,
         Indirect, Foreign;
    FsParts(fs);
    SizesAfter(fs, t, n);
    EntryAllocated(fs, ino, t, n, i);
    TookData(fs, t, n);
    TookFresh(fs, t, n);
    TookParts(fs, t, n);
    IndirectData(fs, ino);
    var b := Indirect(ino);
    var r := WithEntry(t, b, i - DIRECT, n);
    EntryIs(t, b, i - DIRECT, n);
    WriteKeeps(t, b, SetWord(ReadBlock(t, b), i - DIRECT, n));
    DataRange(fs);
    EntryForeign(fs, ino, t, r, i, n);
  }

  lemma DataRange(fs: Fs)
    requires Formatted(fs)
    ensures forall c: nat :: DataBlock(fs, c) ==> c < |fs.disk|
  {
  }

  lemma IndirectTaken(fs: Fs, b: nat, n: nat)
    requires Formatted(fs) && DataBlock(fs, b) && !Taken(fs, n)
    ensures b != n
  {
  }

  lemma EntryForeign(fs: Fs, ino: Inode, t: Fs, r: Fs, i: nat, n: nat)
    requires Formatted(fs) && Formatted(r) && |ino.raw| == INODE_BYTES && r.geo == fs.geo
    requires PtrsUpdated(fs, ino, r, ino, i, n) && !Taken(fs, n) && n != 0
    requires |t.disk| == |fs.disk| == |r.disk|
    requires forall c: nat :: IsBitmap(r, c) <==> IsBitmap(fs, c)
    requires forall c: nat :: Taken(fs, c) ==> Taken(r, c)
    requires forall c: nat :: c < |fs.disk| && !IsBitmap(fs, c) ==> t.disk[c] == fs.disk[c]
    requires forall c: nat :: c < |fs.disk| && c != Indirect(ino) ==> r.disk[c] == t.disk[c]
    requires Indirect(ino) != 0
    ensures forall c: nat :: Foreign(fs, ino, c) ==> Foreign(r, ino, c) && r.disk[c] == fs.disk[c]
  {
    hide Formatted, Taken, IsBitmap, Ptr, Word;
  }

  lemma DirectStep(fs: Fs, ino: Inode, i: nat)
    requires FsOk(fs) && FileOk(fs, ino) && i < DIRECT && Ptr(fs, ino, i) == 0 && fs.freeBlocks > 0
    ensures |ino.raw| == INODE_BYTES
    ensures var (t, ino', b) := GetOrAlloc(fs, ino, i); GotBlock(fs, ino, t, ino', i, b)
  {
    hide FsOk, Formatted, Taken, IsBitmap, IsTable, FileOk, DataBlock, TookBlock, PtrsUpdated, SetField, MapStep,
         Alloc, Word;
    FsParts(fs);
    FileRaw(fs, ino);
    AllocOk(fs);
    var (t, n) := Alloc(fs, Blocks, 0);
    FsParts(t);
    SizesAfter(fs, t, n);
    TookFresh(fs, t, n);
    TookData(fs, t, n);
    DirectAllocated(fs, ino, t, n, i);
    var ino' := SetField(ino, 10 + i, n);
    SetFieldReads(ino, 10 + i, n);
    TookStep(fs, ino, t, ino', i, n, n);
    IndirectNotTaken(fs, ino, n);
  }

  lemma IndirectNotTaken(fs: Fs, ino: Inode, n: nat)
    requires FsOk(fs) && FileOk(fs, ino) && !Taken(fs, n) && n != 0
    ensures Indirect(ino) != n
  {
    hide FsOk, Formatted, Taken, IsBitmap, IsTable, Indirect, Ptr;
  }

  /** The indirect block exists. */
  lemma ThroughIndirect(fs: Fs, ino: Inode, i: nat)
    requires FsOk(fs) && FileOk(fs, ino) && DIRECT <= i < MaxBlocks(fs.geo) && |ino.raw| == INODE_BYTES
    requires Indirect(ino) != 0 && fs.freeBlocks >= NeedAt(fs, ino, i)
    ensures var (t, ino', b) := GetOrAlloc(fs, ino, i); GotBlock(fs, ino, t, ino', i, b)
  {
    hide FsOk, Taken, IsBitmap, IsTable, FileOk, DataBlock, TookBlock, PtrsUpdated, MapStep, Alloc, Word, Indirect,
         GotBlock;
    FsParts(fs);
    PtrIndirect(fs, ino, i);
    if Ptr(fs, ino, i) != 0 {
      NothingStep(fs, ino, i);
    } else {
      AllocOk(fs);
      var (t, n) := Alloc(fs, Blocks, 0);
      FsParts(t);
      SizesAfter(fs, t, n);
      EntryStep(fs, ino, t, n, i);
      PtrAfterTake(fs, ino, t, n, i);
      EntryIs(t, Indirect(ino), i - DIRECT, n);
    }
  }

  lemma AddedIndirect(fs: Fs, ino: Inode, i: nat)
    requires FsOk(fs) && FileOk(fs, ino) && DIRECT <= i < MaxBlocks(fs.geo) && |ino.raw| == INODE_BYTES
    requires Indirect(ino) == 0 && fs.freeBlocks > 0 && IndirectReady(fs, ino, i)
    ensures var (f1, ino1) := GetIndirect(fs, ino);
      && FsOk(f1) && FileOk(f1, ino1) && MapStep(fs, ino, f1, ino1, i, 0)
      && f1.freeBlocks == fs.freeBlocks - 1 && Indirect(ino1) != 0
      && Ptr(fs, ino, i) == 0 && Ptr(f1, ino1, i) == 0
      && forall c: nat :: DataBlock(fs, c) ==> c != Indirect(ino1)
  {
    hide FsOk, Formatted, Taken, IsBitmap, IsTable, FileOk, DataBlock, TookBlock, SetField, MapStep, Alloc, Word,
         Ptr, ReadBlock, Clear;
    FsParts(fs);
    AllocOk(fs);
    var (t, n) := Alloc(fs, Blocks, 0);
    FsParts(t);
    SizesAfter(fs, t, n);
    TookFresh(fs, t, n);
    IndirectAllocatedExactly(fs, ino, t, n);
    var ino' := SetField(ino, 22, n);
    SetFieldReads(ino, 22, n);
    PtrIndirect(fs, ino, i);
    assert Ptr(t, ino', i) == Ptr(fs, ino, i);
    TookStep(fs, ino, t, ino', i, n, 0);
    forall c: nat | DataBlock(fs, c) ensures c != n {
      IndirectTaken(fs, c, n);
    }
  }

  /** With enough free blocks, and a clear block for a missing indirect block, the
      call yields a data block for index `i`, the file's own one if it has one,
      and changes no other pointer and no other block. */
  lemma GetOrAllocOk(fs: Fs, ino: Inode, i: nat)
    requires FsOk(fs) && FileOk(fs, ino) && i < MaxBlocks(fs.geo) && |ino.raw| == INODE_BYTES
    requires IndirectReady(fs, ino, i) && fs.freeBlocks >= NeedAt(fs, ino, i)
    ensures var (t, ino', b) := GetOrAlloc(fs, ino, i); GotBlock(fs, ino, t, ino', i, b)
  {
    hide FsOk, Formatted, Taken, IsBitmap, IsTable, FileOk, DataBlock, MapStep, Alloc, Word, ReadBlock, Clear, Ptr,
         IndirectReady, Indirect, GetIndirect, GotBlock;
    FsParts(fs);
    if i < DIRECT {
      PtrIndirect(fs, ino, i);
      if Ptr(fs, ino, i) != 0 { NothingStep(fs, ino, i); } else { DirectStep(fs, ino, i); }
    } else if Indirect(ino) != 0 {
      ThroughIndirect(fs, ino, i);
    } else {
      AddedIndirect(fs, ino, i);
      var (f1, ino1) := GetIndirect(fs, ino);
      ThroughIndirect(f1, ino1, i);
      GetThrough(fs, ino, i);
      var (t, ino', b) := GetOrAlloc(fs, ino, i);
      GotCompose(fs, ino, f1, ino1, t, ino', i, b);
    }
  }

  lemma GetThrough(fs: Fs, ino: Inode, i: nat)
    requires Formatted(fs) && |ino.raw| == INODE_BYTES && DIRECT <= i < MaxBlocks(fs.geo)
    requires Indirect(GetIndirect(fs, ino).1) != 0
    ensures var (f1, ino1) := GetIndirect(fs, ino); GetOrAlloc(fs, ino, i) == GetOrAlloc(f1, ino1, i)
  {
    hide Formatted, Alloc, Word, ReadBlock, SetField;
  }

  lemma GotCompose(fs: Fs, ino: Inode, f1: Fs, ino1: Inode, t: Fs, ino': Inode, i: nat, b: nat)
    requires Formatted(fs) && |ino.raw| == INODE_BYTES && Formatted(f1) && |ino1.raw| == INODE_BYTES
    requires Formatted(t) && |ino'.raw| == INODE_BYTES && i >= DIRECT
    requires MapStep(fs, ino, f1, ino1, i, 0) && GotBlock(f1, ino1, t, ino', i, b)
    requires f1.freeBlocks == fs.freeBlocks - 1 && Indirect(ino1) != 0 && Indirect(ino) == 0
    requires Ptr(fs, ino, i) == 0 && Ptr(f1, ino1, i) == 0
    requires forall c: nat :: DataBlock(fs, c) ==> c != Indirect(ino1)
    ensures GotBlock(fs, ino, t, ino', i, b)
  {
    hide FsOk, Formatted, Taken, IsBitmap, IsTable, FileOk, DataBlock, MapStep, Word, Ptr, Indirect;
    StepsCompose(fs, ino, f1, ino1, t, ino', i, 0, b);
  }
}
