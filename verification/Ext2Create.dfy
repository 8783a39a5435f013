/** Creating a file: an inode, its contents, and its entry in the directory. */
module Ext2Create {
  import opened Bits
  import opened ByteBlocks
  import opened Frames
  import opened Options
  import opened Ext2Alloc
  import opened Ext2Files
  import opened Ext2FileIO
  import opened Ext2RoundTrip
  import opened Ext2Dirs

  /** The inode of a new file: a regular file with one link and no contents. */
  function NewInode(id: nat): (r: Inode)
    ensures |r.raw| == INODE_BYTES && r.id == id
  {
    Inode(SetWord(SetWord(seq(INODE_BYTES, _ => 0), 0, 0x81A4), 6, 0x1_0000), id)
  }

  /** The end of the call, in the directory whose inode number is given. None is a
      directory that is no chain of records or has no room for the entry, where the
      code writes on regardless. */
  ghost function EntryFor(t: Fs, dirId: nat, id: nat, name: Block): Option<Fs>
    requires Formatted(t) && SlotsOk(t) && HasSlot(t, dirId)
  {
    var dir := InodeAt(t, dirId);
    if !DirOk(t, dir)
       || (NumBlocks(t, dir) > 0 && !Room(DirBlock(t, dir, NumBlocks(t, dir) - 1), t.geo.blockSize, name))
    then None
    else Some(AddEntry(t, dir, id, name))
  }

  /** `fs_ext2_create_file` with the parent directory given by its inode number: the
      state after and the number of the new inode. None is also no free inode. */
  ghost function CreateFile(fs: Fs, dirId: nat, name: Block, buf: Block): Option<(Fs, nat)>
    requires Formatted(fs) && SlotsOk(fs) && HasSlot(fs, dirId)
  {
    AllocTables(fs, Inodes, 0);
    var (f, id) := Alloc(fs, Inodes, 0);
    SlotsStay(fs, f);
    SlotStays(fs, f, dirId);
    if id == 0 || !HasSlot(f, id) then None
    else
      var t := WriteFile(f, NewInode(id), buf).0;
      WriteFileTables(f, NewInode(id), buf);
      SlotStays(f, t, dirId);
      match EntryFor(t, dirId, id, name)
      case None => None
      case Some(u) => Some((u, id))
  }

  lemma WriteFileTables(fs: Fs, ino: Inode, buf: Block)
    requires Formatted(fs) && HasSlot(fs, ino.id) && SlotsOk(fs) && |ino.raw| == INODE_BYTES
    ensures var t := WriteFile(fs, ino, buf).0; SameTables(fs, t) && SlotsOk(t)
  {
    hide Formatted, SlotsOk, SlotOffset, SlotBlock, WriteFrom, Word;
    if IsFile(ino) {
      var ino0 := Resized(ino, |buf|);
      WriteFromTables(fs, ino0, buf, 0, 0);
      var (f, ino', n) := WriteFrom(fs, ino0, buf, 0, 0);
      SlotStays(fs, f, ino.id);
      SlotFits(f, ino.id);
      WriteTables(fs, f, ino');
      SlotsStay(fs, WriteInode(f, ino'));
    } else {
      SlotsStay(fs, fs);
    }
  }

  lemma WriteTables(fs: Fs, f: Fs, ino: Inode)
    requires Formatted(f) && SameTables(fs, f) && HasSlot(f, ino.id) && |ino.raw| == INODE_BYTES
    requires SlotOffset(f, ino.id) + INODE_BYTES <= f.geo.blockSize
    ensures SameTables(fs, WriteInode(f, ino))
  {
    hide Formatted, SlotOffset, SlotBlock;
  }

  // ----- the new inode

  lemma NewInodeWords(id: nat)
    ensures forall j: nat :: j < 32 ==>
              Word(NewInode(id).raw, j) == if j == 0 then 0x81A4 else if j == 6 then 0x1_0000 else 0
  {
    hide SetWord, Word;
    var zero: Block := seq(INODE_BYTES, _ => 0);
    forall j: nat | j < 32
      ensures Word(NewInode(id).raw, j) == if j == 0 then 0x81A4 else if j == 6 then 0x1_0000 else 0
    {
      SetWordReads(zero, 0, 0x81A4, j);
      SetWordReads(SetWord(zero, 0, 0x81A4), 6, 0x1_0000, j);
      ZeroWord(zero, j);
    }
  }

  lemma ZeroWord(b: Block, j: nat)
    requires |b| == INODE_BYTES && j < 32 && forall x :: 0 <= x < |b| ==> b[x] == 0
    ensures Word(b, j) == 0
  {
  }

  lemma NewInodeEmpty(fs: Fs, id: nat)
    requires Formatted(fs)
    ensures IsFile(NewInode(id)) && Indirect(NewInode(id)) == 0 && FileOk(fs, NewInode(id))
    ensures forall j: nat :: Ptr(fs, NewInode(id), j) == 0
  {
    hide Formatted, Word, NewInode, DataBlock;
    NewInodeWords(id);
    var ino := NewInode(id);
    forall j: nat ensures Ptr(fs, ino, j) == 0 {
      PtrPast(fs, ino, j);
      PtrIndirect(fs, ino, j);
    }
  }

  // ----- allocating the inode

  /** From `fs` to `f` an inode number was taken: nothing of any file, directory or
      inode moved. */
  ghost predicate OnlyMarked(fs: Fs, f: Fs)
    requires Formatted(fs) && Formatted(f)
  {
    && SameTables(fs, f) && |f.disk| == |fs.disk| && f.freeBlocks == fs.freeBlocks
    && (forall b: nat :: IsBitmap(f, b) <==> IsBitmap(fs, b))
    && (forall b: nat :: IsTable(f, b) <==> IsTable(fs, b))
    && (forall b: nat :: Taken(f, b) <==> Taken(fs, b))
    && (forall b: nat :: b < |fs.disk| && !IsBitmap(fs, b) ==> f.disk[b] == fs.disk[b])
  }

  lemma AllocInodeOk(fs: Fs)
    requires FsOk(fs) && Formatted(fs) && SlotsOk(fs) && PaddingUsed(fs, Inodes)
    ensures var (f, id) := Alloc(fs, Inodes, 0);
      && FsOk(f) && SlotsOk(f) && OnlyMarked(fs, f)
      && (id == 0 <==> fs.freeInodes == 0)
      && (id != 0 ==> HasSlot(f, id) && !NumberInUse(fs, Inodes, id) && NumberInUse(f, Inodes, id))
      && forall m: nat :: m != id ==> (NumberInUse(f, Inodes, m) <==> NumberInUse(fs, Inodes, m))
  {
    hide FsOk, Formatted, SlotsOk, Accounted, PaddingUsed, NumberInUse, OnlyMarked, SameTables, Alloc, HasSlot;
    FsParts(fs);
    AllocAccounts(fs, Inodes, 0);
    AllocTables(fs, Inodes, 0);
    var (f, id) := Alloc(fs, Inodes, 0);
    SlotsStay(fs, f);
    AllocMarks(fs);
    MarkedOk(fs, f);
  }

  lemma AllocMarks(fs: Fs)
    requires FsOk(fs) && Formatted(fs) && PaddingUsed(fs, Inodes) && SameTables(fs, Alloc(fs, Inodes, 0).0)
    ensures var (f, id) := Alloc(fs, Inodes, 0);
      OnlyMarked(fs, f) && PaddingUsed(f, Blocks) && (id != 0 ==> HasSlot(f, id))
  {
    hide FsOk, Formatted, Accounted, PaddingUsed, IsBitmap, IsTable, TakeBit, Usable, FirstZero, InUse, SameTables;
    FsParts(fs);
    var (f, id) := Alloc(fs, Inodes, 0);
    var g := Pick(fs, Inodes, 0, 0);
    if g < |fs.groups| {
      InodeUsable(fs, g);
      var x := FirstZero(Bitmap(fs, g, Inodes), Limit(fs.geo, Inodes), 0);
      LimitFits(fs, Inodes);
      TakeBitElsewhere(fs, Inodes, g, x);
      TakeBitFields(fs, Inodes, g, x, Blocks);
      BlockMarksSame(fs, g, x);
      FreshSlot(fs, f, g, x);
    }
  }

  lemma InodeUsable(fs: Fs, g: nat)
    requires FsOk(fs) && Usable(fs, Inodes, g) && PaddingUsed(fs, Inodes)
    ensures Formatted(fs) && g < |fs.groups| && FreeIn(fs.groups[g], Inodes) > 0
    ensures var x := FirstZero(Bitmap(fs, g, Inodes), Limit(fs.geo, Inodes), 0);
      x < Limit(fs.geo, Inodes) && x < fs.geo.inodesPerGroup
  {
    hide Accounted, IsBitmap, IsTable, Formatted, NumberInUse;
  }

  lemma BlockMarksSame(fs: Fs, g: nat, x: nat)
    requires Formatted(fs) && PaddingUsed(fs, Blocks) && g < |fs.groups| && FreeIn(fs.groups[g], Inodes) > 0
    requires x < 8 * fs.geo.blockSize
    ensures x < 8 * |Bitmap(fs, g, Inodes)|
    ensures var t := TakeBit(fs, Inodes, g, x);
      Formatted(t) && PaddingUsed(t, Blocks) && t.geo == fs.geo && forall b: nat :: Taken(t, b) <==> Taken(fs, b)
  {
    TakeBitFormatted(fs, Inodes, g, x);
    var t := TakeBit(fs, Inodes, g, x);
    forall h: nat ensures Bitmap(t, h, Blocks) == Bitmap(fs, h, Blocks) {
      if h < |fs.groups| { BitmapAfter(fs, Inodes, g, x, h, Blocks); }
    }
    hide Formatted, Bitmap, InUse;
    forall b: nat ensures Taken(t, b) <==> Taken(fs, b) {
      assert b >= FirstNumber(Blocks);
    }
  }

  lemma FreshSlot(fs: Fs, f: Fs, g: nat, x: nat)
    requires Formatted(fs) && g < |fs.groups| == |f.groups| && x < fs.geo.inodesPerGroup && f.geo == fs.geo
    ensures Sized(f.geo) && HasSlot(f, NumberOf(fs, Inodes, g, x))
  {
    hide NumberOf;
    Decode(fs, Inodes, g, x);
  }

  lemma MarkedOk(fs: Fs, f: Fs)
    requires FsOk(fs) && Formatted(fs) && Formatted(f) && OnlyMarked(fs, f)
    requires Accounted(f, Blocks) && Accounted(f, Inodes) && PaddingUsed(f, Blocks)
    ensures FsOk(f)
  {
    hide Formatted, Accounted, PaddingUsed, IsBitmap, IsTable, NumberInUse, SameTables;
  }

  // ----- what the marking leaves

  lemma MarkedBlock(fs: Fs, f: Fs, b: nat)
    requires Formatted(fs) && Formatted(f) && OnlyMarked(fs, f)
    ensures !IsBitmap(fs, b) ==> ReadBlock(f, b) == ReadBlock(fs, b)
    ensures DataBlock(f, b) <==> DataBlock(fs, b)
  {
    hide Formatted, IsBitmap, IsTable, Taken;
  }

  /** A file is as it was. */
  lemma MarkedFile(fs: Fs, f: Fs, ino: Inode)
    requires FsOk(fs) && Formatted(fs) && Formatted(f) && OnlyMarked(fs, f) && FileOk(fs, ino)
             && |ino.raw| == INODE_BYTES
    ensures FileOk(f, ino)
    ensures forall j: nat :: Ptr(f, ino, j) == Ptr(fs, ino, j)
                             && (Ptr(fs, ino, j) != 0 ==>
                                   ReadBlock(f, Ptr(fs, ino, j)) == ReadBlock(fs, Ptr(fs, ino, j)))
  {
    hide FsOk, Formatted, OnlyMarked, Ptr, ReadBlock, Word, Indirect, IsBitmap, IsTable, Taken;
    MarkedGeo(fs, f);
    forall b: nat
      ensures (DataBlock(fs, b) ==> ReadBlock(f, b) == ReadBlock(fs, b)) && (DataBlock(f, b) <==> DataBlock(fs, b))
    {
      MarkedBlock(fs, f, b);
    }
    forall j: nat
      ensures Ptr(f, ino, j) == Ptr(fs, ino, j)
      ensures Ptr(fs, ino, j) != 0 ==> ReadBlock(f, Ptr(fs, ino, j)) == ReadBlock(fs, Ptr(fs, ino, j))
    {
      PtrIndirect(fs, ino, j);
      PtrIndirect(f, ino, j);
      PtrPast(fs, ino, j);
      PtrPast(f, ino, j);
    }
  }

  lemma MarkedGeo(fs: Fs, f: Fs)
    requires Formatted(fs) && Formatted(f) && OnlyMarked(fs, f)
    ensures f.geo == fs.geo && |f.disk| == |fs.disk| && f.freeBlocks == fs.freeBlocks && SameTables(fs, f)
  {
  }

  lemma MarkedCounts(fs: Fs, f: Fs)
    requires Formatted(fs) && Formatted(f) && OnlyMarked(fs, f)
    ensures |f.groups| == |fs.groups| && f.geo == fs.geo
  {
  }

  lemma MarkedClear(fs: Fs, f: Fs)
    requires FsOk(fs) && Formatted(fs) && Formatted(f) && OnlyMarked(fs, f) && FreeClear(fs)
    ensures FreeClear(f)
  {
    hide FsOk, Formatted, IsBitmap, IsTable, Taken, Clear, ReadBlock;
    BitmapsTaken(fs);
    MarkedGeo(fs, f);
    forall b: nat | !Taken(f, b) ensures ClearAt(f, b) {
      assert ClearAt(fs, b);
      MarkedBlock(fs, f, b);
    }
  }

  lemma MarkedSlot(fs: Fs, f: Fs, id: nat)
    requires FsOk(fs) && Formatted(fs) && SlotsOk(fs) && Formatted(f) && SlotsOk(f) && OnlyMarked(fs, f)
             && HasSlot(fs, id)
    ensures HasSlot(f, id) && InodeAt(f, id) == InodeAt(fs, id)
  {
    hide FsOk, Formatted, SlotsOk, OnlyMarked, SlotBlock, SlotOffset, IsTable, ReadBlock;
    MarkedGeo(fs, f);
    FormattedSizes(fs);
    SlotStays(fs, f, id);
    SlotInTable(fs, id);
    TableInRange(fs, SlotBlock(fs, id));
    MarkedBlock(fs, f, SlotBlock(fs, id));
  }

  // ----- the directory and the new file

  /** Nothing of a directory with the same map and the same blocks has moved. */
  ghost predicate SameMap(fs: Fs, t: Fs, ino: Inode)
    requires Formatted(fs) && Formatted(t) && |ino.raw| == INODE_BYTES
  {
    forall j: nat :: Ptr(t, ino, j) == Ptr(fs, ino, j)
                     && (Ptr(fs, ino, j) != 0 ==> ReadBlock(t, Ptr(fs, ino, j)) == ReadBlock(fs, Ptr(fs, ino, j)))
  }

  lemma SameDir(fs: Fs, t: Fs, dir: Inode)
    requires Formatted(fs) && Formatted(t) && t.geo == fs.geo && |dir.raw| == INODE_BYTES
    requires DirOk(fs, dir) && SameMap(fs, t, dir)
    ensures DirOk(t, dir) && NumBlocks(t, dir) == NumBlocks(fs, dir) && ListDir(t, dir) == ListDir(fs, dir)
    ensures forall i: nat :: i < NumBlocks(fs, dir) ==> DirBlock(t, dir, i) == DirBlock(fs, dir, i)
  {
    hide Formatted, Ptr, ReadBlock, Tiles, NumBlocks, DirOk, ListFrom, DirBlock;
    SameCount(fs, t, dir);
    forall i: nat | i < NumBlocks(fs, dir)
      ensures DirBlock(t, dir, i) == DirBlock(fs, dir, i) && Ptr(t, dir, i) != 0
      ensures Chained(DirBlock(t, dir, i), t.geo.blockSize)
    {
      DirParts(fs, dir, i);
      DirBlockIs(fs, dir, i);
      DirBlockIs(t, dir, i);
    }
    DirParts(fs, dir, 0);
    DirFrom(t, dir);
    BlocksBefore(fs, t, dir, NumBlocks(fs, dir));
  }

  lemma DirBlockIs(fs: Fs, dir: Inode, i: nat)
    requires Formatted(fs) && |dir.raw| == INODE_BYTES
    ensures DirBlock(fs, dir, i) == ReadBlock(fs, Ptr(fs, dir, i))
  {
  }

  /** A file without blocks is apart from every other one. */
  lemma EmptyApart(fs: Fs, ino: Inode, other: Inode)
    requires FsOk(fs) && Formatted(fs) && |ino.raw| == INODE_BYTES == |other.raw| && FileOk(fs, other)
    requires Indirect(ino) == 0 && forall j: nat :: Ptr(fs, ino, j) == 0
    ensures Apart(fs, ino, other)
  {
    hide FsOk, Formatted, Ptr, Indirect, Taken, IsBitmap, IsTable;
    forall j: nat | Ptr(fs, other, j) != 0 ensures Foreign(fs, ino, Ptr(fs, other, j)) {
      PtrPast(fs, other, j);
    }
  }

  /** What the write leaves of a file apart from it. */
  lemma ApartKept(fs: Fs, ino: Inode, buf: Block, t: Fs, ino': Inode, other: Inode)
    requires FsOk(fs) && Formatted(fs) && SlotsOk(fs) && HasSlot(fs, ino.id) && |ino.raw| == INODE_BYTES == |other.raw|
    requires Formatted(t) && |ino'.raw| == INODE_BYTES && FileStored(fs, ino, buf, t, ino')
    requires FileOk(fs, other) && Apart(fs, ino, other)
    ensures t.geo == fs.geo && SameMap(fs, t, other) && FileOk(t, other) && Apart(t, ino', other)
  {
    hide FsOk, Formatted, SlotsOk, FileStored, Ptr, Indirect, Taken, IsBitmap, IsTable, Foreign, SlotBlock,
         ReadBlock, Word, Size, IsFile, InodeAt, SlotReads;
    FormattedSizes(fs);
    OtherFileKept(fs, ino, buf, t, ino', other, 0);
    StoredParts(fs, ino, buf, t, ino');
    StoredForeign(fs, ino, buf, t, ino');
    SlotForeign(fs, other, ino.id);
    forall j: nat | Ptr(fs, other, j) != 0
      ensures Foreign(t, ino', Ptr(fs, other, j)) && DataBlock(t, Ptr(fs, other, j))
    {
      OwnBlocks(fs, ino, other, SlotBlock(fs, ino.id), j);
      PtrPast(fs, other, j);
      ForeignData(t, ino', Ptr(fs, other, j));
      DataInRange(fs, Ptr(fs, other, j));
    }
    if Indirect(other) != 0 {
      OwnBlocks(fs, ino, other, SlotBlock(fs, ino.id), 0);
      ForeignData(t, ino', Indirect(other));
      DataInRange(fs, Indirect(other));
    }
  }

  lemma StoredForeign(fs: Fs, ino: Inode, buf: Block, t: Fs, ino': Inode)
    requires Formatted(fs) && SlotsOk(fs) && HasSlot(fs, ino.id) && |ino.raw| == INODE_BYTES
    requires Formatted(t) && |ino'.raw| == INODE_BYTES && FileStored(fs, ino, buf, t, ino')
    ensures FsOk(t) && FileOk(t, ino') && SlotsOk(t) && SameTables(fs, t)
    ensures ReadFile(t, ino', |buf|) == Some(buf) && ino'.id == ino.id && IsFile(ino')
    ensures forall c: nat :: Foreign(fs, ino, c) && c != SlotBlock(fs, ino.id) ==> Foreign(t, ino', c)
    ensures forall c: nat :: IsTable(t, c) <==> IsTable(fs, c)
    ensures forall id: nat :: HasSlot(fs, id) ==> SlotReads(fs, t, id, if id == ino.id then ino' else InodeAt(fs, id))
  {
    hide FsOk, Formatted, FileOk, SlotsOk, IsFile, Size, Foreign, SlotReads, InodeAt, ReadFile, HasSlot, SlotBlock;
    TablesSame(fs, t);
  }

  lemma TablesSame(fs: Fs, t: Fs)
    requires Formatted(fs) && SameTables(fs, t)
    ensures forall c: nat :: IsTable(t, c) <==> IsTable(fs, c)
  {
    hide Formatted;
    FormattedSizes(fs);
    forall c: nat ensures IsTable(t, c) <==> IsTable(fs, c) {
      if IsTable(t, c) { var g :| 0 <= g < |t.groups| && InTable(t, g, c); assert InTable(fs, g, c); }
      if IsTable(fs, c) { var g :| 0 <= g < |fs.groups| && InTable(fs, g, c); assert InTable(t, g, c); }
    }
  }

  lemma ForeignData(t: Fs, ino: Inode, c: nat)
    requires Formatted(t) && |ino.raw| == INODE_BYTES
    ensures Foreign(t, ino, c) && !IsTable(t, c) ==> DataBlock(t, c)
  {
    hide Formatted, Taken, IsBitmap, IsTable, Ptr, Indirect;
  }

  /** Blocks of a file are foreign to one it is apart from. */
  lemma ApartTurns(t: Fs, ino: Inode, other: Inode)
    requires FsOk(t) && Formatted(t) && |ino.raw| == INODE_BYTES == |other.raw| && FileOk(t, ino)
             && Apart(t, ino, other)
    ensures Apart(t, other, ino)
  {
    hide FsOk, Formatted, Ptr, Indirect, IsBitmap, IsTable, Taken;
    forall i: nat | Ptr(t, ino, i) != 0 ensures Foreign(t, other, Ptr(t, ino, i)) {
      PtrPast(t, ino, i);
      NotOthers(t, ino, other, Ptr(t, ino, i));
    }
    if Indirect(ino) != 0 { NotOthers(t, ino, other, Indirect(ino)); }
  }

  lemma NotOthers(t: Fs, ino: Inode, other: Inode, c: nat)
    requires Formatted(t) && |ino.raw| == INODE_BYTES == |other.raw| && Apart(t, ino, other) && c != 0
             && DataBlock(t, c)
    requires c == Indirect(ino) || exists i: nat :: i < MaxBlocks(t.geo) && Ptr(t, ino, i) == c
    ensures Foreign(t, other, c)
  {
    hide Formatted, Taken, IsBitmap, IsTable, Ptr, Indirect;
    forall j: nat | j < MaxBlocks(t.geo) ensures Ptr(t, other, j) != c {
      assert Ptr(t, other, j) != 0 ==> Foreign(t, ino, Ptr(t, other, j));
    }
  }

  // ----- inode marks through the write

  /** The marks of inode numbers are the same. */
  ghost predicate SameMarks(fs: Fs, t: Fs) {
    t.geo == fs.geo && |t.groups| == |fs.groups| && forall g: nat :: Bitmap(t, g, Inodes) == Bitmap(fs, g, Inodes)
  }

  lemma MarksSay(fs: Fs, t: Fs, id: nat)
    requires Formatted(fs) && SameMarks(fs, t)
    ensures PerGroup(fs.geo, Inodes) > 0 && PerGroup(t.geo, Inodes) > 0
    ensures NumberInUse(t, Inodes, id) <==> NumberInUse(fs, Inodes, id)
  {
    hide Bitmap;
    PerGroupPositive(fs, Inodes);
  }

  lemma AllocKeepsMarks(fs: Fs)
    requires Formatted(fs)
    ensures SameMarks(fs, Alloc(fs, Blocks, 0).0)
  {
    hide Usable, FirstZero;
    var g := Pick(fs, Blocks, 0, 0);
    if g < |fs.groups| {
      UsableParts(fs, g);
      LimitFits(fs, Blocks);
      var f := FirstZero(Bitmap(fs, g, Blocks), Limit(fs.geo, Blocks), 0);
      BitmapSize(fs, Blocks, g);
      var t := TakeBit(fs, Blocks, g, f);
      forall h: nat ensures Bitmap(t, h, Inodes) == Bitmap(fs, h, Inodes) {
        if h < |fs.groups| { BitmapAfter(fs, Blocks, g, f, h, Inodes); }
      }
    }
  }

  lemma WriteKeepsMarks(fs: Fs, b: nat, data: Block)
    requires Formatted(fs) && |data| == fs.geo.blockSize && (b < |fs.disk| ==> !IsBitmap(fs, b))
    ensures SameMarks(fs, WriteBlock(fs, b, data))
  {
    hide Formatted, Bitmap, IsBitmap;
    if b < |fs.disk| { WriteBitmaps(fs, b, data); }
  }

  lemma MarksTrans(fs: Fs, f: Fs, t: Fs)
    requires SameMarks(fs, f) && SameMarks(f, t)
    ensures SameMarks(fs, t)
  {
    hide Bitmap;
  }

  lemma EntryMarks(fs: Fs, ino: Inode, i: nat)
    requires FsOk(fs) && Formatted(fs) && FileOk(fs, ino) && |ino.raw| == INODE_BYTES
    requires DIRECT <= i < MaxBlocks(fs.geo) && Indirect(ino) != 0
    ensures SameMarks(fs, GetOrAlloc(fs, ino, i).0)
  {
    hide FsOk, Formatted, FileOk, Alloc, Word, SetWord, ReadBlock, Indirect, SameMarks, WriteBlock, IsBitmap,
         TookBlock, Taken, IsTable;
    AllocKeepsMarks(fs);
    SameMarksSelf(fs);
    AllocOk(fs);
    var (f, n) := Alloc(fs, Blocks, 0);
    TookParts(fs, f, n);
    IndirectData(fs, ino);
    DataInRange(fs, Indirect(ino));
    PtrAfterTake(fs, ino, f, n, i);
    BlockWords(fs, Indirect(ino));
    var data := SetWord(ReadBlock(f, Indirect(ino)), i - DIRECT, n);
    WriteKeepsMarks(f, Indirect(ino), data);
    MarksTrans(fs, f, WriteBlock(f, Indirect(ino), data));
  }

  lemma SameMarksSelf(fs: Fs)
    ensures SameMarks(fs, fs)
  {
  }

  lemma GetMarks(fs: Fs, ino: Inode, i: nat)
    requires FsOk(fs) && Formatted(fs) && FileOk(fs, ino) && i < MaxBlocks(fs.geo) && |ino.raw| == INODE_BYTES
    requires IndirectReady(fs, ino, i) && fs.freeBlocks >= NeedAt(fs, ino, i)
    ensures SameMarks(fs, GetOrAlloc(fs, ino, i).0)
  {
    hide FsOk, Formatted, FileOk, Alloc, Word, SetField, ReadBlock, SameMarks, WriteBlock, Ptr, IndirectReady,
         Indirect, MapStep, DataBlock;
    AllocKeepsMarks(fs);
    SameMarksSelf(fs);
    if i >= DIRECT {
      if Indirect(ino) != 0 {
        EntryMarks(fs, ino, i);
      } else {
        PtrIndirect(fs, ino, i);
        AddedIndirect(fs, ino, i);
        var (f1, ino1) := GetIndirect(fs, ino);
        GetThrough(fs, ino, i);
        EntryMarks(f1, ino1, i);
        MarksTrans(fs, f1, GetOrAlloc(fs, ino, i).0);
      }
    }
  }

  lemma {:induction false} WriteFromMarks(fs: Fs, ino: Inode, buf: Block, i: nat, w: nat)
    requires FsOk(fs) && Formatted(fs) && FileOk(fs, ino) && |ino.raw| == INODE_BYTES && w <= |buf|
    requires w == |buf| || w == i * fs.geo.blockSize
    requires |buf| <= MaxBlocks(fs.geo) * fs.geo.blockSize
    requires WriteReady(fs, ino, buf, i, w) && fs.freeBlocks >= Needed(fs, ino, i, w, |buf|)
    ensures SameMarks(fs, WriteFrom(fs, ino, buf, i, w).0)
    decreases |buf| - w
  {
    hide FsOk, FileOk, Formatted, Word, Ptr, ReadBlock, Needed, NeedAt, GetOrAlloc, WriteBlock, IndirectReady,
         Indirect, CeilDiv, GotBlock, SameMarks, DataBlock, IsBitmap, IsTable, Taken;
    SameMarksSelf(fs);
    if w < |buf| {
      FormattedSize(fs);
      var bs := fs.geo.blockSize;
      var n := Least(|buf| - w, bs);
      BlockIndex(i, bs, |buf|, MaxBlocks(fs.geo));
      NeededHere(fs, ino, i, w, |buf|);
      GetOrAllocOk(fs, ino, i);
      GetMarks(fs, ino, i);
      var (f1, ino1, b) := GetOrAlloc(fs, ino, i);
      GotParts(fs, ino, f1, ino1, i, b);
      GotData(fs, ino, f1, ino1, i, b);
      DataInRange(f1, b);
      var data := Splice(ReadBlock(f1, b), 0, buf[w..w + n]);
      DataWritten(f1, ino1, i, data);
      WriteKeepsMarks(f1, b, data);
      var f2 := WriteBlock(f1, b, data);
      NeededStep(fs, ino, f2, ino1, i, w, |buf|, b);
      if w + n == |buf| { PastEnd(f2, ino1, i + 1, w + n, |buf|); }
      WriteFromMarks(f2, ino1, buf, i + 1, w + n);
      MarksTrans(fs, f1, f2);
      MarksTrans(fs, f2, WriteFrom(f2, ino1, buf, i + 1, w + n).0);
    }
  }

  /** Nor does saving the inode. */
  lemma SaveMarks(f: Fs, ino: Inode)
    requires FsOk(f) && Formatted(f) && SlotsOk(f) && HasSlot(f, ino.id) && |ino.raw| == INODE_BYTES
    ensures SlotOffset(f, ino.id) + INODE_BYTES <= f.geo.blockSize
    ensures SameMarks(f, WriteInode(f, ino))
  {
    hide FsOk, Formatted, SlotsOk, SlotOffset, SlotBlock, ReadBlock, WriteBlock, IsBitmap, SameMarks, IsTable;
    FormattedSizes(f);
    SlotFits(f, ino.id);
    SlotInTable(f, ino.id);
    TableInRange(f, SlotBlock(f, ino.id));
    WriteKeepsMarks(f, SlotBlock(f, ino.id),
      Splice(ReadBlock(f, SlotBlock(f, ino.id)), SlotOffset(f, ino.id), ino.raw));
  }

  /** Writing a file marks and unmarks no inode number. */
  lemma WriteFileMarks(fs: Fs, ino: Inode, buf: Block)
    requires FsOk(fs) && Formatted(fs) && SlotsOk(fs) && HasSlot(fs, ino.id) && |ino.raw| == INODE_BYTES
    requires FileOk(fs, ino) && IsFile(ino) && |buf| < WORD && |buf| <= MaxBlocks(fs.geo) * fs.geo.blockSize
    requires FreeClear(fs) && fs.freeBlocks >= Needed(fs, Resized(ino, |buf|), 0, 0, |buf|)
    ensures SameMarks(fs, WriteFile(fs, ino, buf).0)
  {
    hide FsOk, Formatted, SlotsOk, FileOk, Ptr, WriteReady, Needed, Resized, WriteFrom, Word, Indirect, Size,
         SameMarks, FreeClear, IsBitmap, SameTables, Written, Foreign, IsFile, WriteInode, ReadFrom, SlotOffset,
         SlotBlock, HasSlot;
    var ino0 := Resized(ino, |buf|);
    ResizedSame(fs, ino, |buf|);
    SameFile(fs, ino, ino0);
    ReadyIfClear(fs, ino0, buf, 0, 0);
    WriteFromMarks(fs, ino0, buf, 0, 0);
    WriteFromOk(fs, ino0, buf, 0, 0);
    WriteFromTables(fs, ino0, buf, 0, 0);
    var (f, ino', n) := WriteFrom(fs, ino0, buf, 0, 0);
    WrittenParts(fs, ino0, buf, f, ino');
    SlotStays(fs, f, ino.id);
    SaveMarks(f, ino');
    MarksTrans(fs, f, WriteInode(f, ino'));
  }

  // ----- creating a file

  /** Files without blocks need the same blocks, whatever the state. */
  lemma {:induction false} EmptyNeeds(fs: Fs, f: Fs, a: Inode, b: Inode, i: nat, w: nat, size: nat)
    requires Formatted(fs) && Formatted(f) && f.geo == fs.geo && |a.raw| == INODE_BYTES == |b.raw|
    requires Indirect(a) == 0 && Indirect(b) == 0
    requires forall j: nat :: Ptr(fs, a, j) == 0 && Ptr(f, b, j) == 0
    ensures ZeroPtrs(f, b, i, w, size) == ZeroPtrs(fs, a, i, w, size)
            && Needed(f, b, i, w, size) == Needed(fs, a, i, w, size)
    decreases size - w
  {
    hide Formatted, Ptr, Indirect;
    FormattedSize(fs);
    if w < size { EmptyNeeds(fs, f, a, b, i + 1, w + fs.geo.blockSize, size); }
  }

  /** What the caller of the creating call can see before it: a free inode, room for
      the contents in clear free blocks, a directory in use that is a chain of
      records with room for the name in its last block. */
  ghost predicate MayCreate(fs: Fs, dirId: nat, name: Block, buf: Block) {
    && FsOk(fs) && Formatted(fs) && SlotsOk(fs) && PaddingUsed(fs, Inodes) && FreeClear(fs)
    && HasSlot(fs, dirId) && NumberInUse(fs, Inodes, dirId)
    && |fs.groups| * fs.geo.inodesPerGroup < WORD
    && fs.geo.blockSize <= 0x1_0000 && |name| < 256 && |buf| < WORD && |buf| <= MaxBlocks(fs.geo) * fs.geo.blockSize
    && fs.freeInodes > 0 && fs.freeBlocks >= Needed(fs, Resized(NewInode(0), |buf|), 0, 0, |buf|)
    && DirReady(fs, InodeAt(fs, dirId), name)
  }

  ghost predicate DirReady(fs: Fs, dir: Inode, name: Block)
    requires Formatted(fs) && |dir.raw| == INODE_BYTES
  {
    && FileOk(fs, dir) && DirOk(fs, dir) && IsDir(dir) && NumBlocks(fs, dir) > 0
    && Room(DirBlock(fs, dir, NumBlocks(fs, dir) - 1), fs.geo.blockSize, name)
  }

  /** The directory was ready for the name, and `u` is the state with the entry. */
  ghost predicate Added(t: Fs, dir: Inode, id: nat, name: Block, u: Fs)
    requires Formatted(t) && |dir.raw| == INODE_BYTES
  {
    DirReady(t, dir, name) && u == AddEntry(t, dir, id, name)
  }

  /** After the number is taken: the new inode can be written, the directory is as it
      was and apart from it. */
  lemma NumberTaken(fs: Fs, dirId: nat, name: Block, buf: Block)
    requires MayCreate(fs, dirId, name, buf)
    ensures var (f, id) := Alloc(fs, Inodes, 0); var ino := NewInode(id); var dir := InodeAt(fs, dirId);
      && id != 0 && id != dirId && !NumberInUse(fs, Inodes, id) && NumberInUse(f, Inodes, id)
      && FsOk(f) && Formatted(f) && SlotsOk(f) && OnlyMarked(fs, f) && f.geo == fs.geo && FreeClear(f)
      && HasSlot(f, id) && HasSlot(f, dirId) && InodeAt(f, dirId) == dir
      && FileOk(f, ino) && IsFile(ino) && f.freeBlocks >= Needed(f, Resized(ino, |buf|), 0, 0, |buf|)
      && FileOk(f, dir) && SameMap(fs, f, dir) && Apart(f, ino, dir)
  {
    hide FsOk, Formatted, SlotsOk, FileOk, DirOk, Accounted, PaddingUsed, NumberInUse, OnlyMarked, Alloc, HasSlot,
         Needed, Resized, NewInode, FreeClear, IsFile, Ptr, Indirect, ReadBlock, InodeAt, Chained, NewOffset, IsDir,
         NumBlocks, DirBlock;
    var (f, id) := Alloc(fs, Inodes, 0);
    var ino, dir := NewInode(id), InodeAt(fs, dirId);
    AllocInodeOk(fs);
    assert id != dirId;
    MarkedGeo(fs, f);
    MarkedClear(fs, f);
    MarkedSlot(fs, f, dirId);
    MarkedFile(fs, f, dir);
    NewInodeEmpty(f, id);
    NewInodeEmpty(fs, 0);
    ResizedSame(fs, NewInode(0), |buf|);
    ResizedSame(f, ino, |buf|);
    EmptyNeeds(fs, f, Resized(NewInode(0), |buf|), Resized(ino, |buf|), 0, 0, |buf|);
    EmptyApart(f, ino, dir);
  }

  /** What a state after the write is to one before it. */
  ghost predicate Stored(f: Fs, ino: Inode, buf: Block, dirId: nat, dir: Inode, t: Fs, ino': Inode)
    requires Formatted(f) && SlotsOk(f) && HasSlot(f, ino.id) && |ino.raw| == INODE_BYTES == |dir.raw|
    requires Formatted(t) && |ino'.raw| == INODE_BYTES
  {
    && FileStored(f, ino, buf, t, ino') && t.geo == f.geo
    && SlotsOk(t) && HasSlot(t, dirId) && InodeAt(t, dirId) == dir
    && FileOk(t, dir) && Apart(t, ino', dir) && SameMap(f, t, dir) && SameMarks(f, t)
  }

  /** Writing the contents leaves the directory as it was, and apart from the file. */
  lemma ContentsWritten(f: Fs, ino: Inode, buf: Block, dirId: nat, dir: Inode)
    requires FsOk(f) && Formatted(f) && SlotsOk(f) && HasSlot(f, ino.id) && |ino.raw| == INODE_BYTES == |dir.raw|
    requires HasSlot(f, dirId) && ino.id != dirId && InodeAt(f, dirId) == dir
    requires FileOk(f, ino) && IsFile(ino) && |buf| < WORD && |buf| <= MaxBlocks(f.geo) * f.geo.blockSize
    requires FreeClear(f) && f.freeBlocks >= Needed(f, Resized(ino, |buf|), 0, 0, |buf|)
    requires FileOk(f, dir) && Apart(f, ino, dir)
    ensures var (t, ino', n) := WriteFile(f, ino, buf);
      n == Some(|buf|) && Stored(f, ino, buf, dirId, dir, t, ino')
  {
    hide FsOk, SlotsOk, FileOk, Needed, Resized, FreeClear, IsFile, Ptr, Indirect, ReadBlock, WriteFile, FileStored,
         SameMarks, SameMap, Apart, Formatted, HasSlot, InodeAt, SameTables;
    WriteThenReadWhenClear(f, ino, buf);
    WriteFileMarks(f, ino, buf);
    var (t, ino', n) := WriteFile(f, ino, buf);
    ApartKept(f, ino, buf, t, ino', dir);
    StoredForeign(f, ino, buf, t, ino');
    FormattedSizes(f);
    SlotSaid(f, t, dirId, InodeAt(f, dirId));
  }

  lemma DirReadyFile(fs: Fs, dir: Inode, name: Block)
    requires Formatted(fs) && |dir.raw| == INODE_BYTES && DirReady(fs, dir, name)
    ensures FileOk(fs, dir) && DirOk(fs, dir) && IsDir(dir) && NumBlocks(fs, dir) > 0
  {
    hide Formatted, FileOk, DirOk, IsDir, NumBlocks;
  }

  lemma SlotSaid(fs: Fs, t: Fs, id: nat, ino: Inode)
    requires Formatted(fs) && Formatted(t) && Sized(fs.geo) && HasSlot(fs, id) && SlotsOk(t)
             && SlotReads(fs, t, id, ino)
    ensures HasSlot(t, id) && InodeAt(t, id) == ino
  {
    hide Formatted, SlotsOk, SlotOffset, SlotBlock;
  }

  /** A file and a directory in their slots, apart from each other. */
  ghost predicate BothThere(t: Fs, ino: Inode, dirId: nat, dir: Inode)
    requires Formatted(t)
  {
    && FsOk(t) && SlotsOk(t) && |ino.raw| == INODE_BYTES == |dir.raw|
    && HasSlot(t, dirId) && InodeAt(t, dirId) == dir && HasSlot(t, ino.id) && InodeAt(t, ino.id) == ino
    && FileOk(t, dir) && FileOk(t, ino) && Apart(t, ino, dir)
  }

  lemma StoredBoth(f: Fs, ino: Inode, buf: Block, dirId: nat, dir: Inode, t: Fs, ino': Inode)
    requires Formatted(f) && SlotsOk(f) && HasSlot(f, ino.id) && |ino.raw| == INODE_BYTES == |dir.raw|
    requires Formatted(t) && |ino'.raw| == INODE_BYTES && Stored(f, ino, buf, dirId, dir, t, ino')
    ensures BothThere(t, ino', dirId, dir) && ReadFile(t, ino', |buf|) == Some(buf) && ino'.id == ino.id
  {
    hide FsOk, SlotsOk, FileOk, Ptr, Indirect, ReadBlock, FileStored, SameMarks, SameMap, Apart, Formatted, HasSlot,
         InodeAt, SameTables, ReadFile, SlotReads, Foreign;
    StoredForeign(f, ino, buf, t, ino');
    FormattedSizes(f);
    SlotSaid(f, t, ino.id, ino');
  }

  /** The entry added: the listing grows by it, and the new file is where it was. */
  lemma EntryAdded(t: Fs, ino: Inode, dirId: nat, dir: Inode, name: Block, size: nat, u: Fs)
    requires Formatted(t) && BothThere(t, ino, dirId, dir) && Added(t, dir, ino.id, name, u)
    requires t.geo.blockSize <= 0x1_0000 && ino.id < WORD && |name| < 256
    ensures DirOk(t, dir) && Formatted(u)
      && FsOk(u) && SlotsOk(u) && HasSlot(u, dirId) && InodeAt(u, dirId) == dir && DirOk(u, dir)
      && ListDir(u, dir) == ListDir(t, dir) + [Entry(ino.id, 1, name)]
      && HasSlot(u, ino.id) && InodeAt(u, ino.id) == ino && ReadFile(u, ino, size) == ReadFile(t, ino, size)
      && SameMarks(t, u)
  {
    hide FsOk, SlotsOk, FileOk, Ptr, Indirect, ReadBlock, SameMarks, SameMap, Apart, Formatted, HasSlot, InodeAt,
         SameTables, DirOk, IsDir, NumBlocks, Chained, NewOffset, DirBlock, AddEntry, ListDir, Foreign, ReadFile,
         Room, SlotBlock;
    FormattedSizes(t);
    AddEntryLists(t, dir, ino.id, name);
    AddTables(t, dir, ino.id, name);
    SlotsStay(t, u);
    SlotUntouched(t, u, dir, dirId);
    SlotUntouched(t, u, dir, ino.id);
    ApartTurns(t, ino, dir);
    TablesGeo(t, u);
    ForeignFile(t, u, dir, ino, size);
    AddMarks(t, dir, ino.id, name);
  }

  lemma SlotUntouched(t: Fs, u: Fs, dir: Inode, id: nat)
    requires FsOk(t) && Formatted(t) && Formatted(u) && SlotsOk(t) && SlotsOk(u) && SameTables(t, u) && HasSlot(t, id)
    requires |dir.raw| == INODE_BYTES && FileOk(t, dir) && |u.disk| == |t.disk|
    requires forall c: nat :: Foreign(t, dir, c) ==> c < |t.disk| && u.disk[c] == t.disk[c]
    ensures HasSlot(u, id) && InodeAt(u, id) == InodeAt(t, id)
  {
    hide FsOk, SlotsOk, FileOk, Formatted, InodeAt, SameTables, Foreign, SlotBlock;
    FormattedSizes(t);
    SlotForeign(t, dir, id);
    SlotSame(t, u, id);
  }

  lemma AddTables(t: Fs, dir: Inode, inode: nat, name: Block)
    requires Formatted(t) && |dir.raw| == INODE_BYTES && DirOk(t, dir)
    requires NumBlocks(t, dir) > 0 ==> Room(DirBlock(t, dir, NumBlocks(t, dir) - 1), t.geo.blockSize, name)
    ensures SameTables(t, AddEntry(t, dir, inode, name))
  {
    hide Formatted, Ptr, ReadBlock, DirOk, IsDir, NumBlocks, Tiles, Insert, NewOffset, DirBlock;
  }

  /** The directory's last block is no bitmap. */
  lemma AddMarks(t: Fs, dir: Inode, inode: nat, name: Block)
    requires FsOk(t) && Formatted(t) && |dir.raw| == INODE_BYTES && DirOk(t, dir) && FileOk(t, dir)
    requires NumBlocks(t, dir) > 0 ==> Room(DirBlock(t, dir, NumBlocks(t, dir) - 1), t.geo.blockSize, name)
    ensures SameMarks(t, AddEntry(t, dir, inode, name))
  {
    hide FsOk, Formatted, Ptr, ReadBlock, DirOk, IsDir, NumBlocks, Tiles, Insert, NewOffset, DirBlock, SameMarks,
         IsBitmap, IsTable, Taken, WriteBlock, Indirect;
    SameMarksSelf(t);
    if IsDir(dir) && NumBlocks(t, dir) > 0 {
      var last := NumBlocks(t, dir) - 1;
      DirParts(t, dir, last);
      var b := Ptr(t, dir, last);
      DirBlockIs(t, dir, last);
      DataInRange(t, b);
      WriteKeepsMarks(t, b, Insert(ReadBlock(t, b), t.geo.blockSize, inode, name));
    }
  }

  /** An inode whose slot block is the same. */
  lemma SlotSame(t: Fs, u: Fs, id: nat)
    requires Formatted(t) && Formatted(u) && SlotsOk(t) && SlotsOk(u) && SameTables(t, u) && HasSlot(t, id)
    requires SlotBlock(t, id) < |t.disk| == |u.disk| && u.disk[SlotBlock(t, id)] == t.disk[SlotBlock(t, id)]
    ensures HasSlot(u, id) && InodeAt(u, id) == InodeAt(t, id)
  {
    hide Formatted, SlotsOk, SlotOffset, SlotBlock, SameTables;
    FormattedSizes(t);
    SlotStays(t, u, id);
    TablesGeo(t, u);
    SameBlock(t, u, SlotBlock(t, id));
  }

  lemma TablesGeo(t: Fs, u: Fs)
    requires SameTables(t, u)
    ensures u.geo == t.geo
  {
  }

  /** A file all of whose blocks are foreign to the one written reads the same. */
  lemma ForeignFile(t: Fs, u: Fs, dir: Inode, ino: Inode, size: nat)
    requires FsOk(t) && Formatted(t) && Formatted(u) && |dir.raw| == INODE_BYTES == |ino.raw| && u.geo == t.geo
    requires |u.disk| == |t.disk| && Apart(t, dir, ino) && FileOk(t, ino)
    requires forall c: nat :: Foreign(t, dir, c) ==> c < |t.disk| && u.disk[c] == t.disk[c]
    ensures ReadFile(u, ino, size) == ReadFile(t, ino, size)
    ensures SameMap(t, u, ino)
  {
    hide FsOk, Formatted, FileOk, Ptr, Indirect, ReadBlock, Foreign, Word;
    forall j: nat
      ensures Ptr(u, ino, j) == Ptr(t, ino, j)
      ensures Ptr(t, ino, j) != 0 ==> ReadBlock(u, Ptr(t, ino, j)) == ReadBlock(t, Ptr(t, ino, j))
    {
      PtrIndirect(t, ino, j);
      PtrIndirect(u, ino, j);
      PtrPast(t, ino, j);
      PtrPast(u, ino, j);
      if Indirect(ino) != 0 { SameBlock(t, u, Indirect(ino)); }
      if Ptr(t, ino, j) != 0 { SameBlock(t, u, Ptr(t, ino, j)); }
    }
    SameReads(t, u, ino, size, 0, 0);
  }

  /** Creating a file, whole: the directory lists what it listed before the call and
      then the new entry; the inode number was free and is in use; the inode in its
      slot reads back exactly the bytes given; the file system is in order. */
  lemma CreateFileLists(fs: Fs, dirId: nat, name: Block, buf: Block)
    requires MayCreate(fs, dirId, name, buf)
    ensures DirOk(fs, InodeAt(fs, dirId)) && CreateFile(fs, dirId, name, buf).Some?
    ensures var (u, id) := CreateFile(fs, dirId, name, buf).value; var dir := InodeAt(fs, dirId);
      && FsOk(u) && Formatted(u) && SlotsOk(u) && HasSlot(u, dirId) && InodeAt(u, dirId) == dir && DirOk(u, dir)
      && ListDir(u, dir) == ListDir(fs, dir) + [Entry(id, 1, name)]
      && !NumberInUse(fs, Inodes, id) && NumberInUse(u, Inodes, id)
      && HasSlot(u, id) && ReadFile(u, InodeAt(u, id), |buf|) == Some(buf)
  {
    hide FsOk, SlotsOk, FileOk, Ptr, Indirect, ReadBlock, SameMarks, SameMap, Apart, Formatted, HasSlot, InodeAt,
         MayCreate, SameTables, DirOk, IsDir, NumBlocks, Chained, NewOffset, DirBlock, AddEntry, ListDir, ReadFile,
         WriteFile, Alloc, NewInode, NumberInUse, CreateFile, Stored, BothThere, OnlyMarked, Needed, Resized,
         FreeClear, IsFile, DirReady, EntryFor, Added;
    CreateParts(fs, dirId, name, buf);
    var dir := InodeAt(fs, dirId);
    DirReadyFile(fs, dir, name);
    NumberTaken(fs, dirId, name, buf);
    var f, id, t, ino', u := CreateStates(fs, dirId, name, buf);
    var ino := NewInode(id);
    StoredBoth(f, ino, buf, dirId, dir, t, ino');
    StoredMaps(f, ino, buf, dirId, dir, t, ino');
    MarkedCounts(fs, f);
    IdIsWord(f, id);
    EntryAdded(t, ino', dirId, dir, name, |buf|, u);
    MarksTrans(f, t, u);
    MarksSay(f, u, id);
  }

  /** The states of the call: the number taken, the contents written, the entry
      added. */
  lemma CreateStates(fs: Fs, dirId: nat, name: Block, buf: Block)
      returns (f: Fs, id: nat, t: Fs, ino': Inode, u: Fs)
    requires MayCreate(fs, dirId, name, buf)
    ensures FsOk(fs) && Formatted(fs) && SlotsOk(fs) && HasSlot(fs, dirId) && (f, id) == Alloc(fs, Inodes, 0)
    ensures Formatted(f) && SlotsOk(f) && HasSlot(f, id) && Formatted(t) && |ino'.raw| == INODE_BYTES
    ensures var dir := InodeAt(fs, dirId);
      && FsOk(f) && OnlyMarked(fs, f) && Stored(f, NewInode(id), buf, dirId, dir, t, ino')
      && SameMap(fs, t, dir) && Added(t, dir, id, name, u)
      && DirOk(fs, dir) && DirOk(t, dir) && ListDir(t, dir) == ListDir(fs, dir)
      && CreateFile(fs, dirId, name, buf) == Some((u, id))
    ensures ino' == WriteFile(f, NewInode(id), buf).1
  {
    hide FsOk, SlotsOk, FileOk, Ptr, Indirect, ReadBlock, SameMarks, SameMap, Apart, Formatted, HasSlot, InodeAt,
         MayCreate, SameTables, DirOk, IsDir, NumBlocks, Chained, NewOffset, DirBlock, AddEntry, ListDir, ReadFile,
         WriteFile, Alloc, NewInode, NumberInUse, CreateFile, Stored, BothThere, OnlyMarked, Needed, Resized,
         FreeClear, IsFile, DirReady, EntryFor, Added;
    CreateParts(fs, dirId, name, buf);
    var dir := InodeAt(fs, dirId);
    DirReadyFile(fs, dir, name);
    NumberTaken(fs, dirId, name, buf);
    f, id := Alloc(fs, Inodes, 0).0, Alloc(fs, Inodes, 0).1;
    var ino := NewInode(id);
    ContentsWritten(f, ino, buf, dirId, dir);
    t, ino' := WriteFile(f, ino, buf).0, WriteFile(f, ino, buf).1;
    StoredMaps(f, ino, buf, dirId, dir, t, ino');
    MapTrans(fs, f, t, dir);
    SameDir(fs, t, dir);
    RoomKept(fs, t, dir, name);
    StoredIs(f, ino, buf, dirId, dir, t, ino');
    CreateIs(fs, dirId, name, buf, f, id, t);
    EntryIsAdded(t, dirId, dir, id, name);
    u := EntryFor(t, dirId, id, name).value;
  }

  // ----- what the call leaves alone

  /** Two files apart stay apart when the maps of both stay. */
  lemma ApartAgain(fs: Fs, t: Fs, dir: Inode, other: Inode)
    requires Formatted(fs) && Formatted(t) && t.geo == fs.geo && |dir.raw| == INODE_BYTES == |other.raw|
    requires Apart(fs, dir, other) && SameMap(fs, t, dir) && SameMap(fs, t, other) && FileOk(t, other)
    ensures Apart(t, dir, other)
  {
    hide Formatted, Ptr, Indirect, IsBitmap, IsTable, Taken, ReadBlock;
    forall j: nat | Ptr(t, other, j) != 0 ensures Foreign(t, dir, Ptr(t, other, j)) {
      PtrPast(t, other, j);
      assert Foreign(fs, dir, Ptr(fs, other, j));
    }
  }

  lemma SameMapReads(fs: Fs, t: Fs, ino: Inode, size: nat)
    requires Formatted(fs) && Formatted(t) && t.geo == fs.geo && |ino.raw| == INODE_BYTES && SameMap(fs, t, ino)
    ensures ReadFile(t, ino, size) == ReadFile(fs, ino, size)
  {
    hide Formatted, Ptr, ReadBlock, Word, ReadFrom;
    SameReads(fs, t, ino, size, 0, 0);
  }

  lemma StoredIs(f: Fs, ino: Inode, buf: Block, dirId: nat, dir: Inode, t: Fs, ino': Inode)
    requires Formatted(f) && SlotsOk(f) && HasSlot(f, ino.id) && |ino.raw| == INODE_BYTES == |dir.raw|
    requires Formatted(t) && |ino'.raw| == INODE_BYTES && Stored(f, ino, buf, dirId, dir, t, ino')
    ensures FileStored(f, ino, buf, t, ino') && t.geo == f.geo && |t.disk| == |f.disk| && FileOk(t, dir)
  {
    hide FsOk, SlotsOk, FileOk, SameMarks, SameMap, Apart, Formatted, HasSlot, InodeAt, ReadFile, SlotReads, Foreign,
         SameTables, IsFile, Size, SlotBlock;
  }

  lemma AddedFrame(t: Fs, dir: Inode, id: nat, name: Block, u: Fs)
    requires FsOk(t) && Formatted(t) && |dir.raw| == INODE_BYTES && Added(t, dir, id, name, u)
    requires t.geo.blockSize <= 0x1_0000 && id < WORD && |name| < 256
    ensures Formatted(u)
      && SameTables(t, u) && u.geo == t.geo && |u.disk| == |t.disk| && FileOk(t, dir)
      && forall c: nat :: Foreign(t, dir, c) ==> c < |t.disk| && u.disk[c] == t.disk[c]
  {
    hide FsOk, Formatted, FileOk, DirOk, IsDir, NumBlocks, Chained, NewOffset, DirBlock, AddEntry, ListDir, Foreign,
         SameTables;
    AddEntryLists(t, dir, id, name);
    AddTables(t, dir, id, name);
  }

  /** Any other file that is apart from the directory keeps its map and reads the
      same, and every other inode slot is as it was. */
  lemma CreateFileKeepsOthers(fs: Fs, dirId: nat, name: Block, buf: Block, other: Inode, size: nat)
    requires MayCreate(fs, dirId, name, buf)
    requires |other.raw| == INODE_BYTES && FileOk(fs, other) && Apart(fs, InodeAt(fs, dirId), other)
    ensures CreateFile(fs, dirId, name, buf).Some?
    ensures var (u, id) := CreateFile(fs, dirId, name, buf).value;
      && Formatted(u) && SlotsOk(u)
      && (forall j: nat :: Ptr(u, other, j) == Ptr(fs, other, j))
      && ReadFile(u, other, size) == ReadFile(fs, other, size)
      && forall k: nat :: HasSlot(fs, k) && k != id ==> HasSlot(u, k) && InodeAt(u, k) == InodeAt(fs, k)
  {
    hide FsOk, SlotsOk, FileOk, Ptr, Indirect, ReadBlock, SameMarks, Apart, Formatted, HasSlot, InodeAt, MayCreate,
         SameTables, DirOk, IsDir, NumBlocks, Chained, NewOffset, DirBlock, AddEntry, ListDir, ReadFile, WriteFile,
         Alloc, NewInode, NumberInUse, CreateFile, Stored, OnlyMarked, FileStored, Foreign, Added, SlotBlock;
    CreateParts(fs, dirId, name, buf);
    CreateFileLists(fs, dirId, name, buf);
    var dir := InodeAt(fs, dirId);
    var f, id, t, ino', u := CreateStates(fs, dirId, name, buf);
    var ino := NewInode(id);
    StoredIs(f, ino, buf, dirId, dir, t, ino');
    MarkedGeo(fs, f);
    MarkedFile(fs, f, other);
    NewInodeEmpty(f, id);
    EmptyApart(f, ino, other);
    ApartKept(f, ino, buf, t, ino', other);
    StoredForeign(f, ino, buf, t, ino');
    MapTrans(fs, f, t, other);
    ApartAgain(fs, t, dir, other);
    IdIsWord(f, id);
    AddedFrame(t, dir, id, name, u);
    ForeignFile(t, u, dir, other, size);
    MapTrans(fs, t, u, other);
    SameMapReads(fs, u, other, size);
    FormattedSizes(fs);
    forall k: nat | HasSlot(fs, k) && k != id ensures HasSlot(u, k) && InodeAt(u, k) == InodeAt(fs, k) {
      MarkedSlot(fs, f, k);
      SlotSaid(f, t, k, InodeAt(f, k));
      SlotUntouched(t, u, dir, k);
    }
  }

  lemma CreateParts(fs: Fs, dirId: nat, name: Block, buf: Block)
    requires MayCreate(fs, dirId, name, buf)
    ensures FsOk(fs) && Formatted(fs) && SlotsOk(fs) && HasSlot(fs, dirId) && DirReady(fs, InodeAt(fs, dirId), name)
    ensures fs.geo.blockSize <= 0x1_0000 && |name| < 256 && |buf| < WORD
    ensures |buf| <= MaxBlocks(fs.geo) * fs.geo.blockSize && |fs.groups| * fs.geo.inodesPerGroup < WORD
  {
    hide FsOk, SlotsOk, Formatted, HasSlot, InodeAt, DirReady, PaddingUsed, FreeClear, Needed, NumberInUse;
  }

  lemma StoredMaps(f: Fs, ino: Inode, buf: Block, dirId: nat, dir: Inode, t: Fs, ino': Inode)
    requires Formatted(f) && SlotsOk(f) && HasSlot(f, ino.id) && |ino.raw| == INODE_BYTES == |dir.raw|
    requires Formatted(t) && |ino'.raw| == INODE_BYTES && Stored(f, ino, buf, dirId, dir, t, ino')
    ensures t.geo == f.geo && SameMap(f, t, dir) && SameMarks(f, t) && SlotsOk(t) && HasSlot(t, dirId)
    ensures InodeAt(t, dirId) == dir
  {
    hide FsOk, SlotsOk, FileOk, FileStored, SameMarks, SameMap, Apart, Formatted, HasSlot, InodeAt;
  }

  lemma MapTrans(fs: Fs, f: Fs, t: Fs, dir: Inode)
    requires Formatted(fs) && Formatted(f) && Formatted(t) && |dir.raw| == INODE_BYTES
    requires SameMap(fs, f, dir) && SameMap(f, t, dir)
    ensures SameMap(fs, t, dir)
  {
    hide Formatted, Ptr, ReadBlock;
  }

  lemma RoomKept(fs: Fs, t: Fs, dir: Inode, name: Block)
    requires Formatted(fs) && Formatted(t) && t.geo == fs.geo && |dir.raw| == INODE_BYTES && DirReady(fs, dir, name)
    requires DirOk(t, dir) && NumBlocks(t, dir) == NumBlocks(fs, dir)
    requires forall i: nat :: i < NumBlocks(fs, dir) ==> DirBlock(t, dir, i) == DirBlock(fs, dir, i)
    ensures FileOk(t, dir) ==> DirReady(t, dir, name)
  {
    hide Formatted, Ptr, ReadBlock, DirOk, IsDir, NumBlocks, Tiles, NewOffset, DirBlock, FileOk;
    DirParts(t, dir, NumBlocks(t, dir) - 1);
  }

  /** An inode number fits its field. */
  lemma IdIsWord(f: Fs, id: nat)
    requires Formatted(f) && HasSlot(f, id) && |f.groups| * f.geo.inodesPerGroup < WORD
    ensures id < WORD
  {
    hide Formatted;
    FormattedSizes(f);
    Encode(f, Inodes, id);
    MulGap(f.geo.inodesPerGroup, GroupOf(f, Inodes, id), |f.groups|);
    MulCommutes(f.geo.inodesPerGroup, |f.groups|);
    MulCommutes(f.geo.inodesPerGroup, GroupOf(f, Inodes, id));
  }

  /** What the call does, step by step. */
  lemma CreateIs(fs: Fs, dirId: nat, name: Block, buf: Block, f: Fs, id: nat, t: Fs)
    requires Formatted(fs) && SlotsOk(fs) && HasSlot(fs, dirId) && (f, id) == Alloc(fs, Inodes, 0)
    requires id != 0 && HasSlot(f, id) && SlotsOk(f) && t == WriteFile(f, NewInode(id), buf).0
    requires SlotsOk(t) && HasSlot(t, dirId)
    ensures CreateFile(fs, dirId, name, buf)
            == match EntryFor(t, dirId, id, name) case None => None case Some(u) => Some((u, id))
  {
    hide Formatted, SlotsOk, HasSlot, Alloc, WriteFile, NewInode, EntryFor, SameTables, SlotBlock, SlotOffset;
  }

  lemma EntryIsAdded(t: Fs, dirId: nat, dir: Inode, id: nat, name: Block)
    requires Formatted(t) && SlotsOk(t) && HasSlot(t, dirId) && InodeAt(t, dirId) == dir && DirReady(t, dir, name)
    ensures EntryFor(t, dirId, id, name).Some? && Added(t, dir, id, name, EntryFor(t, dirId, id, name).value)
  {
    hide Formatted, SlotsOk, HasSlot, DirOk, InodeAt, NumBlocks, DirBlock, Chained, NewOffset, AddEntry;
  }
}
