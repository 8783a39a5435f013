/** A small disk in order, with one free block, one free inode, an empty file and a
    directory: what the results about writing and creating files ask for can be met.
    With something left in the free block, writing
    far into the file goes to the block bitmap; and in a full directory block a new
    file is lost. */
module Ext2Example {
  import opened Bits
  import opened Frames
  import opened ByteBlocks
  import opened Ext2Alloc
  import opened Ext2Files
  import opened Ext2FileIO
  import opened Ext2RoundTrip
  import opened Ext2Dirs
  import opened Ext2Create
  import opened Ext2ShortWrites

  const SMALL: nat := 128

  function Filled(b: bv8): (r: Block)
    ensures |r| == SMALL && forall x :: 0 <= x < SMALL ==> r[x] == b
  {
    seq(SMALL, _ => b)
  }

  /** All blocks in use but number 11. */
  function OneFree(): (r: Block)
    ensures |r| == SMALL
  {
    Filled(255)[1 := 0xF7]
  }

  /** All inodes in use but number 2. */
  function OneInodeFree(): (r: Block)
    ensures |r| == SMALL
  {
    Filled(255)[0 := 0xFD]
  }

  /** Inode 1: a directory of one block, number 12. */
  function Folder(): (r: Block)
    ensures |r| == SMALL
  {
    SetWord(SetWord(SetWord(Filled(0), 0, 0x41ED), 1, SMALL), 10, 12)
  }

  /** The block of the directory: one record, for itself. */
  function FolderBlock(): (r: Block)
    ensures |r| == SMALL
  {
    Filled(0)[0 := 1][4 := 0x80][6 := 1][7 := 2][8 := 0x2E]
  }

  /** Block 0, the two bitmaps, eight blocks of one inode each, what was left in the
      free block 11, and the directory's block. */
  function SmallDisk(left: Block): (r: seq<Block>)
    ensures |r| == 13
  {
    [Filled(0), OneFree(), OneInodeFree(), Folder()] + seq(7, _ => Filled(0)) + [left, FolderBlock()]
  }

  function SmallFs(left: Block): Fs {
    var groups := [Group(1, 2, 3, 1, 1)];
    Fs(Geometry(SMALL, 1024, 8, SMALL), SmallDisk(left), groups, 1, 1, Saved(groups, 1, 1))
  }

  function EmptyFile(): (ino: Inode)
    ensures |ino.raw| == INODE_BYTES
  {
    Inode(SetWord(Filled(0), 0, 0x81A4), 3)
  }

  lemma OneFreeUsed(f: nat)
    ensures InUse(OneFree(), f) <==> f != 11
  {
    if f < 8 * SMALL {
      MaskValues(f % 8);
      assert f / 8 == 1 && f % 8 == 3 <==> f == 11;
    }
  }

  lemma OneInodeUsed(f: nat)
    ensures InUse(OneInodeFree(), f) <==> f != 1
  {
    if f < 8 * SMALL {
      MaskValues(f % 8);
      assert f / 8 == 0 && f % 8 == 1 <==> f == 1;
    }
  }

  /** One clear bit counts as one. */
  lemma OneZero(bm: Block, n: nat, f: nat)
    requires f < n <= 8 * |bm| && forall g: nat :: InUse(bm, g) <==> g != f
    ensures Zeros(bm, n) == 1
  {
    hide Zeros;
    ZerosMark(bm, n, f);
    var full := Mark(bm, f);
    forall g: nat | g < n ensures InUse(full, g) { MarkUses(bm, f, g); }
    ZerosNone(full, n);
  }

  lemma Counts()
    ensures Zeros(OneInodeFree(), 8) == 1 && Zeros(OneFree(), 1024) == 1
  {
    hide Zeros, OneFree, OneInodeFree;
    forall f: nat ensures InUse(OneFree(), f) <==> f != 11 { OneFreeUsed(f); }
    forall f: nat ensures InUse(OneInodeFree(), f) <==> f != 1 { OneInodeUsed(f); }
    OneZero(OneFree(), 1024, 11);
    OneZero(OneInodeFree(), 8, 1);
  }

  lemma DiskBlocks(left: Block, b: nat)
    requires b < 13 && |left| == SMALL
    ensures |SmallDisk(left)[b]| == SMALL
    ensures b == 1 ==> SmallDisk(left)[b] == OneFree()
    ensures b == 2 ==> SmallDisk(left)[b] == OneInodeFree()
    ensures b == 3 ==> SmallDisk(left)[b] == Folder()
    ensures b == 11 ==> SmallDisk(left)[b] == left
    ensures b == 12 ==> SmallDisk(left)[b] == FolderBlock()
  {
  }

  lemma SmallFormatted(left: Block)
    requires |left| == SMALL
    ensures Formatted(SmallFs(left))
  {
    hide OneFree, OneInodeFree, Folder, FolderBlock, Filled;
    var fs := SmallFs(left);
    forall b | 0 <= b < |fs.disk| ensures |fs.disk[b]| == SMALL { DiskBlocks(left, b); }
  }

  lemma SmallTaken(left: Block, b: nat)
    requires |left| == SMALL
    ensures Formatted(SmallFs(left)) && (Taken(SmallFs(left), b) <==> b != 11)
  {
    SmallFormatted(left);
    hide Formatted, OneFree, OneInodeFree, SmallDisk, Bitmap, InUse;
    var fs := SmallFs(left);
    SmallBitmaps(left);
    assert GroupOf(fs, Blocks, b) == b / 1024 && BitOf(fs, Blocks, b) == b % 1024;
    if b < 1024 {
      OneFreeUsed(b);
    } else {
      NothingThere(fs, b / 1024, b % 1024);
    }
  }

  lemma NothingThere(fs: Fs, g: nat, f: nat)
    requires g >= |fs.groups|
    ensures InUse(Bitmap(fs, g, Blocks), f)
  {
  }

  lemma SmallSets(left: Block, b: nat)
    requires |left| == SMALL
    ensures IsBitmap(SmallFs(left), b) <==> b == 1 || b == 2
    ensures IsTable(SmallFs(left), b) <==> 3 <= b < 11
  {
    var fs := SmallFs(left);
    assert TableBlocks(fs.geo) == 8;
    assert BitmapAt(fs, 0, b) <==> b == 1 || b == 2;
    assert InTable(fs, 0, b) <==> 3 <= b < 11;
  }

  lemma SmallBitmaps(left: Block)
    requires |left| == SMALL
    ensures var fs := SmallFs(left); Bitmap(fs, 0, Blocks) == OneFree() && Bitmap(fs, 0, Inodes) == OneInodeFree()
  {
    hide OneFree, OneInodeFree, Folder, FolderBlock, Filled;
    DiskBlocks(left, 1);
    DiskBlocks(left, 2);
  }

  lemma SmallAccounts(left: Block)
    requires |left| == SMALL
    ensures Accounted(SmallFs(left), Blocks) && Accounted(SmallFs(left), Inodes)
  {
    hide Zeros, OneFree, OneInodeFree, SmallDisk, Bitmap, SumFree;
    var fs := SmallFs(left);
    Counts();
    SmallBitmaps(left);
    OneGroup(left, fs);
  }

  lemma SmallPadding(left: Block)
    requires |left| == SMALL
    ensures Formatted(SmallFs(left)) && PaddingUsed(SmallFs(left), Blocks) && PaddingUsed(SmallFs(left), Inodes)
  {
    hide Formatted, OneFree, OneInodeFree, SmallDisk, Bitmap, InUse;
    var fs := SmallFs(left);
    SmallFormatted(left);
    SmallBitmaps(left);
    forall f: nat ensures InUse(OneFree(), f) <==> f != 11 { OneFreeUsed(f); }
    forall f: nat ensures InUse(OneInodeFree(), f) <==> f != 1 { OneInodeUsed(f); }
  }

  lemma SmallOk(left: Block)
    requires |left| == SMALL
    ensures FsOk(SmallFs(left)) && Formatted(SmallFs(left)) && SlotsOk(SmallFs(left))
  {
    hide Formatted, Accounted, PaddingUsed, SmallDisk, Taken, IsBitmap, IsTable;
    var fs := SmallFs(left);
    SmallAccounts(left);
    SmallPadding(left);
    forall b: nat
      ensures Taken(fs, b) <==> b != 11
      ensures IsBitmap(fs, b) <==> b == 1 || b == 2
      ensures IsTable(fs, b) <==> 3 <= b < 11
    {
      SmallTaken(left, b);
      SmallSets(left, b);
    }
  }

  lemma OneGroup(left: Block, fs: Fs)
    requires fs == SmallFs(left)
    ensures SumFree(fs.groups, Blocks) == 1 && SumFree(fs.groups, Inodes) == 1
  {
    assert fs.groups[..0] == [];
  }

  lemma ClearZero()
    ensures Formatted(SmallFs(Filled(0))) && FreeClear(SmallFs(Filled(0)))
  {
    var fs := SmallFs(Filled(0));
    SmallFormatted(Filled(0));
    hide Formatted, SmallDisk, Taken;
    forall b: nat | !Taken(fs, b) ensures ClearAt(fs, b) {
      SmallTaken(Filled(0), b);
      DiskBlocks(Filled(0), 11);
      BlockWords(fs, 11);
    }
  }

  /** Writing one byte to the empty file of the small disk meets every condition. */
  lemma WriteCanHappen()
    ensures var fs, ino, buf: Block := SmallFs(Filled(0)), EmptyFile(), [1];
      && FsOk(fs) && Formatted(fs) && SlotsOk(fs) && HasSlot(fs, ino.id) && |ino.raw| == INODE_BYTES
      && FileOk(fs, ino) && IsFile(ino) && |buf| < WORD && |buf| <= MaxBlocks(fs.geo) * fs.geo.blockSize
      && FreeClear(fs) && fs.freeBlocks >= Needed(fs, Resized(ino, |buf|), 0, 0, |buf|)
  {
    hide Formatted, FsOk, SlotsOk, FreeClear, SmallDisk, EmptyFile, FileOk, IsFile, Needed, Resized, HasSlot;
    SmallOk(Filled(0));
    ClearZero();
    EmptyFileOk(Filled(0));
    OneNeeded();
  }

  lemma EmptyFileOk(left: Block)
    requires |left| == SMALL
    ensures Formatted(SmallFs(left)) && FileOk(SmallFs(left), EmptyFile()) && IsFile(EmptyFile())
            && HasSlot(SmallFs(left), EmptyFile().id)
    ensures Indirect(EmptyFile()) == 0 && forall j: nat :: Ptr(SmallFs(left), EmptyFile(), j) == 0
  {
    hide Formatted, Word, SmallDisk, FileOk, Ptr, Indirect;
    SmallFormatted(left);
    EmptyWords();
    EmptyOn(SmallFs(left), EmptyFile());
  }

  lemma NoPointers(fs: Fs, ino: Inode)
    requires Formatted(fs) && |ino.raw| == INODE_BYTES && Indirect(ino) == 0 && forall j: nat :: Ptr(fs, ino, j) == 0
    ensures FileOk(fs, ino)
  {
    hide Formatted, Ptr, Indirect, DataBlock;
  }

  lemma OneNeeded()
    ensures Formatted(SmallFs(Filled(0))) && Needed(SmallFs(Filled(0)), Resized(EmptyFile(), 1), 0, 0, 1) == 1
  {
    hide Formatted, SmallDisk, EmptyFile, Resized, Ptr, Indirect, FileOk, IsFile, HasSlot;
    EmptyFileOk(Filled(0));
    ResizedSame(SmallFs(Filled(0)), EmptyFile(), 1);
  }

  lemma EmptyWords()
    ensures forall j: nat :: j < 32 ==> Word(EmptyFile().raw, j) == if j == 0 then 0x81A4 else 0
  {
    hide SetWord;
    forall j: nat | j < 32 ensures Word(EmptyFile().raw, j) == if j == 0 then 0x81A4 else 0 {
      SetWordReads(Filled(0), 0, 0x81A4, j);
    }
  }
  // ----- creating a file

  lemma FolderWords()
    ensures forall j: nat :: j < 32 ==>
              Word(Folder(), j) == if j == 0 then 0x41ED else if j == 1 then SMALL else if j == 10 then 12 else 0
  {
    hide SetWord, Word;
    var a := SetWord(Filled(0), 0, 0x41ED);
    var b := SetWord(a, 1, SMALL);
    forall j: nat | j < 32
      ensures Word(Folder(), j) == if j == 0 then 0x41ED else if j == 1 then SMALL else if j == 10 then 12 else 0
    {
      SetWordReads(Filled(0), 0, 0x41ED, j);
      SetWordReads(a, 1, SMALL, j);
      SetWordReads(b, 10, 12, j);
      ZeroWord(Filled(0), j);
    }
  }

  lemma FolderThere(left: Block)
    requires |left| == SMALL
    ensures var fs := SmallFs(left);
      && Formatted(fs) && SlotsOk(fs) && HasSlot(fs, 1) && InodeAt(fs, 1) == Inode(Folder(), 1)
      && NumberInUse(fs, Inodes, 1)
  {
    hide Formatted, OneInodeFree, Folder, SmallDisk, InUse;
    var fs := SmallFs(left);
    SmallOk(left);
    SmallBitmaps(left);
    OneInodeUsed(0);
    DiskBlocks(left, 3);
    assert BitOf(fs, Inodes, 1) == 0 && SlotBlock(fs, 1) == 3 && SlotOffset(fs, 1) == 0;
    assert Folder()[0..INODE_BYTES] == Folder();
  }

  lemma FolderPtrs(left: Block)
    requires |left| == SMALL
    ensures var fs, dir := SmallFs(left), Inode(Folder(), 1);
      && Formatted(fs) && IsDir(dir) && NumBlocks(fs, dir) == 1 && Indirect(dir) == 0
      && forall j: nat :: Ptr(fs, dir, j) == if j == 0 then 12 else 0
  {
    hide Formatted, Word, Folder, SmallDisk;
    SmallFormatted(left);
    FolderWords();
    var fs, dir := SmallFs(left), Inode(Folder(), 1);
    forall j: nat ensures Ptr(fs, dir, j) == if j == 0 then 12 else 0 { PtrPast(fs, dir, j); PtrIndirect(fs, dir, j); }
  }

  lemma FolderRoom(name: Block)
    requires |name| <= 108
    ensures Chained(FolderBlock(), SMALL) && Room(FolderBlock(), SMALL, name)
  {
    var m := FolderBlock();
    assert m[4] == 0x80 && m[5] == 0 && m[6] == 1;
    assert RecLen(m, 0) == SMALL && NameLen(m, 0) == 1;
    assert Tiles(m, SMALL, SMALL);
  }

  lemma FolderReady(left: Block, name: Block)
    requires |left| == SMALL && |name| <= 108
    ensures Formatted(SmallFs(left)) && DirReady(SmallFs(left), Inode(Folder(), 1), name)
  {
    hide Formatted, Ptr, Indirect, IsDir, NumBlocks, Folder, FolderBlock, SmallDisk, Tiles, NewOffset, Taken, IsBitmap,
         IsTable;
    var fs, dir := SmallFs(left), Inode(Folder(), 1);
    SmallFormatted(left);
    FolderPtrs(left);
    SmallTaken(left, 12);
    SmallSets(left, 12);
    DiskBlocks(left, 12);
    FolderRoom(name);
    assert DirBlock(fs, dir, 0) == FolderBlock();
  }

  /** Creating a file of one byte in the directory of the small disk meets every
      condition. */
  lemma CreateCanHappen(name: Block)
    requires |name| <= 108
    ensures MayCreate(SmallFs(Filled(0)), 1, name, [1])
  {
    hide Formatted, FsOk, SlotsOk, FreeClear, SmallDisk, HasSlot, InodeAt, NumberInUse, PaddingUsed, DirReady, Needed,
         Resized, NewInode, Filled;
    SmallOk(Filled(0));
    SmallPadding(Filled(0));
    ClearZero();
    FolderThere(Filled(0));
    FolderReady(Filled(0), name);
    OneNeededNew();
  }

  lemma OneNeededNew()
    ensures Formatted(SmallFs(Filled(0))) && Needed(SmallFs(Filled(0)), Resized(NewInode(0), 1), 0, 0, 1) == 1
  {
    hide Formatted, SmallDisk, NewInode, Resized, Ptr, Indirect, FileOk, IsFile;
    SmallFormatted(Filled(0));
    NewInodeEmpty(SmallFs(Filled(0)), 0);
    ResizedSame(SmallFs(Filled(0)), NewInode(0), 1);
  }

  // ----- an indirect block that is not cleared

  /** The number 1, and zeros. */
  function Leftover(): (r: Block)
    ensures |r| == SMALL
  {
    SetWord(Filled(0), 0, 1)
  }

  /** The disk is in order and the file is empty; but the call that should give the
      file a new block for index 12 makes block 11 its indirect block, reads what was
      left there, and yields the block bitmap. */
  lemma LeftoverBecomesPointer()
    ensures var fs, ino := SmallFs(Leftover()), EmptyFile();
      && FsOk(fs) && Formatted(fs) && FileOk(fs, ino) && |ino.raw| == INODE_BYTES && Ptr(fs, ino, DIRECT) == 0
      && GetOrAlloc(fs, ino, DIRECT).2 == 1 && IsBitmap(fs, 1)
  {
    hide Formatted, FsOk, SmallDisk, EmptyFile, FileOk, Word, IsBitmap, Alloc, TookBlock, Leftover, SetField;
    var left := Leftover();
    var fs, ino := SmallFs(left), EmptyFile();
    SmallOk(left);
    EmptyFileOk(left);
    SmallSets(left, 1);
    AllocOk(fs);
    var (t, n) := Alloc(fs, Blocks, 0);
    OneTaken(t, n);
    SetFieldReads(ino, 22, n);
    LeftWord(t, n);
  }

  lemma OneTaken(t: Fs, n: nat)
    requires var fs := SmallFs(Leftover()); Formatted(fs) && Formatted(t) && TookBlock(fs, t, n) && n != 0
    ensures n == 11 && ReadBlock(t, n) == Leftover()
  {
    var left := Leftover();
    hide Formatted, SmallDisk, Taken, IsBitmap, IsTable, Leftover;
    SmallTaken(left, n);
    SmallSets(left, n);
    DiskBlocks(left, 11);
  }

  lemma LeftWord(t: Fs, n: nat)
    requires Formatted(t) && ReadBlock(t, n) == Leftover()
    ensures Word(ReadBlock(t, n), 0) == 1
  {
    hide Formatted, SetWord, Word;
    SetWordReads(Filled(0), 0, 1, 0);
  }

  // ----- a read past the end

  /** A file of one byte, written to the small disk, reads two. */
  lemma OneByteReadsTwo()
    ensures var fs := SmallFs(Filled(0));
      && Formatted(fs) && SlotsOk(fs) && HasSlot(fs, EmptyFile().id)
      && var (t, ino, n) := WriteFile(fs, EmptyFile(), [1]);
      Size(ino) == 1 && |ReadFrom(t, ino, 2, 0, 0)| > 1
  {
    hide Formatted, FsOk, SlotsOk, FreeClear, SmallDisk, EmptyFile, FileOk, IsFile, Needed, Resized, HasSlot, WriteFile,
         Size, Ptr, FileStored, ReadFrom;
    var fs, buf: Block := SmallFs(Filled(0)), [1];
    WriteCanHappen();
    WriteThenReadWhenClear(fs, EmptyFile(), buf);
    var (t, ino, n) := WriteFile(fs, EmptyFile(), buf);
    StoredReads(fs, EmptyFile(), buf, t, ino);
    FirstBlockThere(t, ino);
    ReadsPastEnd(t, ino, 2);
  }

  lemma StoredReads(fs: Fs, ino: Inode, buf: Block, t: Fs, ino': Inode)
    requires Formatted(fs) && SlotsOk(fs) && HasSlot(fs, ino.id) && |ino.raw| == INODE_BYTES
    requires Formatted(t) && |ino'.raw| == INODE_BYTES && FileStored(fs, ino, buf, t, ino')
    ensures t.geo == fs.geo && Size(ino') == |buf| && ReadFrom(t, ino', |buf|, 0, 0) == buf
  {
    hide FsOk, Formatted, SlotsOk, HasSlot, ReadFrom, Size, Foreign, SlotReads, InodeAt;
  }

  lemma FirstBlockThere(t: Fs, ino: Inode)
    requires Formatted(t) && t.geo.blockSize == SMALL && |ino.raw| == INODE_BYTES && Size(ino) == 1
    requires |ReadFrom(t, ino, 1, 0, 0)| == 1
    ensures forall j: nat :: j < CeilDiv(Size(ino), t.geo.blockSize) ==> Ptr(t, ino, j) != 0
  {
    hide Formatted, Ptr, ReadBlock, Size;
  }

  // ----- no block left

  function TwoBlocks(): (r: Block)
    ensures |r| == SMALL + 1
  {
    seq(SMALL + 1, _ => 1)
  }

  /** Two blocks of data for the one free block of the small disk: fewer bytes are
      written, and the size says all of them. */
  lemma ShortWriteHappens()
    ensures var fs := SmallFs(Filled(0));
      && Formatted(fs) && SlotsOk(fs) && HasSlot(fs, EmptyFile().id)
      && var (t, ino, n) := WriteFile(fs, EmptyFile(), TwoBlocks());
      n.Some? && n.value < SMALL + 1 && Size(ino) == SMALL + 1
  {
    hide Formatted, FsOk, SlotsOk, FreeClear, SmallDisk, EmptyFile, FileOk, IsFile, Needed, Resized, HasSlot, WriteFile,
         Size, Ptr, BootClear;
    var fs := SmallFs(Filled(0));
    WriteCanHappen();
    BootIsClear();
    TwoNeeded();
    WholeWrittenExactly(fs, EmptyFile(), TwoBlocks());
  }

  lemma BootIsClear()
    ensures Formatted(SmallFs(Filled(0))) && BootClear(SmallFs(Filled(0)), EmptyFile())
  {
    hide Formatted, SmallDisk, Taken, IsBitmap;
    var fs := SmallFs(Filled(0));
    SmallFormatted(Filled(0));
    SmallTaken(Filled(0), 0);
    SmallSets(Filled(0), 0);
    BlockWords(fs, 0);
    assert SmallDisk(Filled(0))[0] == Filled(0) by { FirstBlock(); }
  }

  lemma FirstBlock()
    ensures SmallDisk(Filled(0))[0] == Filled(0)
  {
  }

  lemma TwoNeeded()
    ensures Formatted(SmallFs(Filled(0)))
            && Needed(SmallFs(Filled(0)), Resized(EmptyFile(), SMALL + 1), 0, 0, SMALL + 1) == 2
  {
    hide Formatted, SmallDisk, EmptyFile, Resized, Ptr, Indirect, FileOk, IsFile, HasSlot;
    EmptyFileOk(Filled(0));
    var fs, ino := SmallFs(Filled(0)), Resized(EmptyFile(), SMALL + 1);
    ResizedSame(fs, EmptyFile(), SMALL + 1);
    assert ZeroPtrs(fs, ino, 2, 2 * SMALL, SMALL + 1) == 0;
    assert ZeroPtrs(fs, ino, 1, SMALL, SMALL + 1) == 1;
    assert !ReachesIndirect(SMALL, 2, 2 * SMALL, SMALL + 1);
    assert !ReachesIndirect(SMALL, 1, SMALL, SMALL + 1);
  }

  /** The small disk with the number 1 in block 0. */
  function BootFs(): Fs
    ensures Formatted(BootFs())
  {
    SmallFormatted(Filled(0));
    WriteBlock(SmallFs(Filled(0)), 0, Leftover())
  }

  /** Its last free block is taken: the disk is in order, and the block an empty file
      gets for index 12 is the block bitmap, read from block 0. */
  lemma FullDiskYieldsBitmap()
    ensures FsOk(BootFs())
    ensures var fs, ino := Alloc(BootFs(), Blocks, 0).0, EmptyFile();
      && FsOk(fs) && fs.freeBlocks == 0 && FileOk(fs, ino) && |ino.raw| == INODE_BYTES && Ptr(fs, ino, DIRECT) == 0
      && GetOrAlloc(fs, ino, DIRECT).2 == 1 && IsBitmap(fs, 1)
  {
    hide Formatted, FsOk, SmallDisk, EmptyFile, FileOk, Word, IsBitmap, Alloc, TookBlock, Leftover, SetField, Ptr,
         ReadBlock, WriteBlock, Taken;
    var fs0, ino := SmallFs(Filled(0)), EmptyFile();
    SmallOk(Filled(0));
    SmallSets(Filled(0), 0);
    SmallSets(Filled(0), 1);
    WriteKeepsAny(fs0, 0, Leftover());
    var b := BootFs();
    AllocOk(b);
    var (fs, n) := Alloc(b, Blocks, 0);
    TookCount(b, fs, n);
    SameBlock0(b, fs, n);
    EmptyOn(fs, ino);
    BootRead(fs, ino, DIRECT);
    LeftWord(fs, 0);
  }

  lemma TookCount(fs: Fs, t: Fs, n: nat)
    requires Formatted(fs) && Formatted(t) && TookBlock(fs, t, n) && n != 0
    ensures t.freeBlocks == fs.freeBlocks - 1 && t.geo == fs.geo && forall b: nat :: IsBitmap(t, b) <==> IsBitmap(fs, b)
  {
  }

  lemma SameBlock0(fs: Fs, t: Fs, n: nat)
    requires Formatted(fs) && Formatted(t) && TookBlock(fs, t, n) && 0 < |fs.disk| && !IsBitmap(fs, 0)
    ensures ReadBlock(t, 0) == fs.disk[0]
  {
    hide Formatted, IsBitmap, IsTable, Taken;
  }

  /** A file without pointers is in order on every disk. */
  lemma EmptyOn(fs: Fs, ino: Inode)
    requires Formatted(fs) && ino == EmptyFile()
    ensures FileOk(fs, ino) && Indirect(ino) == 0 && forall j: nat :: Ptr(fs, ino, j) == 0
  {
    hide Formatted, Word;
    EmptyWords();
    assert Indirect(ino) == 0;
    forall j: nat ensures Ptr(fs, ino, j) == 0 { PtrPast(fs, ino, j); PtrIndirect(fs, ino, j); }
    NoPointers(fs, ino);
  }

  // ----- a directory block that is full

  /** A block of 1024 bytes whose second record, at 1012, leaves no room behind it,
      and 16 bytes of what follows it in memory. */
  function FullBlock(): (m: Block)
    ensures |m| == 1040
  {
    seq(1040, _ => 0)[4 := 0xF4][5 := 3][6 := 1][1016 := 12][1018 := 1]
  }

  lemma FullRecords()
    ensures var m := FullBlock();
      && RecLen(m, 0) == 1012 && NameLen(m, 0) == 1
      && RecLen(m, 1012) == 12 && NameLen(m, 1012) == 1 && NameLen(m, 1024) == 0
  {
    var m := FullBlock();
    assert m[4] == 0xF4 && m[5] == 3 && m[6] == 1;
    assert m[1016] == 12 && m[1017] == 0 && m[1018] == 1 && m[1030] == 0;
  }

  /** The new file is not in the listing of the block, and its record is written
      over what lies behind the block. */
  lemma FullBlockLosesFile(inode: nat)
    requires inode < WORD
    ensures var m, name: Block := FullBlock(), [0x61];
      && Chained(m, 1024) && NewOffset(m, 1024) + HEAD + |name| <= |m| && !Room(m, 1024, name)
      && var r := Insert(m, 1024, inode, name);
      && Tiles(r, 1024, 0) && ListFrom(r, 1024, 0) == ListFrom(m, 1024, 0) && r[1024..] != m[1024..]
  {
    hide FullBlock, NameLen, RecLen, EntryAt, ChainEdited, Insert;
    var m, name: Block := FullBlock(), [0x61];
    FullRecords();
    assert Tiles(m, 1024, 1024) && Tiles(m, 1024, 1012);
    assert LastOffset(m, 1024, 1012) == 1012 && LastOffset(m, 1024, 0) == 1012;
    InsertEdits(m, 1024, inode, name);
    var r := Insert(m, 1024, inode, name);
    ChainInserted(m, 1024, r, 0, 1012, 1024);
    assert Tiles(r, 1024, 1024) && ListFrom(r, 1024, 1024) == [];
    NameBehind(r, m);
  }

  lemma NameBehind(r: Block, m: Block)
    requires |r| == |m| == 1040 && NameLen(r, 1024) != NameLen(m, 1024)
    ensures r[1024..] != m[1024..]
  {
    assert r[1024..][6] == r[1030] && m[1024..][6] == m[1030];
  }
}
