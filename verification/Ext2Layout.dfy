/** Where things lie on an ext2 disk, in bytes and numbers: inode fields, block
    pointers, inode slots, bitmap bits and directory records. */
module Ext2Layout {
  import opened Bits
  import opened ByteBlocks
  import opened Frames
  import opened Ext2Alloc
  import opened Ext2Files
  import opened Ext2FileIO
  import opened Ext2RoundTrip
  import opened Ext2Dirs
  import opened Ext2Create
  import opened Ext2ShortWrites

  /** A word is the little-endian number at four times its index. */
  lemma WordsInBytes(b: Block, i: nat, o: nat)
    requires o == 4 * i && o + 4 <= |b|
    ensures Word(b, i) == U32(b, o)
  {
  }

  /** Twelve pointers from byte 40 of the inode on; behind them the words of the block
      that byte 88 names, if it names one. */
  lemma PointersOnDisk(fs: Fs, ino: Inode, i: nat)
    requires Formatted(fs) && |ino.raw| == 128
    ensures MaxBlocks(fs.geo) == 12 + fs.geo.blockSize / 4
    ensures i < 12 ==> Ptr(fs, ino, i) == U32(ino.raw, 40 + 4 * i)
    ensures 12 <= i < 12 + fs.geo.blockSize / 4 ==>
              var b := U32(ino.raw, 88);
              && (b == 0 ==> Ptr(fs, ino, i) == 0)
              && (b != 0 && b < |fs.disk| ==>
                    |fs.disk[b]| == fs.geo.blockSize && Ptr(fs, ino, i) == U32(fs.disk[b], 4 * (i - 12)))
    ensures i >= 12 + fs.geo.blockSize / 4 ==> Ptr(fs, ino, i) == 0
  {
    hide Word, U32;
    WordsInBytes(ino.raw, 22, 88);
    if i < 12 {
      WordsInBytes(ino.raw, 10 + i, 40 + 4 * i);
    } else if i < 12 + fs.geo.blockSize / 4 {
      var block := ReadBlock(fs, Indirect(ino));
      assert |block| == fs.geo.blockSize && 4 * (i - 12) + 4 <= |block|;
      WordsInBytes(block, i - 12, 4 * (i - 12));
    }
  }

  /** The size at byte 4; the type in the high four bits of the mode at byte 0: 8 for a
      file, 4 for a directory. */
  lemma FieldsOnDisk(ino: Inode)
    requires |ino.raw| == 128
    ensures Size(ino) == U32(ino.raw, 4)
    ensures IsFile(ino) <==> U16(ino.raw, 0) / 0x1000 == 8
    ensures IsDir(ino) <==> U16(ino.raw, 0) / 0x1000 == 4
  {
    hide Value;
    LowHalf(ino.raw);
  }

  lemma LowHalf(b: Block)
    requires |b| >= 4
    ensures Word(b, 0) % 0x1_0000 == U16(b, 0)
  {
    hide Value;
    var high := Value(b[2]) + 0x100 * Value(b[3]);
    assert Word(b, 0) == 0x1_0000 * high + U16(b, 0);
    DivUnique(Word(b, 0), 0x1_0000, high, U16(b, 0));
  }

  /** The 128 bytes at position `at` of a table that starts at block `table`. */
  predicate InodeIn(fs: Fs, raw: Block, table: nat, at: nat)
    requires fs.geo.blockSize > 0
  {
    var b, o := table + at / fs.geo.blockSize, at % fs.geo.blockSize;
    && o + 128 <= fs.geo.blockSize
    && (b < |fs.disk| ==> |fs.disk[b]| == fs.geo.blockSize && raw == fs.disk[b][o..o + 128])
  }

  /** Inode `id` has 128 bytes in the table of group (id - 1) / inodes per group. */
  lemma SlotOnDisk(fs: Fs, id: nat)
    requires Formatted(fs) && SlotsOk(fs) && HasSlot(fs, id)
    ensures id > 0 && fs.geo.inodesPerGroup > 0 && fs.geo.blockSize > 0
    ensures (id - 1) / fs.geo.inodesPerGroup < |fs.groups|
    ensures InodeIn(fs, InodeAt(fs, id).raw, fs.groups[(id - 1) / fs.geo.inodesPerGroup].inodeTable,
                    (id - 1) % fs.geo.inodesPerGroup * fs.geo.inodeSize)
  {
    hide Formatted;
    FormattedSizes(fs);
    SlotFits(fs, id);
    BlockSized(fs, SlotBlock(fs, id));
  }

  lemma BlockSized(fs: Fs, b: nat)
    requires Formatted(fs)
    ensures b < |fs.disk| ==> |fs.disk[b]| == fs.geo.blockSize
  {
  }

  /** Bit `j` of a byte counts from the lowest. */
  lemma BitOrder(b: bv8)
    ensures (Bit(b, 0) <==> b & 1 != 0) && (Bit(b, 1) <==> b & 2 != 0) && (Bit(b, 2) <==> b & 4 != 0)
    ensures (Bit(b, 3) <==> b & 8 != 0) && (Bit(b, 4) <==> b & 16 != 0) && (Bit(b, 5) <==> b & 32 != 0)
    ensures (Bit(b, 6) <==> b & 64 != 0) && (Bit(b, 7) <==> b & 128 != 0)
  {
  }

  /** Bit `k` of the bitmap in block `b`, where there is one, says whether. */
  predicate SaysBit(fs: Fs, b: nat, k: nat, used: bool) {
    k < 8 * fs.geo.blockSize ==>
      && b < |fs.disk| && |fs.disk[b]| == fs.geo.blockSize
      && (used <==> Bit(fs.disk[b][k / 8], k % 8))
  }

  /** Bit `k` of group `g`'s block bitmap is block g * (blocks per group) + k. */
  lemma BlockBitOnDisk(fs: Fs, g: nat, k: nat, n: nat)
    requires Formatted(fs) && g < |fs.groups| && k < fs.geo.blocksPerGroup && n == g * fs.geo.blocksPerGroup + k
    ensures PerGroup(fs.geo, Blocks) > 0
    ensures SaysBit(fs, fs.groups[g].blockBitmap, k, NumberInUse(fs, Blocks, n))
  {
    hide Formatted, InUse, SaysBit, Bitmap;
    PerGroups(fs);
    BitsOf(fs, g, Blocks, k);
    GroupParts(g, fs.geo.blocksPerGroup, k);
  }

  /** Bit `k` of its inode bitmap is inode g * (inodes per group) + k + 1. */
  lemma InodeBitOnDisk(fs: Fs, g: nat, k: nat, n: nat)
    requires Formatted(fs) && g < |fs.groups| && k < fs.geo.inodesPerGroup && n == g * fs.geo.inodesPerGroup + k + 1
    ensures PerGroup(fs.geo, Inodes) > 0
    ensures SaysBit(fs, fs.groups[g].inodeBitmap, k, NumberInUse(fs, Inodes, n))
  {
    hide Formatted, InUse, SaysBit, Bitmap;
    PerGroups(fs);
    BitsOf(fs, g, Inodes, k);
    GroupParts(g, fs.geo.inodesPerGroup, k);
  }

  lemma GroupParts(g: nat, per: nat, k: nat)
    requires k < per
    ensures (g * per + k) / per == g && (g * per + k) % per == k
  {
    MulCommutes(g, per);
    DivUnique(g * per + k, per, g, k);
  }

  lemma PerGroups(fs: Fs)
    requires Formatted(fs)
    ensures PerGroup(fs.geo, Blocks) > 0 && PerGroup(fs.geo, Inodes) > 0
  {
  }

  lemma BitsOf(fs: Fs, g: nat, kind: Kind, k: nat)
    requires Formatted(fs)
    ensures g < |fs.groups| ==> SaysBit(fs, BitmapOf(fs.groups[g], kind), k, InUse(Bitmap(fs, g, kind), k))
  {
    hide Bit;
    if g < |fs.groups| { assert BitmapOf(fs.groups[g], kind) < |fs.disk|; }
  }

  /** A directory record: the inode number at byte 0, the record's length at byte 4,
      the name's at byte 6, the type at byte 7 (1 for a file, 2 for a directory), and
      the name from byte 8 on. */
  lemma RecordOnDisk(m: Block, o: nat)
    requires o + 8 <= |m| && o + 8 + Value(m[o + 6]) <= |m|
    ensures RecLen(m, o) == Value(m[o + 4]) + 0x100 * Value(m[o + 5]) && NameLen(m, o) == Value(m[o + 6])
    ensures EntryAt(m, o).inode == Value(m[o]) + 0x100 * Value(m[o + 1]) + 0x1_0000 * Value(m[o + 2])
                                   + 0x100_0000 * Value(m[o + 3])
    ensures EntryAt(m, o).kind == Value(m[o + 7]) && EntryAt(m, o).name == m[o + 8..o + 8 + Value(m[o + 6])]
  {
  }

  /** A new inode: a regular file with mode 0644 and one link; every other byte is 0. */
  lemma NewInodeBytes(id: nat)
    ensures var raw := NewInode(id).raw;
      && Word(raw, 0) == 0x81A4 && Word(raw, 6) == 0x1_0000 && IsFile(NewInode(id))
      && forall x: nat :: 8 <= x < 24 || 28 <= x < 128 ==> raw[x] == 0
  {
    hide Value, ByteOf;
    var zero: Block := seq(INODE_BYTES, _ => 0);
    SetWordReads(zero, 0, 0x81A4, 0);
    SetWordReads(SetWord(zero, 0, 0x81A4), 6, 0x1_0000, 0);
    SetWordReads(SetWord(zero, 0, 0x81A4), 6, 0x1_0000, 6);
  }

  lemma HalvesOf(b: Block, i: nat, low: nat, high: nat)
    requires 4 * i + 4 <= |b| && low < 0x1_0000 && high < 0x1_0000 && Word(b, i) == 0x1_0000 * high + low
    ensures U16(b, 4 * i) == low && U16(b, 4 * i + 2) == high
  {
    hide Value;
    assert Word(b, i) == 0x1_0000 * U16(b, 4 * i + 2) + U16(b, 4 * i);
    DivUnique(Word(b, i), 0x1_0000, high, low);
    DivUnique(Word(b, i), 0x1_0000, U16(b, 4 * i + 2), U16(b, 4 * i));
  }

  /** The inode of a created file, on disk: the mode of a regular file with 0644, one
      link, and the size of what was given. */
  lemma CreatedOnDisk(fs: Fs, dirId: nat, name: Block, buf: Block)
    requires MayCreate(fs, dirId, name, buf)
    ensures CreateFile(fs, dirId, name, buf).Some?
    ensures var (u, id) := CreateFile(fs, dirId, name, buf).value;
      && Formatted(u) && SlotsOk(u) && HasSlot(u, id)
      && var raw := InodeAt(u, id).raw;
        U16(raw, 0) == 0x81A4 && U16(raw, 26) == 1 && U32(raw, 4) == |buf|
  {
    hide FsOk, SlotsOk, FileOk, Ptr, Indirect, ReadBlock, SameMarks, SameMap, Apart, Formatted, HasSlot, InodeAt,
         MayCreate, DirOk, IsDir, AddEntry, ListDir, ReadFile, WriteFile, Alloc, NewInode, NumberInUse, CreateFile,
         Stored, BothThere, OnlyMarked, Added, DirReady, Word, U16, U32, Size;
    CreateParts(fs, dirId, name, buf);
    CreateFileLists(fs, dirId, name, buf);
    var f, id, t, ino', u := CreateStates(fs, dirId, name, buf);
    CreatedSlot(fs, dirId, name, buf, f, id, t, ino', u);
    NewInodeBytes(id);
    WrittenFields(f, NewInode(id), buf, ino');
    HalvesOf(ino'.raw, 0, 0x81A4, 0);
    HalvesOf(ino'.raw, 6, 0, 1);
    FieldsOnDisk(ino');
  }

  lemma CreatedSlot(fs: Fs, dirId: nat, name: Block, buf: Block, f: Fs, id: nat, t: Fs, ino': Inode, u: Fs)
    requires MayCreate(fs, dirId, name, buf)
    requires FsOk(fs) && Formatted(fs) && SlotsOk(fs) && HasSlot(fs, dirId) && (f, id) == Alloc(fs, Inodes, 0)
    requires Formatted(f) && SlotsOk(f) && HasSlot(f, id) && Formatted(t) && |ino'.raw| == INODE_BYTES
    requires FsOk(f) && OnlyMarked(fs, f) && Stored(f, NewInode(id), buf, dirId, InodeAt(fs, dirId), t, ino')
    requires Added(t, InodeAt(fs, dirId), id, name, u)
    ensures Formatted(u) && SlotsOk(u) && HasSlot(u, id) && InodeAt(u, id) == ino'
  {
    hide FsOk, SlotsOk, FileOk, Ptr, Indirect, ReadBlock, SameMarks, SameMap, Apart, Formatted, HasSlot, InodeAt,
         MayCreate, DirOk, IsDir, AddEntry, ListDir, ReadFile, WriteFile, Alloc, NewInode, NumberInUse, CreateFile,
         Stored, BothThere, OnlyMarked, Added, DirReady;
    CreateParts(fs, dirId, name, buf);
    var dir := InodeAt(fs, dirId);
    StoredBoth(f, NewInode(id), buf, dirId, dir, t, ino');
    StoredMaps(f, NewInode(id), buf, dirId, dir, t, ino');
    MarkedCounts(fs, f);
    MarkedGeo(fs, f);
    IdIsWord(f, id);
    EntryAdded(t, ino', dirId, dir, name, |buf|, u);
  }

  /** The fields before the pointers, after a write. */
  lemma WrittenFields(f: Fs, ino: Inode, buf: Block, ino': Inode)
    requires Formatted(f) && SlotsOk(f) && HasSlot(f, ino.id) && |ino.raw| == INODE_BYTES && IsFile(ino)
    requires |buf| < WORD && ino' == WriteFile(f, ino, buf).1
    ensures |ino'.raw| == INODE_BYTES && Word(ino'.raw, 0) == Word(ino.raw, 0) && Word(ino'.raw, 6) == Word(ino.raw, 6)
    ensures Size(ino') == |buf|
  {
    hide Formatted, SlotsOk, HasSlot, IsFile, WriteFile, WriteFrom, Word, Resized, SetWord;
    var ino0 := Resized(ino, |buf|);
    WriteFileIs(f, ino, buf);
    WriteFromWords(f, ino0, buf, 0, 0, 0);
    WriteFromWords(f, ino0, buf, 0, 0, 1);
    WriteFromWords(f, ino0, buf, 0, 0, 6);
    ResizedWords(ino, |buf|);
    SizeIs(ino0, ino');
  }

  lemma ResizedWords(ino: Inode, size: nat)
    requires |ino.raw| == INODE_BYTES && size < WORD
    ensures Word(Resized(ino, size).raw, 0) == Word(ino.raw, 0) && Word(Resized(ino, size).raw, 6) == Word(ino.raw, 6)
    ensures Size(Resized(ino, size)) == size
  {
    hide Word, SetWord;
    SetWordReads(ino.raw, 1, size, 0);
    SetWordReads(ino.raw, 1, size, 1);
    SetWordReads(ino.raw, 1, size, 6);
  }

  /** A new record starts behind the last one, at the next multiple of four after its
      name; when the records start at multiples of four, so does the new one. */
  lemma InsertAligned(m: Block, bs: nat)
    requires Chained(m, bs)
    ensures var last := LastOffset(m, bs, 0); var n := NewOffset(m, bs);
      && last + 8 + NameLen(m, last) <= n < last + 12 + NameLen(m, last) && (n - last) % 4 == 0
      && (last % 4 == 0 ==> n % 4 == 0)
  {
    hide Tiles, LastOffset, NameLen;
  }

  lemma {:induction false} PickedAt(fs: Fs, kind: Kind, preferred: nat, tried: nat) returns (d: nat)
    requires tried <= |fs.groups| && Pick(fs, kind, preferred, tried) < |fs.groups|
    ensures tried <= d < |fs.groups| && Pick(fs, kind, preferred, tried) == (preferred + d) % |fs.groups|
    ensures Usable(fs, kind, Pick(fs, kind, preferred, tried))
    ensures forall e: nat :: tried <= e < d ==> !Usable(fs, kind, Nth(fs, preferred, e))
    decreases |fs.groups| - tried
  {
    hide Usable;
    if Usable(fs, kind, Nth(fs, preferred, tried)) {
      d := tried;
    } else {
      d := PickedAt(fs, kind, preferred, tried + 1);
    }
  }

  /** Which number: the first free one of the first group, from the preferred one on and
      around, that has one. Blocks count from 0, inodes from 1. */
  lemma AllocPrefers(fs: Fs, kind: Kind, preferred: nat) returns (d: nat, f: nat)
    requires Formatted(fs) && Pick(fs, kind, preferred, 0) < |fs.groups|
    ensures d < |fs.groups| && forall e: nat :: e < d ==> !Usable(fs, kind, Nth(fs, preferred, e))
    ensures var g := (preferred + d) % |fs.groups|;
      && g < |fs.groups| && Usable(fs, kind, g)
      && Alloc(fs, kind, preferred).1
         == (if kind.Blocks? then g * fs.geo.blocksPerGroup + f else g * fs.geo.inodesPerGroup + f + 1)
      && !InUse(Bitmap(fs, g, kind), f) && forall x: nat :: x < f ==> InUse(Bitmap(fs, g, kind), x)
  {
    hide Usable, Formatted, TakeBit, Bitmap, InUse;
    d := PickedAt(fs, kind, preferred, 0);
    var g := Pick(fs, kind, preferred, 0);
    f := FirstZero(Bitmap(fs, g, kind), Limit(fs.geo, kind), 0);
    UsableHas(fs, kind, g);
  }

  lemma UsableHas(fs: Fs, kind: Kind, g: nat)
    requires Usable(fs, kind, g)
    ensures FirstZero(Bitmap(fs, g, kind), Limit(fs.geo, kind), 0) < Limit(fs.geo, kind)
  {
  }
}
