/** Writing when blocks run out: how much of the buffer is stored. */
module Ext2ShortWrites {
  import opened Bits
  import opened ByteBlocks
  import opened Options
  import opened Ext2Alloc
  import opened Ext2Files
  import opened Ext2FileIO
  import opened Ext2RoundTrip

  /** Block 0 is in use, no bitmap, and reads all zero: the code that could not get an
      indirect block reads its pointers from there. */
  ghost predicate BootClear(fs: Fs, ino: Inode)
    requires Formatted(fs) && |ino.raw| == INODE_BYTES
  {
    Foreign(fs, ino, 0) && ClearAt(fs, 0)
  }

  // ----- a step that finds no block

  lemma NoneFree(fs: Fs)
    requires FsOk(fs) && fs.freeBlocks == 0
    ensures Formatted(fs) && Alloc(fs, Blocks, 0) == (fs, 0)
  {
    hide Accounted, PaddingUsed, Formatted, NumberInUse, IsBitmap, IsTable, Alloc;
    AllocAccounts(fs, Blocks, 0);
  }

  lemma DirectFails(fs: Fs, ino: Inode, i: nat)
    requires FsOk(fs) && Formatted(fs) && |ino.raw| == INODE_BYTES && i < DIRECT
    requires Ptr(fs, ino, i) == 0 && fs.freeBlocks == 0
    ensures GetOrAlloc(fs, ino, i).2 == 0
  {
    hide FsOk, Formatted, Alloc, Word, SetField;
    NoneFree(fs);
  }

  lemma EntryFails(fs: Fs, ino: Inode, i: nat)
    requires FsOk(fs) && Formatted(fs) && |ino.raw| == INODE_BYTES && DIRECT <= i < MaxBlocks(fs.geo)
    requires Indirect(ino) != 0 && Ptr(fs, ino, i) == 0 && fs.freeBlocks == 0
    ensures GetOrAlloc(fs, ino, i).2 == 0
  {
    hide FsOk, Formatted, Alloc, Word, SetField, ReadBlock;
    NoneFree(fs);
    PtrIndirect(fs, ino, i);
  }

  /** Without a free block for the indirect block, the pointer is read from block 0. */
  lemma BootRead(fs: Fs, ino: Inode, i: nat)
    requires FsOk(fs) && Formatted(fs) && |ino.raw| == INODE_BYTES && DIRECT <= i < MaxBlocks(fs.geo)
    requires Indirect(ino) == 0 && fs.freeBlocks == 0
    ensures |ReadBlock(fs, 0)| == 4 * Words(fs.geo)
    ensures GetOrAlloc(fs, ino, i).2 == Word(ReadBlock(fs, 0), i - DIRECT)
  {
    hide FsOk, Formatted, Alloc, SetField, ReadBlock, Word;
    NoneFree(fs);
    BlockWords(fs, 0);
    SetFieldReads(ino, 22, 0);
    assert Indirect(SetField(ino, 22, 0)) == 0;
  }

  /** Fewer free blocks than the index needs: the call yields none. */
  lemma GetOrAllocFails(fs: Fs, ino: Inode, i: nat)
    requires FsOk(fs) && Formatted(fs) && FileOk(fs, ino) && |ino.raw| == INODE_BYTES && i < MaxBlocks(fs.geo)
    requires IndirectReady(fs, ino, i) && ClearAt(fs, 0) && fs.freeBlocks < NeedAt(fs, ino, i)
    ensures GetOrAlloc(fs, ino, i).2 == 0
  {
    hide FsOk, Formatted, FileOk, GetOrAlloc, GetIndirect, IndirectReady, Ptr, Indirect, ReadBlock, Word, MapStep,
         DataBlock;
    if i < DIRECT {
      DirectFails(fs, ino, i);
    } else if Indirect(ino) != 0 {
      EntryFails(fs, ino, i);
    } else if fs.freeBlocks == 0 {
      BootRead(fs, ino, i);
      BlockWords(fs, 0);
    } else {
      AddedIndirect(fs, ino, i);
      var (f1, ino1) := GetIndirect(fs, ino);
      EntryFails(f1, ino1, i);
      GetThrough(fs, ino, i);
    }
  }

  // ----- the loop

  lemma BootStays(fs: Fs, ino: Inode, t: Fs, ino': Inode)
    requires Formatted(fs) && |ino.raw| == INODE_BYTES && Formatted(t) && |ino'.raw| == INODE_BYTES
    requires BootClear(fs, ino) && t.geo == fs.geo && |t.disk| == |fs.disk|
    requires Foreign(t, ino', 0) && 0 < |fs.disk| && t.disk[0] == fs.disk[0]
    ensures BootClear(t, ino')
  {
    hide Formatted, Foreign, Clear;
    BlockWords(fs, 0);
  }

  lemma GotForeign(fs: Fs, ino: Inode, t: Fs, ino': Inode, i: nat, b: nat, c: nat)
    requires Formatted(fs) && |ino.raw| == INODE_BYTES && Formatted(t) && |ino'.raw| == INODE_BYTES
    requires GotBlock(fs, ino, t, ino', i, b) && Foreign(fs, ino, c)
    ensures Foreign(t, ino', c) && c < |fs.disk| && |t.disk| == |fs.disk| && t.disk[c] == fs.disk[c]
  {
    hide Formatted, FsOk, FileOk, Taken, IsBitmap, PtrsUpdated, DataBlock, Ptr, Indirect;
  }

  /** With too few free blocks the loop stops short. */
  lemma {:induction false} WriteShort(fs: Fs, ino: Inode, buf: Block, i: nat, w: nat)
    requires FsOk(fs) && Formatted(fs) && FileOk(fs, ino) && |ino.raw| == INODE_BYTES && w <= |buf|
    requires w == |buf| || w == i * fs.geo.blockSize
    requires |buf| <= MaxBlocks(fs.geo) * fs.geo.blockSize
    requires FreeClear(fs) && BootClear(fs, ino) && fs.freeBlocks < Needed(fs, ino, i, w, |buf|)
    ensures WriteFrom(fs, ino, buf, i, w).2 < |buf|
    decreases |buf| - w
  {
    hide FsOk, FileOk, Formatted, Word, Ptr, ReadBlock, Needed, NeedAt, GetOrAlloc, WriteBlock, IndirectReady,
         Indirect, CeilDiv, GotBlock, FreeClear, DataBlock, FreeKept, Foreign, ClearAt;
    FormattedSize(fs);
    if w == |buf| {
      PastEnd(fs, ino, i, w, |buf|);
    } else {
      var bs := fs.geo.blockSize;
      var n := Least(|buf| - w, bs);
      BlockIndex(i, bs, |buf|, MaxBlocks(fs.geo));
      ReadyAt(fs, ino, i);
      var (f1, ino1, b) := GetOrAlloc(fs, ino, i);
      if fs.freeBlocks < NeedAt(fs, ino, i) {
        GetOrAllocFails(fs, ino, i);
      } else {
        GetOrAllocOk(fs, ino, i);
        GetOrAllocFree(fs, ino, i);
        GotParts(fs, ino, f1, ino1, i, b);
        GotData(fs, ino, f1, ino1, i, b);
        GotForeign(fs, ino, f1, ino1, i, b, 0);
        var data := Splice(ReadBlock(f1, b), 0, buf[w..w + n]);
        DataWritten(f1, ino1, i, data);
        WriteFree(f1, b, data);
        var f2 := WriteBlock(f1, b, data);
        ClearKept(fs, f1, f2);
        BootStays(fs, ino, f2, ino1);
        NeededStep(fs, ino, f2, ino1, i, w, |buf|, b);
        if w + n == |buf| {
          PastEnd(f2, ino1, i + 1, w + n, |buf|);
          PastEnd(f2, ino1, i + 1, w + bs, |buf|);
        }
        WriteShort(f2, ino1, buf, i + 1, w + n);
      }
    }
  }

  /** No index past the indirect block's last entry gets a block. */
  lemma PastLastIndex(fs: Fs, ino: Inode, i: nat)
    requires Formatted(fs) && |ino.raw| == INODE_BYTES && i >= MaxBlocks(fs.geo)
    ensures GetOrAlloc(fs, ino, i).2 == 0
  {
    hide Formatted, Alloc, Word, ReadBlock, WriteBlock, SetField;
  }

  lemma {:induction false} WriteBounded(fs: Fs, ino: Inode, buf: Block, i: nat, w: nat)
    requires Formatted(fs) && |ino.raw| == INODE_BYTES && w <= |buf|
    requires i <= MaxBlocks(fs.geo) && w <= i * fs.geo.blockSize
    ensures WriteFrom(fs, ino, buf, i, w).2 <= MaxBlocks(fs.geo) * fs.geo.blockSize
    decreases |buf| - w
  {
    hide Formatted, GetOrAlloc, ReadBlock, WriteBlock, Ptr, MaxBlocks;
    FormattedSize(fs);
    var bs := fs.geo.blockSize;
    if i < MaxBlocks(fs.geo) {
      BlocksBelow(i, MaxBlocks(fs.geo), bs);
      var n := Least(|buf| - w, bs);
      var (f1, ino1, b) := GetOrAlloc(fs, ino, i);
      if w < |buf| && b != 0 {
        WriteBounded(WriteBlock(f1, b, Splice(ReadBlock(f1, b), 0, buf[w..w + n])), ino1, buf, i + 1, w + n);
      }
    } else {
      PastLastIndex(fs, ino, i);
    }
  }

  lemma BlocksBelow(i: nat, m: nat, bs: nat)
    requires i < m
    ensures i * bs <= m * bs && (i + 1) * bs == i * bs + bs
  {
    MulGap(bs, i, m);
    MulCommutes(i, bs);
    MulCommutes(m, bs);
  }

  // ----- the size

  lemma WordUntouched(ino: Inode, k: nat, w: nat, x: nat)
    requires |ino.raw| == INODE_BYTES && k < 32 && x < 32 && k != x
    ensures Word(SetField(ino, k, w).raw, x) == Word(ino.raw, x)
  {
    hide Value;
  }

  lemma GetOrAllocWords(fs: Fs, ino: Inode, i: nat, x: nat)
    requires Formatted(fs) && |ino.raw| == INODE_BYTES && x < 10
    ensures Word(GetOrAlloc(fs, ino, i).1.raw, x) == Word(ino.raw, x)
  {
    hide Formatted, Alloc, Word, ReadBlock, WriteBlock, SetField;
    var n := Alloc(fs, Blocks, 0).1;
    if i < DIRECT { WordUntouched(ino, 10 + i, n, x); }
    WordUntouched(ino, 22, n, x);
  }

  /** A write changes no field of the inode before its pointers. */
  lemma {:induction false} WriteFromWords(fs: Fs, ino: Inode, buf: Block, i: nat, w: nat, x: nat)
    requires Formatted(fs) && |ino.raw| == INODE_BYTES && w <= |buf| && x < 10
    ensures Word(WriteFrom(fs, ino, buf, i, w).1.raw, x) == Word(ino.raw, x)
    decreases |buf| - w
  {
    hide Formatted, GetOrAlloc, ReadBlock, WriteBlock, Word;
    FormattedSize(fs);
    if w < |buf| {
      GetOrAllocWords(fs, ino, i, x);
      var n := Least(|buf| - w, fs.geo.blockSize);
      var (f1, ino1, b) := GetOrAlloc(fs, ino, i);
      if b != 0 {
        WriteFromWords(WriteBlock(f1, b, Splice(ReadBlock(f1, b), 0, buf[w..w + n])), ino1, buf, i + 1, w + n, x);
      }
    }
  }

  /** The write returns the whole length exactly when the pointers reach that far and
      there are as many free blocks as it needs. The size stored is that of the whole buffer in any case. */
  lemma WholeWrittenExactly(fs: Fs, ino: Inode, buf: Block)
    requires FsOk(fs) && Formatted(fs) && SlotsOk(fs) && HasSlot(fs, ino.id) && |ino.raw| == INODE_BYTES
    requires FileOk(fs, ino) && IsFile(ino) && |buf| < WORD
    requires FreeClear(fs) && BootClear(fs, ino)
    ensures var (t, ino', n) := WriteFile(fs, ino, buf);
      && n.Some? && n.value <= |buf| && Size(ino') == |buf|
      && (n.value == |buf|
          <==> |buf| <= MaxBlocks(fs.geo) * fs.geo.blockSize
               && fs.freeBlocks >= Needed(fs, Resized(ino, |buf|), 0, 0, |buf|))
  {
    hide FsOk, Formatted, SlotsOk, HasSlot, FileOk, IsFile, FreeClear, BootClear, Needed, Resized, Size, Word, Ptr,
         WriteFrom, WriteInode, FileStored;
    var ino0 := Resized(ino, |buf|);
    ResizedSame(fs, ino, |buf|);
    WriteFromWords(fs, ino0, buf, 0, 0, 1);
    SizeIs(ino0, WriteFrom(fs, ino0, buf, 0, 0).1);
    WriteFileIs(fs, ino, buf);
    if |buf| > MaxBlocks(fs.geo) * fs.geo.blockSize {
      WriteBounded(fs, ino0, buf, 0, 0);
    } else if fs.freeBlocks >= Needed(fs, ino0, 0, 0, |buf|) {
      WriteThenReadWhenClear(fs, ino, buf);
    } else {
      ResizedOk(fs, ino, ino0);
      WriteShort(fs, ino0, buf, 0, 0);
    }
  }

  lemma SizeIs(ino: Inode, ino': Inode)
    requires |ino.raw| == INODE_BYTES == |ino'.raw| && Word(ino'.raw, 1) == Word(ino.raw, 1)
    ensures Size(ino') == Size(ino)
  {
  }

  lemma WriteFileIs(fs: Fs, ino: Inode, buf: Block)
    requires Formatted(fs) && HasSlot(fs, ino.id) && SlotsOk(fs) && |ino.raw| == INODE_BYTES && IsFile(ino)
    ensures var (t, ino', n) := WriteFile(fs, ino, buf); var r := WriteFrom(fs, Resized(ino, |buf|), buf, 0, 0);
      ino' == r.1 && n == Some(r.2)
  {
    hide Formatted, HasSlot, SlotsOk, IsFile, WriteFrom, Resized, WriteInode;
  }

  lemma ResizedOk(fs: Fs, ino: Inode, ino0: Inode)
    requires Formatted(fs) && |ino.raw| == INODE_BYTES == |ino0.raw| && Indirect(ino0) == Indirect(ino)
    requires forall j: nat :: Ptr(fs, ino0, j) == Ptr(fs, ino, j)
    ensures FileOk(fs, ino) ==> FileOk(fs, ino0)
    ensures BootClear(fs, ino) ==> BootClear(fs, ino0)
  {
    hide Formatted, Ptr, Indirect, DataBlock, Taken, IsBitmap, ClearAt;
  }

  // ----- what a write leaves in the file's old blocks

  lemma OwnBlockTaken(fs: Fs, ino: Inode, i: nat)
    requires Formatted(fs) && |ino.raw| == INODE_BYTES && i < MaxBlocks(fs.geo) && Ptr(fs, ino, i) != 0
    ensures GetOrAlloc(fs, ino, i) == (fs, ino, Ptr(fs, ino, i))
  {
    hide Formatted, Alloc, Word, SetField, ReadBlock, WriteBlock;
  }

  /** How many bytes of block `j` a buffer of `size` bytes covers. */
  function Filled(size: nat, j: nat, bs: nat): (r: nat)
    ensures r <= bs
  {
    if size <= j * bs then 0 else if size >= (j + 1) * bs then bs else size - j * bs
  }

  /** Block `j` of the file is at `c` in both states, the same from byte `r` on. */
  ghost predicate SameBehind(fs: Fs, t: Fs, ino': Inode, j: nat, c: nat, r: nat)
    requires Formatted(fs) && Formatted(t) && |ino'.raw| == INODE_BYTES && t.geo == fs.geo && r <= fs.geo.blockSize
  {
    Ptr(t, ino', j) == c && ReadBlock(t, c)[r..] == ReadBlock(fs, c)[r..]
  }

  lemma FilledHere(size: nat, i: nat, bs: nat)
    requires bs > 0 && i * bs < size
    ensures Filled(size, i, bs) == Least(size - i * bs, bs)
  {
    MulStepUp(i, bs);
  }

  lemma SplicedRest(b: Block, data: Block)
    requires |data| <= |b|
    ensures Splice(b, 0, data)[|data|..] == b[|data|..]
  {
  }

  /** The blocks a file has stay its blocks, and their bytes behind the data written
      stay what they were: the rest of the last block, and all blocks behind it. */
  lemma {:induction false} OldBytesKept(fs: Fs, ino: Inode, buf: Block, i: nat, w: nat, j: nat)
    requires FsOk(fs) && FileOk(fs, ino) && |ino.raw| == INODE_BYTES && w <= |buf|
    requires w == |buf| || w == i * fs.geo.blockSize
    requires |buf| <= MaxBlocks(fs.geo) * fs.geo.blockSize
    requires WriteReady(fs, ino, buf, i, w) && fs.freeBlocks >= Needed(fs, ino, i, w, |buf|)
    requires j < MaxBlocks(fs.geo) && Ptr(fs, ino, j) != 0
    ensures var (t, ino', n) := WriteFrom(fs, ino, buf, i, w);
      SameBehind(fs, t, ino', j, Ptr(fs, ino, j), Filled(|buf|, j, fs.geo.blockSize))
    decreases |buf| - w
  {
    hide FsOk, FileOk, Formatted, Word, Foreign, Ptr, ReadBlock, IsTable, DataBlock, Needed, NeedAt, GetOrAlloc,
         WriteBlock, IndirectReady, Indirect, MapStep, CeilDiv, Filled;
    FsParts(fs);
    FormattedSize(fs);
    if w < |buf| {
      var bs := fs.geo.blockSize;
      var n := Least(|buf| - w, bs);
      BlockIndex(i, bs, |buf|, MaxBlocks(fs.geo));
      NeededHere(fs, ino, i, w, |buf|);
      GetOrAllocOk(fs, ino, i);
      var (f1, ino1, b) := GetOrAlloc(fs, ino, i);
      GotParts(fs, ino, f1, ino1, i, b);
      var data := Splice(ReadBlock(f1, b), 0, buf[w..w + n]);
      DataWritten(f1, ino1, i, data);
      var f2 := WriteBlock(f1, b, data);
      NeededStep(fs, ino, f2, ino1, i, w, |buf|, b);
      if w + n == |buf| { PastEnd(f2, ino1, i + 1, w + n, |buf|); }
      OtherData(fs, ino, f1, ino1, i, b);
      if j == i {
        OwnBlockTaken(fs, ino, i);
        FilledHere(|buf|, i, bs);
        SplicedRest(ReadBlock(f1, b), buf[w..w + n]);
      }
      OldBytesKept(f2, ino1, buf, i + 1, w + n, j);
    }
  }
}
