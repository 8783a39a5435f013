/** A file written and read back, with its inode saved in the inode table. */
module Ext2RoundTrip {
  import opened Bits
  import opened Options
  import opened ByteBlocks
  import opened Ext2Alloc
  import opened Ext2Files
  import opened Ext2FileIO

  /** `fs_ext2_write_file`: the count it returns is missing for a non-file. */
  function WriteFile(fs: Fs, ino: Inode, buf: Block): (r: (Fs, Inode, Option<nat>))
    requires Formatted(fs) && HasSlot(fs, ino.id) && SlotsOk(fs) && |ino.raw| == INODE_BYTES
    ensures Formatted(r.0) && |r.1.raw| == INODE_BYTES
  {
    if !IsFile(ino) then (fs, ino, None)
    else
      var (t, ino', n) := WriteFrom(fs, Resized(ino, |buf|), buf, 0, 0);
      WriteFromTables(fs, Resized(ino, |buf|), buf, 0, 0);
      SlotFits(t, ino.id);
      (WriteInode(t, ino'), ino', Some(n))
  }

  function Resized(ino: Inode, size: nat): (r: Inode)
    requires |ino.raw| == INODE_BYTES
    ensures |r.raw| == INODE_BYTES && r.id == ino.id
  {
    if size != Size(ino) then SetField(ino, 1, size) else ino
  }

  /** `fs_ext2_read_file_contents`. */
  function ReadFile(fs: Fs, ino: Inode, size: nat): Option<Block>
    requires Formatted(fs) && |ino.raw| == INODE_BYTES
  {
    if !IsFile(ino) then None else Some(ReadFrom(fs, ino, size, 0, 0))
  }

  // ----- the inode tables stay where they are

  ghost predicate SameTables(fs: Fs, t: Fs) {
    && t.geo == fs.geo && |t.groups| == |fs.groups|
    && forall g :: 0 <= g < |fs.groups| ==> t.groups[g].inodeTable == fs.groups[g].inodeTable
  }

  lemma AllocTables(fs: Fs, kind: Kind, preferred: nat)
    requires Formatted(fs)
    ensures SameTables(fs, Alloc(fs, kind, preferred).0)
  {
    hide Formatted, Usable, FirstZero;
    var g := Pick(fs, kind, preferred, 0);
    if g < |fs.groups| {
      PickedFree(fs, kind, preferred);
      LimitFits(fs, kind);
    }
  }

  lemma PickedFree(fs: Fs, kind: Kind, preferred: nat)
    requires Pick(fs, kind, preferred, 0) < |fs.groups|
    ensures FreeIn(fs.groups[Pick(fs, kind, preferred, 0)], kind) > 0
  {
  }

  lemma GetOrAllocTables(fs: Fs, ino: Inode, i: nat)
    requires Formatted(fs) && |ino.raw| == INODE_BYTES
    ensures SameTables(fs, GetOrAlloc(fs, ino, i).0)
  {
    hide Formatted, Alloc, Word, SetField, ReadBlock;
    AllocTables(fs, Blocks, 0);
    if i >= DIRECT {
      AllocTables(GetIndirect(fs, ino).0, Blocks, 0);
    }
  }

  lemma {:induction false} WriteFromTables(fs: Fs, ino: Inode, buf: Block, i: nat, w: nat)
    requires Formatted(fs) && |ino.raw| == INODE_BYTES && w <= |buf|
    ensures SameTables(fs, WriteFrom(fs, ino, buf, i, w).0)
    ensures SlotsOk(fs) ==> SlotsOk(WriteFrom(fs, ino, buf, i, w).0)
    decreases |buf| - w
  {
    hide Formatted, GetOrAlloc, SlotsOk, Splice, ReadBlock;
    if w < |buf| {
      var n := Least(|buf| - w, fs.geo.blockSize);
      GetOrAllocTables(fs, ino, i);
      var (f1, ino1, b) := GetOrAlloc(fs, ino, i);
      if b != 0 {
        FormattedSize(fs);
        var f2 := WriteBlock(f1, b, Splice(ReadBlock(f1, b), 0, buf[w..w + n]));
        WriteFromTables(f2, ino1, buf, i + 1, w + n);
      }
    }
    var t := WriteFrom(fs, ino, buf, i, w).0;
    if SlotsOk(fs) { SlotsStay(fs, t); }
  }

  lemma SlotsStay(fs: Fs, t: Fs)
    requires Formatted(fs) && Formatted(t) && SameTables(fs, t) && SlotsOk(fs)
    ensures SlotsOk(t)
  {
    hide Formatted;
    FormattedSizes(fs);
    FormattedSizes(t);
    forall g, b: nat | 0 <= g < |fs.groups| ensures InTable(t, g, b) <==> InTable(fs, g, b) {
    }
  }

  lemma SlotStays(fs: Fs, t: Fs, id: nat)
    requires Formatted(fs) && Formatted(t) && SameTables(fs, t) && HasSlot(fs, id)
    ensures HasSlot(t, id) && SlotBlock(t, id) == SlotBlock(fs, id) && SlotOffset(t, id) == SlotOffset(fs, id)
  {
    hide Formatted;
    FormattedSizes(fs);
  }

  // ----- the inode saved

  /** The saved inode reads back, and no other slot of the table changes. */
  lemma InodeSaved(fs: Fs, ino: Inode, id: nat)
    requires FsOk(fs) && Formatted(fs) && SlotsOk(fs) && HasSlot(fs, ino.id) && HasSlot(fs, id)
             && |ino.raw| == INODE_BYTES
    ensures SlotOffset(fs, ino.id) + INODE_BYTES <= fs.geo.blockSize
            && SlotOffset(fs, id) + INODE_BYTES <= fs.geo.blockSize
    ensures var t := WriteInode(fs, ino);
      && SameTables(fs, t) && HasSlot(t, id) && SlotOffset(t, id) + INODE_BYTES <= t.geo.blockSize
      && ReadInode(t, id) == if id == ino.id then ino else ReadInode(fs, id)
  {
    hide FsOk, Formatted, SlotsOk, IsTable;
    SlotFits(fs, ino.id);
    SlotFits(fs, id);
    SlotInTable(fs, ino.id);
    TableInRange(fs, SlotBlock(fs, ino.id));
    SlotInTable(fs, id);
    TableInRange(fs, SlotBlock(fs, id));
    var t := WriteInode(fs, ino);
    SlotStays(fs, t, id);
    if id != ino.id { SlotsApart(fs, ino.id, id); }
    hide SlotOffset, SlotBlock, HasSlot;
  }

  lemma TableInRange(fs: Fs, b: nat)
    requires FsOk(fs) && IsTable(fs, b)
    ensures Formatted(fs) && b < |fs.disk| && !IsBitmap(fs, b) && !DataBlock(fs, b) && Taken(fs, b)
  {
    hide Formatted, IsBitmap, Taken, IsTable, Accounted, PaddingUsed;
  }

  /** Only the size word changes with the size. */
  lemma ResizedSame(fs: Fs, ino: Inode, size: nat)
    requires Formatted(fs) && |ino.raw| == INODE_BYTES && size < WORD
    ensures var r := Resized(ino, size);
      && Size(r) == size && Word(r.raw, 0) == Word(ino.raw, 0) && Indirect(r) == Indirect(ino)
      && forall j: nat :: Ptr(fs, r, j) == Ptr(fs, ino, j)
  {
    hide Formatted, Word, SetField;
    SetFieldReads(ino, 1, size);
    var r := Resized(ino, size);
    assert Indirect(r) == Indirect(ino);
    forall j: nat ensures Ptr(fs, r, j) == Ptr(fs, ino, j) {
      SamePtrs(fs, ino, r, j);
    }
  }

  /** Two inodes with the same pointers have the same blocks. */
  lemma SameFile(fs: Fs, ino: Inode, r: Inode)
    requires Formatted(fs) && |ino.raw| == INODE_BYTES == |r.raw| && Indirect(r) == Indirect(ino)
    requires forall j: nat :: Ptr(fs, r, j) == Ptr(fs, ino, j)
    ensures FileOk(fs, ino) ==> FileOk(fs, r)
    ensures forall c: nat :: Foreign(fs, r, c) <==> Foreign(fs, ino, c)
  {
    hide Formatted, Ptr, Indirect, Taken, DataBlock, IsBitmap;
  }

  /** A block outside the file rewritten: the file's map and data are as before. */
  lemma OutsideWritten(fs: Fs, ino: Inode, b: nat, data: Block)
    requires FsOk(fs) && Formatted(fs) && FileOk(fs, ino) && |ino.raw| == INODE_BYTES && |data| == fs.geo.blockSize
    requires b < |fs.disk| && !IsBitmap(fs, b) && !DataBlock(fs, b)
    ensures var t := WriteBlock(fs, b, data);
      && FsOk(t) && FileOk(t, ino)
      && (forall j: nat ::
            Ptr(t, ino, j) == Ptr(fs, ino, j)
            && (Ptr(fs, ino, j) != 0 ==> ReadBlock(t, Ptr(fs, ino, j)) == ReadBlock(fs, Ptr(fs, ino, j))))
      && (forall c: nat :: Foreign(fs, ino, c) && c != b ==>
            c < |fs.disk| && Foreign(t, ino, c) && t.disk[c] == fs.disk[c])
  {
    hide FsOk, Formatted, Word, WriteBlock, Taken, IsBitmap, IsTable, Ptr, Indirect, DataBlock;
    WriteKeepsAny(fs, b, data);
    var t := WriteBlock(fs, b, data);
    DataRange(fs);
    forall j: nat
      ensures Ptr(t, ino, j) == Ptr(fs, ino, j)
      ensures Ptr(fs, ino, j) != 0 ==> ReadBlock(t, Ptr(fs, ino, j)) == ReadBlock(fs, Ptr(fs, ino, j))
    {
      PtrIndirect(fs, ino, j);
      PtrIndirect(t, ino, j);
      PtrPast(fs, ino, j);
      PtrPast(t, ino, j);
    }
    forall c: nat | Foreign(fs, ino, c) ensures c < |fs.disk| { ForeignRange(fs, ino, c); }
  }

  lemma PtrPast(fs: Fs, ino: Inode, j: nat)
    requires Formatted(fs) && |ino.raw| == INODE_BYTES
    ensures j >= MaxBlocks(fs.geo) ==> Ptr(fs, ino, j) == 0
  {
    hide Formatted, Word;
  }

  lemma {:induction false} SameReads(fs: Fs, t: Fs, ino: Inode, size: nat, i: nat, w: nat)
    requires Formatted(fs) && Formatted(t) && |ino.raw| == INODE_BYTES && t.geo == fs.geo
    requires forall j: nat :: Ptr(t, ino, j) == Ptr(fs, ino, j)
                              && (Ptr(fs, ino, j) != 0
                                 ==> ReadBlock(t, Ptr(fs, ino, j)) == ReadBlock(fs, Ptr(fs, ino, j)))
    ensures ReadFrom(t, ino, size, i, w) == ReadFrom(fs, ino, size, i, w)
    decreases size - w
  {
    hide Formatted, Ptr, ReadBlock, Word;
    FormattedSize(fs);
    if w < size {
      SameReads(fs, t, ino, size, i + 1, w + Least(size - w, fs.geo.blockSize));
    }
  }

  /** The block of an inode slot belongs to no file. */
  lemma SlotForeign(fs: Fs, ino: Inode, id: nat)
    requires FsOk(fs) && Formatted(fs) && SlotsOk(fs) && FileOk(fs, ino) && |ino.raw| == INODE_BYTES && HasSlot(fs, id)
    ensures Foreign(fs, ino, SlotBlock(fs, id)) && SlotBlock(fs, id) < |fs.disk|
  {
    hide FsOk, Formatted, SlotsOk, IsTable, SlotBlock, Taken, IsBitmap, Ptr, Indirect, DataBlock;
    FormattedSizes(fs);
    SlotInTable(fs, id);
    TableInRange(fs, SlotBlock(fs, id));
  }

  /** Everything a successful write of `buf` to `ino` promises. */
  ghost predicate FileStored(fs: Fs, ino: Inode, buf: Block, t: Fs, ino': Inode)
    requires Formatted(fs) && SlotsOk(fs) && HasSlot(fs, ino.id) && |ino.raw| == INODE_BYTES
    requires Formatted(t) && |ino'.raw| == INODE_BYTES
  {
    && FsOk(t) && FileOk(t, ino') && SameTables(fs, t) && SlotsOk(t) && |t.disk| == |fs.disk|
    && ino'.id == ino.id && Size(ino') == |buf| && IsFile(ino')
    && ReadFile(t, ino', |buf|) == Some(buf)
    && (forall id: nat :: HasSlot(fs, id) ==> SlotReads(fs, t, id, if id == ino.id then ino' else InodeAt(fs, id)))
    && (forall c: nat :: Foreign(fs, ino, c) && c != SlotBlock(fs, ino.id) ==>
          Foreign(t, ino', c) && t.disk[c] == fs.disk[c])
  }

  function InodeAt(fs: Fs, id: nat): (r: Inode)
    requires Formatted(fs) && SlotsOk(fs) && HasSlot(fs, id)
    ensures |r.raw| == INODE_BYTES
  {
    SlotFits(fs, id);
    ReadInode(fs, id)
  }

  predicate SlotReads(fs: Fs, t: Fs, id: nat, ino: Inode)
    requires Formatted(t) && Sized(fs.geo) && HasSlot(fs, id)
  {
    HasSlot(t, id) && SlotOffset(t, id) + INODE_BYTES <= t.geo.blockSize && ReadInode(t, id) == ino
  }

  /** Saving the inode after the data loop completes the write. */
  lemma InodeStored(fs: Fs, ino: Inode, buf: Block, f: Fs, ino': Inode)
    requires FsOk(fs) && Formatted(fs) && SlotsOk(fs) && HasSlot(fs, ino.id) && |ino.raw| == INODE_BYTES
    requires FileOk(fs, ino)
    requires FsOk(f) && Formatted(f) && |ino'.raw| == INODE_BYTES && FileOk(f, ino') && SameTables(fs, f) && SlotsOk(f)
    requires |f.disk| == |fs.disk| && ino'.id == ino.id && Size(ino') == |buf| && IsFile(ino')
    requires ReadFrom(f, ino', |buf|, 0, 0) == buf
    requires forall c: nat :: Foreign(fs, ino, c) ==> c < |fs.disk| && Foreign(f, ino', c) && f.disk[c] == fs.disk[c]
    ensures HasSlot(f, ino'.id) && SlotOffset(f, ino'.id) + INODE_BYTES <= f.geo.blockSize
    ensures FileStored(fs, ino, buf, WriteInode(f, ino'), ino')
  {
    hide FsOk, Formatted, SlotsOk, FileOk, Foreign, IsFile, Size, ReadBlock, Ptr, SlotBlock, SlotOffset, SameTables,
         ReadInode, SlotReads, InodeAt;
    FormattedSizes(fs);
    SlotStays(fs, f, ino.id);
    SlotFits(f, ino.id);
    SlotForeign(f, ino', ino.id);
    SlotInTable(f, ino.id);
    var b := SlotBlock(f, ino.id);
    TableInRange(f, b);
    var t := WriteInode(f, ino');
    var data := Splice(ReadBlock(f, b), SlotOffset(f, ino.id), ino'.raw);
    OutsideWritten(f, ino', b, data);
    SameReads(f, t, ino', |buf|, 0, 0);
    SameTablesTrans(fs, f, t, b, data);
    SlotsStay(f, t);
    SlotsKept(fs, ino, f, ino');
  }

  lemma SlotsKept(fs: Fs, ino: Inode, f: Fs, ino': Inode)
    requires FsOk(fs) && Formatted(fs) && SlotsOk(fs) && HasSlot(fs, ino.id) && |ino.raw| == INODE_BYTES
             && FileOk(fs, ino)
    requires FsOk(f) && Formatted(f) && SlotsOk(f) && |ino'.raw| == INODE_BYTES && SameTables(fs, f)
             && |f.disk| == |fs.disk| && ino'.id == ino.id
    requires forall c: nat :: Foreign(fs, ino, c) ==> c < |fs.disk| && f.disk[c] == fs.disk[c]
    ensures HasSlot(f, ino'.id) && SlotOffset(f, ino'.id) + INODE_BYTES <= f.geo.blockSize
    ensures forall id: nat :: HasSlot(fs, id) ==>
              SlotReads(fs, WriteInode(f, ino'), id, if id == ino.id then ino' else InodeAt(fs, id))
  {
    hide FsOk, Formatted, SlotsOk, FileOk, Foreign, SlotOffset, SameTables, SlotReads, InodeAt, WriteInode, HasSlot;
    FormattedSizes(fs);
    SlotKept(fs, ino, f, ino', ino.id);
    forall id: nat | HasSlot(fs, id)
      ensures SlotReads(fs, WriteInode(f, ino'), id, if id == ino.id then ino' else InodeAt(fs, id))
    {
      SlotKept(fs, ino, f, ino', id);
    }
  }

  lemma SameTablesTrans(fs: Fs, f: Fs, t: Fs, b: nat, data: Block)
    requires SameTables(fs, f) && Formatted(f) && |data| == f.geo.blockSize && t == WriteBlock(f, b, data)
    ensures SameTables(f, t) && SameTables(fs, t)
  {
    hide Formatted;
  }

  lemma SlotKept(fs: Fs, ino: Inode, f: Fs, ino': Inode, id: nat)
    requires FsOk(fs) && Formatted(fs) && SlotsOk(fs) && HasSlot(fs, ino.id) && |ino.raw| == INODE_BYTES
             && FileOk(fs, ino)
    requires FsOk(f) && Formatted(f) && SlotsOk(f) && |ino'.raw| == INODE_BYTES && SameTables(fs, f)
             && |f.disk| == |fs.disk|
    requires ino'.id == ino.id && HasSlot(fs, id)
    requires forall c: nat :: Foreign(fs, ino, c) ==> c < |fs.disk| && f.disk[c] == fs.disk[c]
    ensures HasSlot(f, ino'.id) && SlotOffset(f, ino'.id) + INODE_BYTES <= f.geo.blockSize
    ensures SlotReads(fs, WriteInode(f, ino'), id, if id == ino.id then ino' else InodeAt(fs, id))
  {
    hide FsOk, Formatted, SlotsOk, FileOk, Foreign, Sized, SlotBlock, SlotOffset, HasSlot, SameTables, IsTable,
         WriteInode;
    FormattedSizes(fs);
    SlotStays(fs, f, ino.id);
    SlotStays(fs, f, id);
    SlotForeign(fs, ino, id);
    InodeSaved(f, ino', id);
    assert ReadInode(f, id) == InodeAt(fs, id);
  }

  /** The main result: writing `buf` returns its length; reading that many bytes
      gives `buf`; the inode saved in its slot is the one in memory, every other
      slot is as it was; of the blocks in use that are neither the file's nor a
      bitmap only the one holding the slot changes. */
  lemma WriteThenRead(fs: Fs, ino: Inode, buf: Block)
    requires FsOk(fs) && Formatted(fs) && SlotsOk(fs) && HasSlot(fs, ino.id) && |ino.raw| == INODE_BYTES
    requires FileOk(fs, ino) && IsFile(ino) && |buf| < WORD && |buf| <= MaxBlocks(fs.geo) * fs.geo.blockSize
    requires fs.freeBlocks >= Needed(fs, Resized(ino, |buf|), 0, 0, |buf|)
    requires WriteReady(fs, Resized(ino, |buf|), buf, 0, 0)
    ensures var (t, ino', n) := WriteFile(fs, ino, buf);
      n == Some(|buf|) && FileStored(fs, ino, buf, t, ino')
  {
    hide FsOk, Formatted, SlotsOk, FileOk, Foreign, Ptr, WriteReady, Needed, Resized, WriteInode, FileStored,
         SameTables, HasSlot, WriteFrom, Word, Indirect, Size, ReadFrom;
    var ino0 := Resized(ino, |buf|);
    ResizedSame(fs, ino, |buf|);
    SameFile(fs, ino, ino0);
    WriteFromOk(fs, ino0, buf, 0, 0);
    WriteFromTables(fs, ino0, buf, 0, 0);
    var (f, ino', n) := WriteFrom(fs, ino0, buf, 0, 0);
    WrittenParts(fs, ino0, buf, f, ino');
    InodeStored(fs, ino, buf, f, ino');
  }

  lemma WrittenParts(fs: Fs, ino: Inode, buf: Block, f: Fs, ino': Inode)
    requires Formatted(fs) && |ino.raw| == INODE_BYTES && Formatted(f) && |ino'.raw| == INODE_BYTES
             && Size(ino) == |buf|
    requires Written(fs, ino, buf, 0, 0, f, ino')
    ensures FsOk(f) && FileOk(f, ino') && |f.disk| == |fs.disk| && ino'.id == ino.id && Size(ino') == |buf|
    ensures Word(ino'.raw, 0) == Word(ino.raw, 0) && ReadFrom(f, ino', |buf|, 0, 0) == buf
    ensures forall c: nat :: Foreign(fs, ino, c) ==> c < |fs.disk| && Foreign(f, ino', c) && f.disk[c] == fs.disk[c]
  {
    hide FsOk, FileOk, Formatted, Ptr, ReadBlock, Word, ReadFrom, Foreign, IsTable;
    forall c: nat | Foreign(fs, ino, c) ensures c < |fs.disk| { ForeignRange(fs, ino, c); }
    assert buf[0..] == buf;
  }

  // ----- other files

  /** No block of one file is a block of the other. */
  ghost predicate Apart(fs: Fs, ino: Inode, other: Inode)
    requires Formatted(fs) && |ino.raw| == INODE_BYTES == |other.raw|
  {
    && (forall j: nat :: Ptr(fs, other, j) != 0 ==> Foreign(fs, ino, Ptr(fs, other, j)))
    && (Indirect(other) != 0 ==> Foreign(fs, ino, Indirect(other)))
  }

  /** Writing one file changes no other file: neither its map nor what it reads. */
  lemma OtherFileKept(fs: Fs, ino: Inode, buf: Block, t: Fs, ino': Inode, other: Inode, size: nat)
    requires FsOk(fs) && Formatted(fs) && SlotsOk(fs) && HasSlot(fs, ino.id) && |ino.raw| == INODE_BYTES == |other.raw|
    requires Formatted(t) && |ino'.raw| == INODE_BYTES && FileStored(fs, ino, buf, t, ino')
    requires FileOk(fs, other) && Apart(fs, ino, other)
    ensures forall j: nat :: Ptr(t, other, j) == Ptr(fs, other, j)
                             && (Ptr(fs, other, j) != 0
                                 ==> ReadBlock(t, Ptr(fs, other, j)) == ReadBlock(fs, Ptr(fs, other, j)))
    ensures ReadFile(t, other, size) == ReadFile(fs, other, size)
  {
    hide FsOk, Formatted, SlotsOk, Foreign, IsTable, SlotBlock, Taken, IsBitmap, Word, Ptr, Indirect, FileStored,
         Apart, FileOk, ReadBlock;
    FormattedSizes(fs);
    SlotForeign(fs, other, ino.id);
    StoredParts(fs, ino, buf, t, ino');
    forall j: nat
      ensures Ptr(t, other, j) == Ptr(fs, other, j)
      ensures Ptr(fs, other, j) != 0 ==> ReadBlock(t, Ptr(fs, other, j)) == ReadBlock(fs, Ptr(fs, other, j))
    {
      PtrIndirect(fs, other, j);
      PtrIndirect(t, other, j);
      PtrPast(fs, other, j);
      PtrPast(t, other, j);
      OwnBlocks(fs, ino, other, SlotBlock(fs, ino.id), j);
      if Indirect(other) != 0 { SameBlock(fs, t, Indirect(other)); }
      if Ptr(fs, other, j) != 0 { SameBlock(fs, t, Ptr(fs, other, j)); }
    }
    SameReads(fs, t, other, size, 0, 0);
  }

  lemma SameBlock(fs: Fs, t: Fs, c: nat)
    requires Formatted(fs) && Formatted(t) && |t.disk| == |fs.disk| && t.geo == fs.geo
    ensures c < |fs.disk| && t.disk[c] == fs.disk[c] ==> ReadBlock(t, c) == ReadBlock(fs, c)
  {
  }

  lemma StoredParts(fs: Fs, ino: Inode, buf: Block, t: Fs, ino': Inode)
    requires Formatted(fs) && SlotsOk(fs) && HasSlot(fs, ino.id) && |ino.raw| == INODE_BYTES
    requires Formatted(t) && |ino'.raw| == INODE_BYTES && FileStored(fs, ino, buf, t, ino')
    ensures t.geo == fs.geo && |t.disk| == |fs.disk|
    ensures forall c: nat :: Foreign(fs, ino, c) && c != SlotBlock(fs, ino.id) ==>
              c < |fs.disk| && t.disk[c] == fs.disk[c]
  {
    hide FsOk, Formatted, FileOk, SlotsOk, IsFile, Size, Foreign, SlotReads, InodeAt;
    forall c: nat | Foreign(fs, ino, c) ensures c < |fs.disk| { ForeignRange(fs, ino, c); }
  }

  lemma OwnBlocks(fs: Fs, ino: Inode, other: Inode, b: nat, j: nat)
    requires Formatted(fs) && |ino.raw| == INODE_BYTES == |other.raw| && Apart(fs, ino, other) && Foreign(fs, other, b)
    ensures Indirect(other) != 0 ==> Foreign(fs, ino, Indirect(other)) && Indirect(other) != b
    ensures Ptr(fs, other, j) != 0 ==> Foreign(fs, ino, Ptr(fs, other, j)) && Ptr(fs, other, j) != b
  {
    hide Formatted, Taken, IsBitmap, Indirect, Ptr;
    PtrPast(fs, other, j);
    ForeignNot(fs, other, b, j);
  }

  lemma ForeignNot(fs: Fs, other: Inode, b: nat, j: nat)
    requires Formatted(fs) && |other.raw| == INODE_BYTES && Foreign(fs, other, b)
    ensures b != 0 ==> Indirect(other) != b && (j < MaxBlocks(fs.geo) ==> Ptr(fs, other, j) != b)
  {
    hide Formatted, Taken, IsBitmap, Indirect, Ptr;
  }

  // ----- reads do not stop at the file size

  lemma {:induction false} ReadLength(fs: Fs, ino: Inode, size: nat, i: nat, w: nat)
    requires Formatted(fs) && |ino.raw| == INODE_BYTES
    requires forall j: nat :: j < CeilDiv(Size(ino), fs.geo.blockSize) ==> Ptr(fs, ino, j) != 0
    requires (w == i * fs.geo.blockSize && i <= CeilDiv(Size(ino), fs.geo.blockSize)) || w == size
    ensures var all := CeilDiv(Size(ino), fs.geo.blockSize) * fs.geo.blockSize;
      |ReadFrom(fs, ino, size, i, w)| == if w >= size then 0 else Least(size, all) - w
    decreases size - w
  {
    hide Formatted, Ptr, ReadBlock, Word, Size, CeilDiv;
    FormattedSize(fs);
    var bs, m := fs.geo.blockSize, CeilDiv(Size(ino), fs.geo.blockSize);
    if w < size {
      if i < m {
        MulGapOrEqual(bs, i + 1, m);
        MulStepUp(i, bs);
        ReadLength(fs, ino, size, i + 1, w + Least(size - w, bs));
      }
    }
  }

  /** With its blocks in place, a read of `size` bytes hands out bytes past the end
      of the file exactly when more than the file was asked for and the file does
      not end at a block boundary. */
  lemma ReadsPastEnd(fs: Fs, ino: Inode, size: nat)
    requires Formatted(fs) && |ino.raw| == INODE_BYTES
    requires forall j: nat :: j < CeilDiv(Size(ino), fs.geo.blockSize) ==> Ptr(fs, ino, j) != 0
    ensures |ReadFrom(fs, ino, size, 0, 0)| > Size(ino) <==> size > Size(ino) && Size(ino) % fs.geo.blockSize != 0
  {
    hide Formatted, Ptr, ReadBlock, Word, Size;
    FormattedSize(fs);
    ReadLength(fs, ino, size, 0, 0);
    RoundedUp(Size(ino), fs.geo.blockSize);
  }

  lemma RoundedUp(n: nat, bs: nat)
    requires bs > 0
    ensures CeilDiv(n, bs) * bs >= n && (CeilDiv(n, bs) * bs == n <==> n % bs == 0)
  {
    var q, r := n / bs, n % bs;
    SplitNumber(n, bs);
    MulCommutes(q, bs);
    if r == 0 {
      DivUnique(n + bs - 1, bs, q, bs - 1);
    } else {
      MulStepUp(q, bs);
      MulCommutes(q + 1, bs);
      DivUnique(n + bs - 1, bs, q + 1, r - 1);
    }
  }

  // ----- when a fresh indirect block is clear

  /** Every free block reads all zero. */
  ghost predicate FreeClear(fs: Fs)
    requires Formatted(fs)
  {
    forall b: nat :: !Taken(fs, b) ==> ClearAt(fs, b)
  }

  predicate ClearAt(fs: Fs, b: nat)
    requires Formatted(fs)
  {
    BlockWords(fs, b);
    Clear(ReadBlock(fs, b))
  }

  /** No block becomes free, and the blocks that stay free keep their contents. */
  ghost predicate FreeKept(fs: Fs, t: Fs)
    requires Formatted(fs) && Formatted(t)
  {
    forall b: nat :: !Taken(t, b) ==> !Taken(fs, b) && ReadBlock(t, b) == ReadBlock(fs, b)
  }

  lemma AllocFree(fs: Fs)
    requires FsOk(fs) && Formatted(fs)
    ensures FreeKept(fs, Alloc(fs, Blocks, 0).0)
  {
    hide FsOk, Formatted, Taken, IsBitmap, IsTable, Alloc, TookBlock;
    AllocOk(fs);
    var (t, n) := Alloc(fs, Blocks, 0);
    TookParts(fs, t, n);
    BitmapsTaken(fs);
  }

  lemma BitmapsTaken(fs: Fs)
    requires FsOk(fs)
    ensures Formatted(fs) && forall b: nat :: IsBitmap(fs, b) ==> Taken(fs, b)
  {
    hide Formatted, Taken, IsBitmap, IsTable, Accounted, PaddingUsed;
  }

  lemma WriteFree(fs: Fs, b: nat, data: Block)
    requires FsOk(fs) && Formatted(fs) && DataBlock(fs, b) && |data| == fs.geo.blockSize
    ensures FreeKept(fs, WriteBlock(fs, b, data))
  {
    hide FsOk, Formatted, IsBitmap, IsTable, Taken, WriteBlock;
    WriteKeeps(fs, b, data);
  }

  lemma GetOrAllocFree(fs: Fs, ino: Inode, i: nat)
    requires FsOk(fs) && Formatted(fs) && FileOk(fs, ino) && i < MaxBlocks(fs.geo) && |ino.raw| == INODE_BYTES
    requires IndirectReady(fs, ino, i) && fs.freeBlocks >= NeedAt(fs, ino, i)
    ensures FreeKept(fs, GetOrAlloc(fs, ino, i).0)
  {
    hide FsOk, Formatted, FileOk, Taken, IsBitmap, IsTable, Alloc, Word, ReadBlock, Ptr, IndirectReady, Indirect,
         FreeKept, SetField, MapStep, DataBlock;
    AllocFree(fs);
    KeptSame(fs);
    PtrIndirect(fs, ino, i);
    if i >= DIRECT {
      if Indirect(ino) != 0 {
        EntryFree(fs, ino, i);
      } else {
        AddedIndirect(fs, ino, i);
        var (f1, ino1) := GetIndirect(fs, ino);
        GetThrough(fs, ino, i);
        EntryFree(f1, ino1, i);
        KeptTrans(fs, f1, GetOrAlloc(fs, ino, i).0);
      }
    }
  }

  lemma KeptSame(fs: Fs)
    requires Formatted(fs)
    ensures FreeKept(fs, fs)
  {
  }

  lemma KeptTrans(fs: Fs, f: Fs, t: Fs)
    requires Formatted(fs) && Formatted(f) && Formatted(t) && FreeKept(fs, f) && FreeKept(f, t)
    ensures FreeKept(fs, t)
  {
    hide Formatted, Taken, ReadBlock;
  }

  lemma EntryFree(fs: Fs, ino: Inode, i: nat)
    requires FsOk(fs) && Formatted(fs) && FileOk(fs, ino) && DIRECT <= i < MaxBlocks(fs.geo) && |ino.raw| == INODE_BYTES
    requires Indirect(ino) != 0
    ensures FreeKept(fs, GetOrAlloc(fs, ino, i).0)
  {
    hide FsOk, Formatted, FileOk, Taken, IsBitmap, IsTable, Alloc, Word, ReadBlock, Indirect, FreeKept, DataBlock,
         WriteBlock, TookBlock;
    KeptSame(fs);
    AllocOk(fs);
    AllocFree(fs);
    var (t, n) := Alloc(fs, Blocks, 0);
    TookData(fs, t, n);
    IndirectData(fs, ino);
    PtrAfterTake(fs, ino, t, n, i);
    SizesAfter(fs, t, n);
    var data := SetWord(ReadBlock(t, Indirect(ino)), i - DIRECT, n);
    WriteFree(t, Indirect(ino), data);
    KeptTrans(fs, t, WriteBlock(t, Indirect(ino), data));
  }

  /** With clear free blocks, the block a missing indirect block gets is clear. */
  lemma ReadyAt(fs: Fs, ino: Inode, i: nat)
    requires FsOk(fs) && Formatted(fs) && |ino.raw| == INODE_BYTES && FreeClear(fs)
    ensures IndirectReady(fs, ino, i)
  {
    hide FsOk, Formatted, Taken, IsBitmap, IsTable, Alloc, ReadBlock, TookBlock, Clear, Indirect;
    AllocOk(fs);
    var (t, n) := Alloc(fs, Blocks, 0);
    if n != 0 {
      TookFresh(fs, t, n);
      TookParts(fs, t, n);
      FreeInRange(fs, n);
      BitmapsTaken(fs);
      SameBlock(fs, t, n);
      assert ClearAt(fs, n);
    }
  }

  /** The condition on indirect blocks holds along every write if the free blocks
      are clear at its start. */
  lemma {:induction false} ReadyIfClear(fs: Fs, ino: Inode, buf: Block, i: nat, w: nat)
    requires FsOk(fs) && Formatted(fs) && FileOk(fs, ino) && |ino.raw| == INODE_BYTES && w <= |buf|
    requires w == |buf| || w == i * fs.geo.blockSize
    requires |buf| <= MaxBlocks(fs.geo) * fs.geo.blockSize
    requires FreeClear(fs) && fs.freeBlocks >= Needed(fs, ino, i, w, |buf|)
    ensures WriteReady(fs, ino, buf, i, w)
    decreases |buf| - w
  {
    hide FsOk, FileOk, Formatted, Word, Ptr, ReadBlock, Needed, NeedAt, GetOrAlloc, WriteBlock, IndirectReady,
         Indirect, CeilDiv, GotBlock, FreeClear, DataBlock, FreeKept;
    if w < |buf| {
      FormattedSize(fs);
      var bs := fs.geo.blockSize;
      var n := Least(|buf| - w, bs);
      BlockIndex(i, bs, |buf|, MaxBlocks(fs.geo));
      NeededHere(fs, ino, i, w, |buf|);
      ReadyAt(fs, ino, i);
      GetOrAllocOk(fs, ino, i);
      GetOrAllocFree(fs, ino, i);
      var (f1, ino1, b) := GetOrAlloc(fs, ino, i);
      GotParts(fs, ino, f1, ino1, i, b);
      GotData(fs, ino, f1, ino1, i, b);
      var data := Splice(ReadBlock(f1, b), 0, buf[w..w + n]);
      DataWritten(f1, ino1, i, data);
      WriteFree(f1, b, data);
      var f2 := WriteBlock(f1, b, data);
      ClearKept(fs, f1, f2);
      NeededStep(fs, ino, f2, ino1, i, w, |buf|, b);
      if w + n == |buf| { PastEnd(f2, ino1, i + 1, w + n, |buf|); }
      ReadyIfClear(f2, ino1, buf, i + 1, w + n);
    }
  }

  lemma GotData(fs: Fs, ino: Inode, t: Fs, ino': Inode, i: nat, b: nat)
    requires Formatted(fs) && |ino.raw| == INODE_BYTES && Formatted(t) && |ino'.raw| == INODE_BYTES
    requires GotBlock(fs, ino, t, ino', i, b)
    ensures DataBlock(t, b) && t.geo == fs.geo
  {
  }

  lemma ClearKept(fs: Fs, f: Fs, t: Fs)
    requires Formatted(fs) && Formatted(f) && Formatted(t) && FreeKept(fs, f) && FreeKept(f, t) && FreeClear(fs)
    ensures FreeClear(t)
  {
    hide Formatted, Taken, ReadBlock, Clear;
    forall b: nat | !Taken(t, b) ensures ClearAt(t, b) {
      assert ClearAt(fs, b);
    }
  }

  /** The main result with the condition on fresh indirect blocks stated of the
      free blocks before the write. */
  lemma WriteThenReadWhenClear(fs: Fs, ino: Inode, buf: Block)
    requires FsOk(fs) && Formatted(fs) && SlotsOk(fs) && HasSlot(fs, ino.id) && |ino.raw| == INODE_BYTES
    requires FileOk(fs, ino) && IsFile(ino) && |buf| < WORD && |buf| <= MaxBlocks(fs.geo) * fs.geo.blockSize
    requires FreeClear(fs) && fs.freeBlocks >= Needed(fs, Resized(ino, |buf|), 0, 0, |buf|)
    ensures var (t, ino', n) := WriteFile(fs, ino, buf);
      n == Some(|buf|) && FileStored(fs, ino, buf, t, ino')
  {
    hide FsOk, Formatted, SlotsOk, FileOk, Foreign, Ptr, WriteReady, Needed, Resized, FileStored, HasSlot,
         WriteFile, FreeClear, Indirect, IsFile;
    ResizedSame(fs, ino, |buf|);
    SameFile(fs, ino, Resized(ino, |buf|));
    ReadyIfClear(fs, Resized(ino, |buf|), buf, 0, 0);
    WriteThenRead(fs, ino, buf);
  }
}
