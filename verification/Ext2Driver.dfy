/** The file system driver in its own form: a disk of blocks, descriptors and
    counters in memory, changed in place by loops. */
module Ext2Driver {
  import opened Bits
  import opened Frames
  import opened Options
  import opened ByteBlocks
  import opened Ext2Alloc
  import opened Ext2Files
  import opened Ext2FileIO
  import opened Ext2RoundTrip
  import opened Ext2Dirs
  import opened Ext2Create

  lemma BitPlace(bm: Block, y: nat, j: nat)
    requires y < |bm| && j < 8
    ensures InUse(bm, 8 * y + j) <==> Bit(bm[y], j)
  {
    assert (8 * y + j) / 8 == y && (8 * y + j) % 8 == j;
  }

  /** What the code tests of a group is what makes it usable. */
  lemma UsableIs(fs: Fs, kind: Kind, preferred: nat, tried: nat)
    requires Formatted(fs) && tried < |fs.groups|
    ensures var g := (preferred + tried) % |fs.groups|;
      && g < |fs.groups|
      && (Usable(fs, kind, g) <==>
            FreeIn(fs.groups[g], kind) > 0
                && FirstZero(Bitmap(fs, g, kind), Limit(fs.geo, kind), 0) < Limit(fs.geo, kind))
      && Pick(fs, kind, preferred, tried) == if Usable(fs, kind, g) then g else Pick(fs, kind, preferred, tried + 1)
  {
    hide Formatted, FirstZero;
  }

  lemma SearchFits(fs: Fs, kind: Kind, g: nat)
    requires Formatted(fs) && g < |fs.groups|
    ensures ReadBlock(fs, BitmapOf(fs.groups[g], kind)) == Bitmap(fs, g, kind)
    ensures BitmapOf(fs.groups[g], kind) < |fs.disk|
    ensures var bytes := if kind.Blocks? then fs.geo.blockSize else fs.geo.inodesPerGroup / 8;
      8 * bytes == Limit(fs.geo, kind) && bytes <= fs.geo.blockSize
  {
  }

  /** The updates of a successful search, put together. */
  lemma TakingIs(fs: Fs, kind: Kind, preferred: nat, g: nat, f: nat)
    requires Formatted(fs) && g == Pick(fs, kind, preferred, 0) && g < |fs.groups|
    requires f == FirstZero(Bitmap(fs, g, kind), Limit(fs.geo, kind), 0)
    ensures FreeIn(fs.groups[g], kind) > 0 && f / 8 < |Bitmap(fs, g, kind)| && |Bitmap(fs, g, kind)| == fs.geo.blockSize
    ensures var bm := Bitmap(fs, g, kind);
      var t := WriteBlock(fs, BitmapOf(fs.groups[g], kind), bm[f / 8 := bm[f / 8] | Mask(f % 8)]);
      var groups := fs.groups[g := LessFree(fs.groups[g], kind)];
      var freeBlocks := if kind.Blocks? then Wrap(fs.freeBlocks - 1) else fs.freeBlocks;
      var freeInodes := if kind.Inodes? then Wrap(fs.freeInodes - 1) else fs.freeInodes;
      Alloc(fs, kind, preferred)
      == (t.(groups := groups, freeBlocks := freeBlocks, freeInodes := freeInodes,
             saved := Saved(groups, freeBlocks, freeInodes)),
          g * PerGroup(fs.geo, kind) + f + FirstNumber(kind))
  {
    hide FirstZero;
    LimitFits(fs, kind);
    BitmapSize(fs, kind, g);
  }

  lemma AllocNone(fs: Fs, kind: Kind, preferred: nat)
    requires Formatted(fs) && Pick(fs, kind, preferred, 0) == Pick(fs, kind, preferred, |fs.groups|)
    ensures Alloc(fs, kind, preferred) == (fs, 0)
  {
  }

  lemma GroupsThere(fs: Fs)
    requires Formatted(fs)
    ensures fs.groups != []
  {
  }

  lemma SlotWhere(fs: Fs, id: nat)
    requires Formatted(fs) && HasSlot(fs, id)
    ensures fs.geo.inodesPerGroup > 0 && fs.geo.blockSize > 0 && id > 0
    ensures var group := (id - 1) / fs.geo.inodesPerGroup;
      var position := (id - 1) % fs.geo.inodesPerGroup * fs.geo.inodeSize;
      && group < |fs.groups| && position >= 0
      && SlotBlock(fs, id) == fs.groups[group].inodeTable + position / fs.geo.blockSize
      && SlotOffset(fs, id) == position % fs.geo.blockSize
  {
  }

  /** An inode loaded into memory; callees change it in place. */
  class LoadedInode {
    var raw: Block
    const id: nat

    constructor (raw: Block, id: nat)
      ensures this.raw == raw && this.id == id
    {
      this.raw := raw;
      this.id := id;
    }

    function Now(): Inode
      reads this
    {
      Inode(raw, id)
    }
  }

  class Driver {
    const geo: Geometry
    const disk: array<Block>
    var groups: seq<Group>
    var freeBlocks: nat
    var freeInodes: nat
    var saved: Saved

    constructor (geo: Geometry, disk: array<Block>, groups: seq<Group>, freeBlocks: nat, freeInodes: nat)
      ensures this.disk == disk
      ensures Now() == Fs(geo, disk[..], groups, freeBlocks, freeInodes, Saved(groups, freeBlocks, freeInodes))
    {
      this.geo := geo;
      this.disk := disk;
      this.groups := groups;
      this.freeBlocks := freeBlocks;
      this.freeInodes := freeInodes;
      this.saved := Saved(groups, freeBlocks, freeInodes);
    }

    function Now(): Fs
      reads this, disk
    {
      Fs(geo, disk[..], groups, freeBlocks, freeInodes, saved)
    }

    /** One disk block copied into a fresh buffer. */
    method Read(b: nat) returns (buf: array<bv8>)
      requires Formatted(Now())
      ensures fresh(buf) && buf[..] == ReadBlock(Now(), b)
    {
      var data := ReadBlock(Now(), b);
      buf := new bv8[|data|](k requires 0 <= k < |data| => data[k]);
    }

    method Write(b: nat, data: Block)
      requires Formatted(Now()) && |data| == geo.blockSize
      modifies disk
      ensures Now() == WriteBlock(old(Now()), b, data)
    {
      if b < disk.Length {
        disk[b] := data;
      }
    }

    /** The two inner loops of the allocators: the first clear bit among the first
        `bytes` bytes, or 8 * bytes. */
    method SearchBitmap(buf: array<bv8>, bytes: nat) returns (f: nat)
      requires bytes <= buf.Length
      ensures f == FirstZero(buf[..], 8 * bytes, 0)
    {
      var byteIndex := 0;
      while byteIndex < bytes
        invariant byteIndex <= bytes
        invariant FirstZero(buf[..], 8 * bytes, 0) == FirstZero(buf[..], 8 * bytes, 8 * byteIndex)
        modifies {}
      {
        var bitIndex := 0;
        while bitIndex < 8
          invariant bitIndex <= 8
          invariant FirstZero(buf[..], 8 * bytes, 0) == FirstZero(buf[..], 8 * bytes, 8 * byteIndex + bitIndex)
          modifies {}
        {
          BitPlace(buf[..], byteIndex, bitIndex);
          if !Bit(buf[byteIndex], bitIndex) {
            return 8 * byteIndex + bitIndex;
          }
          bitIndex := bitIndex + 1;
        }
        byteIndex := byteIndex + 1;
      }
      return 8 * bytes;
    }

    /** The bit found is set and written back; descriptors and counters follow. */
    method TakeNumber(kind: Kind, ghost preferred: nat, g: nat, f: nat, marked: Block)
      returns (number: nat)
      requires Formatted(Now()) && g < |groups| && g == Pick(Now(), kind, preferred, 0)
      requires f == FirstZero(Bitmap(Now(), g, kind), Limit(geo, kind), 0)
      requires f / 8 < |Bitmap(Now(), g, kind)|
      requires var bm := Bitmap(Now(), g, kind); marked == bm[f / 8 := bm[f / 8] | Mask(f % 8)]
      modifies this, disk
      ensures (Now(), number) == Alloc(old(Now()), kind, preferred)
    {
      hide Formatted, FirstZero, Alloc, Pick, Bitmap, WriteBlock;
      TakingIs(Now(), kind, preferred, g, f);
      Write(BitmapOf(groups[g], kind), marked);
      groups := groups[g := LessFree(groups[g], kind)];
      if kind.Blocks? { freeBlocks := Wrap(freeBlocks - 1); } else { freeInodes := Wrap(freeInodes - 1); }
      saved := Saved(groups, freeBlocks, freeInodes);
      number := g * PerGroup(geo, kind) + f + FirstNumber(kind);
    }

    /** `fs_ext2_alloc_block` and `fs_ext2_alloc_inode`. */
    method AllocNumber(kind: Kind, preferred: nat) returns (number: nat)
      requires Formatted(Now())
      modifies this, disk
      ensures (Now(), number) == Alloc(old(Now()), kind, preferred)
    {
      hide Formatted, FirstZero, Usable, Alloc, Pick, Bitmap, ReadBlock, WriteBlock;
      ghost var fs := Now();
      GroupsThere(fs);
      var tried := 0;
      while tried < |groups|
        invariant tried <= |groups| && Now() == fs
        invariant Pick(fs, kind, preferred, 0) == Pick(fs, kind, preferred, tried)
      {
        var g := (preferred + tried) % |groups|;
        UsableIs(fs, kind, preferred, tried);
        if FreeIn(groups[g], kind) > 0 {
          var at := BitmapOf(groups[g], kind);
          var buf := Read(at);
          SearchFits(fs, kind, g);
          var bytes := if kind.Blocks? then geo.blockSize else geo.inodesPerGroup / 8;
          var f := SearchBitmap(buf, bytes);
          if f < 8 * bytes {
            buf[f / 8] := buf[f / 8] | Mask(f % 8);
            number := TakeNumber(kind, preferred, g, f, buf[..]);
            return;
          }
        }
        tried := tried + 1;
      }
      AllocNone(fs, kind, preferred);
      number := 0;
    }

    /** `__fs_ext2_get_block_ptr`. */
    method BlockPtr(inode: LoadedInode, i: nat) returns (b: nat)
      requires Formatted(Now()) && |inode.raw| == INODE_BYTES
      ensures b == Ptr(Now(), inode.Now(), i)
    {
      hide Formatted, Word, ReadBlock;
      if i < DIRECT { return Word(inode.raw, 10 + i); }
      var x := i - DIRECT;
      if x >= geo.blockSize / 4 { return 0; }
      if Word(inode.raw, 22) == 0 { return 0; }
      var indirect := Read(Word(inode.raw, 22));
      return Word(indirect[..], x);
    }

    /** `__fs_ext2_get_or_alloc_block_ptr`. */
    method GetOrAllocPtr(inode: LoadedInode, i: nat) returns (b: nat)
      requires Formatted(Now()) && |inode.raw| == INODE_BYTES
      modifies this, disk, inode
      ensures |inode.raw| == INODE_BYTES
      ensures (Now(), inode.Now(), b) == GetOrAlloc(old(Now()), old(inode.Now()), i)
    {
      hide Formatted, Alloc, SetWord, Word, ReadBlock, WriteBlock;
      if i < DIRECT {
        if Word(inode.raw, 10 + i) == 0 {
          b := AllocNumber(Blocks, 0);
          inode.raw := SetWord(inode.raw, 10 + i, b);
          return;
        }
        return Word(inode.raw, 10 + i);
      }
      var x := i - DIRECT;
      if x >= geo.blockSize / 4 { return 0; }
      if Word(inode.raw, 22) == 0 {
        var n := AllocNumber(Blocks, 0);
        inode.raw := SetWord(inode.raw, 22, n);
      }
      var at := Word(inode.raw, 22);
      ghost var f1 := Now();
      assert (f1, inode.Now()) == GetIndirect(old(Now()), old(inode.Now()));
      var indirect := Read(at);
      ghost var data := ReadBlock(f1, at);
      b := Word(indirect[..], x);
      if b == 0 {
        b := AllocNumber(Blocks, 0);
        Write(at, SetWord(indirect[..], x, b));
      }
    }

    /** `fs_ext2_read_inode`. */
    method LoadInode(id: nat) returns (inode: LoadedInode)
      requires Formatted(Now()) && HasSlot(Now(), id) && SlotOffset(Now(), id) + INODE_BYTES <= geo.blockSize
      ensures fresh(inode) && inode.Now() == ReadInode(Now(), id)
    {
      hide Formatted, HasSlot, SlotOffset, SlotBlock, ReadBlock;
      SlotWhere(Now(), id);
      var group := (id - 1) / geo.inodesPerGroup;
      var position := (id - 1) % geo.inodesPerGroup * geo.inodeSize;
      var buf := Read(groups[group].inodeTable + position / geo.blockSize);
      var offset := position % geo.blockSize;
      inode := new LoadedInode(buf[offset..offset + INODE_BYTES], id);
    }

    /** `fs_ext2_write_inode`. */
    method SaveInode(inode: LoadedInode)
      requires Formatted(Now()) && HasSlot(Now(), inode.id)
               && SlotOffset(Now(), inode.id) + INODE_BYTES <= geo.blockSize
      requires |inode.raw| == INODE_BYTES
      modifies disk
      ensures Now() == WriteInode(old(Now()), inode.Now())
    {
      hide Formatted, HasSlot, SlotOffset, SlotBlock, ReadBlock, WriteBlock, Splice;
      SlotWhere(Now(), inode.id);
      var group := (inode.id - 1) / geo.inodesPerGroup;
      var position := (inode.id - 1) % geo.inodesPerGroup * geo.inodeSize;
      var b := groups[group].inodeTable + position / geo.blockSize;
      var buf := Read(b);
      Write(b, Splice(buf[..], position % geo.blockSize, inode.raw));
    }

    /** `fs_ext2_write_file`; -1 for an inode that is no file. */
    method WriteToFile(inode: LoadedInode, data: Block) returns (written: int)
      requires Formatted(Now()) && HasSlot(Now(), inode.id) && SlotsOk(Now()) && |inode.raw| == INODE_BYTES
      modifies this, disk, inode
      ensures |inode.raw| == INODE_BYTES
      ensures var (t, ino, n) := WriteFile(old(Now()), old(inode.Now()), data);
        Now() == t && inode.Now() == ino && written == if n.Some? then n.value else -1
    {
      hide Formatted, SlotsOk, WriteBlock, GetOrAlloc, ReadBlock, WriteInode, IsFile, SetField, HasSlot, SlotOffset,
           WriteFrom, Splice, SameTables;
      if !IsFile(inode.Now()) { return -1; }
      ghost var fs := Now();
      ghost var ino := Resized(inode.Now(), |data|);
      if |data| != Word(inode.raw, 1) {
        inode.raw := SetField(inode.Now(), 1, |data|).raw;
      }
      written := WriteData(inode, data);
      WriteFromTables(fs, ino, data, 0, 0);
      SlotStays(fs, Now(), inode.id);
      FitsIn(Now(), inode.id);
      SaveInode(inode);
    }

    /** The loop of `fs_ext2_write_file`. */
    method WriteData(inode: LoadedInode, data: Block) returns (written: nat)
      requires Formatted(Now()) && |inode.raw| == INODE_BYTES
      modifies this, disk, inode
      ensures |inode.raw| == INODE_BYTES
      ensures (Now(), inode.Now(), written) == WriteFrom(old(Now()), old(inode.Now()), data, 0, 0)
    {
      hide Formatted, WriteBlock, GetOrAlloc, ReadBlock, WriteFrom, Splice;
      ghost var fs, ino := Now(), inode.Now();
      var i, w := 0, 0;
      while w < |data|
        invariant w <= |data| && Formatted(Now()) && |inode.raw| == INODE_BYTES
        invariant WriteFrom(Now(), inode.Now(), data, i, w) == WriteFrom(fs, ino, data, 0, 0)
        decreases |data| - w
      {
        FormattedSize(Now());
        WriteStep(Now(), inode.Now(), data, i, w);
        var n := Least(|data| - w, geo.blockSize);
        var b := GetOrAllocPtr(inode, i);
        if b == 0 { return w; }
        var buf := Read(b);
        Write(b, Splice(buf[..], 0, data[w..w + n]));
        i, w := i + 1, w + n;
      }
      FormattedSize(Now());
      WriteStep(Now(), inode.Now(), data, i, w);
      return w;
    }

    /** `fs_ext2_read_file_contents` into the front of `out`. */
    method ReadFromFile(inode: LoadedInode, out: array<bv8>, size: nat) returns (count: int)
      requires Formatted(Now()) && |inode.raw| == INODE_BYTES && size <= out.Length
      requires (out as object) != (disk as object)
      modifies out
      ensures var r := ReadFile(Now(), inode.Now(), size);
        && count == (if r.Some? then |r.value| else -1) <= out.Length
        && out[..] == if r.Some? then r.value + old(out[..])[count..] else old(out[..])
    {
      hide Formatted, ReadBlock, IsFile, Ptr, Word, CeilDiv, ReadFrom, Size, Splice;
      if !IsFile(inode.Now()) { return -1; }
      ghost var fs, ino := Now(), inode.Now();
      FormattedSize(fs);
      ghost var all := ReadFrom(fs, ino, size, 0, 0);
      var blocks := CeilDiv(Size(inode.Now()), geo.blockSize);
      var i, w := 0, 0;
      while i < blocks && w < size
        invariant w <= size && Now() == fs && inode.Now() == ino
        invariant Prefixed(all, out[..][..w], ReadFrom(fs, ino, size, i, w))
        invariant out[..][w..] == old(out[..])[w..]
        decreases size - w
      {
        ReadStep(fs, ino, size, i, w);
        var n := Least(size - w, geo.blockSize);
        var b := BlockPtr(inode, i);
        if b == 0 { break; }
        var buf := Read(b);
        ghost var before := out[..];
        CopyIn(out, w, buf[..n]);
        Copied(before, old(out[..]), w, buf[..n]);
        Regroup(all, before[..w], buf[..n], ReadFrom(fs, ino, size, i + 1, w + n));
        i, w := i + 1, w + n;
      }
      ReadStep(fs, ino, size, i, w);
      return w;
    }

    /** `fs_ext2_create_file` in the directory whose inode number is given. */
    method Create(dirId: nat, name: Block, data: Block) returns (id: nat)
      requires Formatted(Now()) && SlotsOk(Now()) && HasSlot(Now(), dirId) && geo.blockSize <= 0x1_0000
      requires CreateFile(Now(), dirId, name, data).Some?
      modifies this, disk
      ensures CreateFile(old(Now()), dirId, name, data) == Some((Now(), id))
    {
      hide Formatted, SlotsOk, HasSlot, Alloc, WriteFile, CreateFile, EntryFor;
      CreateSteps(Now(), dirId, name, data);
      id := AllocNumber(Inodes, 0);
      var inode := new LoadedInode(NewInode(id).raw, id);
      var written := WriteToFile(inode, data);
      AddToDir(dirId, id, name);
    }

    /** The end of the call: the record goes into the directory's last block. For a
        directory without blocks the number of the last one wraps, and its pointer
        is 0. */
    method AddToDir(dirId: nat, id: nat, name: Block)
      requires Formatted(Now()) && SlotsOk(Now()) && HasSlot(Now(), dirId) && geo.blockSize <= 0x1_0000
      requires EntryFor(Now(), dirId, id, name).Some?
      modifies disk
      ensures EntryFor(old(Now()), dirId, id, name) == Some(Now())
    {
      hide Formatted, SlotsOk, HasSlot, SlotOffset, SlotBlock, ReadBlock, WriteBlock, Ptr, Insert, NewOffset, Tiles,
           IsDir, EntryFor;
      FitsIn(Now(), dirId);
      EntrySteps(Now(), dirId, id, name);
      var dir := LoadInode(dirId);
      if !IsDir(dir.Now()) { return; }
      var last := BlockPtr(dir, Wrap(NumBlocks(Now(), dir.Now()) - 1));
      if last == 0 { return; }
      var buf := Read(last);
      InsertRecord(buf, geo.blockSize, id, name);
      Write(last, buf[..]);
    }
  }

  /** What the steps of a creation find. */
  lemma CreateSteps(fs: Fs, dirId: nat, name: Block, data: Block)
    requires Formatted(fs) && SlotsOk(fs) && HasSlot(fs, dirId) && CreateFile(fs, dirId, name, data).Some?
    ensures var (f, id) := Alloc(fs, Inodes, 0);
      && SlotsOk(f) && HasSlot(f, id)
      && var t := WriteFile(f, NewInode(id), data).0;
         && SlotsOk(t) && HasSlot(t, dirId) && EntryFor(t, dirId, id, name).Some?
         && CreateFile(fs, dirId, name, data) == Some((EntryFor(t, dirId, id, name).value, id))
  {
    hide Formatted, SlotsOk, HasSlot, Alloc, WriteFile, NewInode, EntryFor;
    FormattedSizes(fs);
    AllocTables(fs, Inodes, 0);
    var (f, id) := Alloc(fs, Inodes, 0);
    SlotsStay(fs, f);
    SlotStays(fs, f, dirId);
    if HasSlot(f, id) {
      var t := WriteFile(f, NewInode(id), data).0;
      WriteFileTables(f, NewInode(id), data);
      SlotStays(f, t, dirId);
    }
  }

  /** Where the record goes, and what the directory's last block is then. */
  lemma EntrySteps(fs: Fs, dirId: nat, id: nat, name: Block)
    requires Formatted(fs) && SlotsOk(fs) && HasSlot(fs, dirId) && fs.geo.blockSize <= 0x1_0000
    requires EntryFor(fs, dirId, id, name).Some?
    ensures SlotOffset(fs, dirId) + INODE_BYTES <= fs.geo.blockSize
    ensures var dir := ReadInode(fs, dirId); var bs := fs.geo.blockSize;
      && var b := Ptr(fs, dir, Wrap(NumBlocks(fs, dir) - 1));
      && (!IsDir(dir) || b == 0 ==> EntryFor(fs, dirId, id, name) == Some(fs))
      && (IsDir(dir) && b != 0 ==>
            && Chained(ReadBlock(fs, b), bs) && Room(ReadBlock(fs, b), bs, name)
            && EntryFor(fs, dirId, id, name) == Some(WriteBlock(fs, b, Insert(ReadBlock(fs, b), bs, id, name))))
  {
    hide Formatted, SlotsOk, HasSlot, SlotOffset, SlotBlock, ReadBlock, WriteBlock, Insert, NewOffset, Tiles, IsDir,
         Ptr, NumBlocks;
    FitsIn(fs, dirId);
    var dir := ReadInode(fs, dirId);
    var n := NumBlocks(fs, dir);
    if n == 0 {
      PtrPast(fs, dir, Wrap(0 - 1));
    } else {
      DirParts(fs, dir, n - 1);
    }
  }

  lemma Copied(before: Block, first: Block, w: nat, src: Block)
    requires |before| == |first| && w + |src| <= |before| && before[w..] == first[w..]
    ensures var after := Splice(before, w, src);
      after[..w + |src|] == before[..w] + src && after[w + |src|..] == first[w + |src|..]
  {
    assert before[w + |src|..] == before[w..][|src|..];
    assert first[w + |src|..] == first[w..][|src|..];
  }

  predicate Prefixed(all: Block, front: Block, rest: Block) {
    all == front + rest
  }

  lemma Regroup(all: Block, front: Block, mid: Block, rest: Block)
    requires Prefixed(all, front, mid + rest)
    ensures Prefixed(all, front + mid, rest)
  {
  }

  /** One round of the write loop. */
  lemma WriteStep(fs: Fs, ino: Inode, data: Block, i: nat, w: nat)
    requires Formatted(fs) && |ino.raw| == INODE_BYTES && w <= |data| && fs.geo.blockSize > 0
    ensures w == |data| ==> WriteFrom(fs, ino, data, i, w) == (fs, ino, w)
    ensures w < |data| ==>
              var n := Least(|data| - w, fs.geo.blockSize);
              var (f1, ino1, b) := GetOrAlloc(fs, ino, i);
              WriteFrom(fs, ino, data, i, w)
              == if b == 0 then (f1, ino1, w)
                 else WriteFrom(
                            WriteBlock(f1, b, Splice(ReadBlock(f1, b), 0, data[w..w + n])), ino1, data, i + 1, w + n)
  {
    hide Formatted, WriteBlock, GetOrAlloc, ReadBlock, Splice;
  }

  /** One round of the read loop. */
  lemma ReadStep(fs: Fs, ino: Inode, size: nat, i: nat, w: nat)
    requires Formatted(fs) && |ino.raw| == INODE_BYTES && fs.geo.blockSize > 0
    ensures ReadFrom(fs, ino, size, i, w)
            == if i >= CeilDiv(Size(ino), fs.geo.blockSize) || w >= size || Ptr(fs, ino, i) == 0 then []
               else ReadBlock(fs, Ptr(fs, ino, i))[..Least(size - w, fs.geo.blockSize)]
                    + ReadFrom(fs, ino, size, i + 1, w + Least(size - w, fs.geo.blockSize))
  {
    hide Formatted, ReadBlock, Ptr, Word, CeilDiv;
  }

  lemma FitsIn(fs: Fs, id: nat)
    requires Formatted(fs) && SlotsOk(fs) && HasSlot(fs, id)
    ensures SlotOffset(fs, id) + INODE_BYTES <= fs.geo.blockSize
  {
    SlotFits(fs, id);
  }
}
