/** Directory blocks: chains of records that tile a block, listing them, and the
    insertion that `fs_ext2_create_file` makes. */
module Ext2Dirs {
  import opened Bits
  import opened ByteBlocks
  import opened Ext2Alloc
  import opened Ext2Files
  import opened Ext2FileIO

  const HEAD: nat := 8

  /** What a listing says of a record: inode number, type, and name. */
  datatype Entry = Entry(inode: nat, kind: nat, name: Block)

  /** The length of the record at `o`, and of its name. */
  function RecLen(m: Block, o: nat): (r: nat)
    requires o + HEAD <= |m|
    ensures r < 0x1_0000
  {
    U16(m, o + 4)
  }

  function NameLen(m: Block, o: nat): (r: nat)
    requires o + HEAD <= |m|
    ensures r < 256
  {
    Value(m[o + 6])
  }

  /** The records from `o` on follow each other up to the end of the block, each
      long enough for its name. */
  predicate Tiles(m: Block, bs: nat, o: nat)
    requires bs <= |m|
    decreases bs - o
  {
    o == bs || (o + HEAD <= bs && HEAD + NameLen(m, o) <= RecLen(m, o) && o + RecLen(m, o) <= bs
                && Tiles(m, bs, o + RecLen(m, o)))
  }

  function EntryAt(m: Block, o: nat): Entry
    requires o + HEAD <= |m| && o + HEAD + NameLen(m, o) <= |m|
  {
    Entry(U32(m, o), Value(m[o + 7]), m[o + HEAD..o + HEAD + NameLen(m, o)])
  }

  /** The inner loop of `fs_ext2_list_dir`. */
  function ListFrom(m: Block, bs: nat, o: nat): seq<Entry>
    requires bs <= |m| && Tiles(m, bs, o)
    decreases bs - o
  {
    if o == bs then [] else [EntryAt(m, o)] + ListFrom(m, bs, o + RecLen(m, o))
  }

  // ----- when the listing loop ends

  /** The offset after `k` rounds of the loop, over the buffer and whatever bytes
      follow it in memory. */
  function OffsetAfter(m: Block, bs: nat, k: nat): nat
    requires bs + HEAD <= |m|
  {
    if k == 0 then 0
    else
      var o := OffsetAfter(m, bs, k - 1);
      if o >= bs then o else o + RecLen(m, o)
  }

  predicate PositiveAt(m: Block, bs: nat, k: nat)
    requires bs + HEAD <= |m|
  {
    OffsetAfter(m, bs, k) < bs ==> RecLen(m, OffsetAfter(m, bs, k)) > 0
  }

  lemma {:induction false} Advances(m: Block, bs: nat, k: nat)
    requires bs + HEAD <= |m| && forall j: nat :: j < k ==> PositiveAt(m, bs, j)
    ensures OffsetAfter(m, bs, k) >= bs || OffsetAfter(m, bs, k) >= k
  {
    if k > 0 {
      Advances(m, bs, k - 1);
      assert PositiveAt(m, bs, k - 1);
    }
  }

  lemma {:induction false} Stuck(m: Block, bs: nat, j: nat, k: nat)
    requires bs + HEAD <= |m| && !PositiveAt(m, bs, j)
    ensures OffsetAfter(m, bs, k) < bs
    decreases k
  {
    if k > j {
      Stuck(m, bs, j, k - 1);
      StuckSame(m, bs, j, k);
    } else {
      StuckBefore(m, bs, j, k);
    }
  }

  lemma {:induction false} StuckSame(m: Block, bs: nat, j: nat, k: nat)
    requires bs + HEAD <= |m| && !PositiveAt(m, bs, j) && j <= k
    ensures OffsetAfter(m, bs, k) == OffsetAfter(m, bs, j)
    decreases k - j
  {
    if j < k { StuckSame(m, bs, j, k - 1); }
  }

  lemma {:induction false} StuckBefore(m: Block, bs: nat, j: nat, k: nat)
    requires bs + HEAD <= |m| && k <= j && OffsetAfter(m, bs, j) < bs
    ensures OffsetAfter(m, bs, k) < bs
    decreases j - k
  {
    if k < j { StuckBefore(m, bs, j - 1, k); }
  }

  /** The listing loop ends exactly when no record it comes to has length 0; it
      then takes at most as many rounds as the block has bytes. */
  lemma ListingEndsExactly(m: Block, bs: nat)
    requires bs + HEAD <= |m|
    ensures (exists k: nat :: OffsetAfter(m, bs, k) >= bs) <==> forall j: nat :: PositiveAt(m, bs, j)
    ensures (forall j: nat :: PositiveAt(m, bs, j)) ==> OffsetAfter(m, bs, bs) >= bs
  {
    if forall j: nat :: PositiveAt(m, bs, j) {
      Advances(m, bs, bs);
    } else {
      var j: nat :| !PositiveAt(m, bs, j);
      forall k: nat ensures OffsetAfter(m, bs, k) < bs {
        Stuck(m, bs, j, k);
      }
    }
  }

  // ----- the insertion

  /** Where the record that ends the block starts. */
  function LastOffset(m: Block, bs: nat, o: nat): (r: nat)
    requires bs <= |m| && Tiles(m, bs, o) && o < bs
    ensures o <= r && r + HEAD <= bs && r + RecLen(m, r) == bs && HEAD + NameLen(m, r) <= RecLen(m, r)
    decreases bs - o
  {
    if o + RecLen(m, o) == bs then o else LastOffset(m, bs, o + RecLen(m, o))
  }

  /** Bytes a record needs for a name of `n` bytes, rounded up to 4. */
  function Rounded(n: nat): (r: nat)
    ensures HEAD + n <= r < HEAD + n + 4
  {
    (HEAD + n + 3) / 4 * 4
  }

  /** Where the new record goes. */
  function NewOffset(m: Block, bs: nat): (r: nat)
    requires bs <= |m| && Tiles(m, bs, 0) && bs > 0
    ensures r < bs + 4
  {
    var o := LastOffset(m, bs, 0);
    o + Rounded(NameLen(m, o))
  }

  function Bytes16(w: nat): (r: Block)
    ensures |r| == 2
  {
    [ByteOf(w), ByteOf(w / 0x100)]
  }

  /** The bytes of a record of length `size`; lengths are cut to their fields. */
  function Record(inode: nat, size: nat, name: Block): (r: Block)
    ensures |r| == HEAD + |name|
  {
    WordBytes(inode) + Bytes16(size) + [ByteOf(|name|), 1] + name
  }

  /** The tail of `fs_ext2_create_file` on the buffer and the memory behind it.
      The unsigned subtraction that gives the new length wraps. */
  function Insert(m: Block, bs: nat, inode: nat, name: Block): (r: Block)
    requires Chained(m, bs) && NewOffset(m, bs) + HEAD + |name| <= |m|
    ensures |r| == |m|
  {
    var o := LastOffset(m, bs, 0);
    var n := NewOffset(m, bs);
    Splice(Splice(m, o + 4, Bytes16(n - o)), n, Record(inode, Wrap(bs - n), name))
  }

  predicate Chained(m: Block, bs: nat) {
    0 < bs <= |m| && Tiles(m, bs, 0)
  }

  /** The block has room for the new record behind the last one. */
  predicate Room(m: Block, bs: nat, name: Block)
    requires Chained(m, bs)
  {
    NewOffset(m, bs) + HEAD + |name| <= bs
  }

  lemma Bytes16Read(w: nat)
    requires w < 0x1_0000
    ensures Value(ByteOf(w)) + 0x100 * Value(ByteOf(w / 0x100)) == w
  {
    hide ByteOf, Value;
    ByteValue(w);
    ByteValue(w / 0x100);
  }

  /** What the new record reads back as. */
  lemma RecordReads(m: Block, n: nat, inode: nat, size: nat, name: Block, r: Block)
    requires n + HEAD + |name| <= |m| && r == Splice(m, n, Record(inode, size, name))
    requires inode < WORD && |name| < 256
    ensures NameLen(r, n) == |name| && RecLen(r, n) == size % 0x1_0000
    ensures EntryAt(r, n) == Entry(inode, 1, name)
  {
    hide ByteOf, Value;
    WordOfBytes(inode);
    SizeBytes(size);
    ByteValue(|name|);
    ByteOne();
    var rec := Record(inode, size, name);
    assert forall x :: 0 <= x < |rec| ==> r[n + x] == rec[x];
    assert rec[0..4] == WordBytes(inode);
    assert r[n] == rec[0] && r[n + 1] == rec[1] && r[n + 2] == rec[2] && r[n + 3] == rec[3];
    assert r[n + 4] == ByteOf(size) && r[n + 5] == ByteOf(size / 0x100) && r[n + 6] == ByteOf(|name|) && r[n + 7] == 1;
    assert r[n + HEAD..n + HEAD + |name|] == name;
  }

  lemma SizeBytes(size: nat)
    ensures Value(ByteOf(size)) + 0x100 * Value(ByteOf(size / 0x100)) == size % 0x1_0000
  {
    hide ByteOf, Value;
    ByteValue(size);
    ByteValue(size / 0x100);
    var q, a, b := size / 0x1_0000, (size % 0x1_0000) / 0x100, (size % 0x1_0000) % 0x100;
    DivUnique(size, 0x100, 0x100 * q + a, b);
    DivUnique(0x100 * q + a, 0x100, q, a);
  }

  lemma ByteOne()
    ensures Value(1) == 1
  {
  }

  /** The chain up to the last record is as before but for the last length. */
  predicate ChainEdited(m: Block, r: Block, last: nat, n: nat)
    requires last + HEAD <= n <= |m| && |r| == |m|
  {
    && (forall x :: 0 <= x < n && !(last + 4 <= x < last + 6) ==> r[x] == m[x])
    && RecLen(r, last) == n - last
  }

  lemma SameHead(m: Block, r: Block, last: nat, n: nat, o: nat)
    requires last + HEAD <= n <= |m| && |r| == |m| && ChainEdited(m, r, last, n)
    requires o + HEAD <= last || o == last
    ensures NameLen(r, o) == NameLen(m, o) && (o != last ==> RecLen(r, o) == RecLen(m, o))
    ensures o + HEAD + NameLen(m, o) <= (if o == last then n else last) ==> EntryAt(r, o) == EntryAt(m, o)
  {
    hide Value;
    if o + HEAD + NameLen(m, o) <= (if o == last then n else last) {
      assert r[o + HEAD..o + HEAD + NameLen(m, o)] == m[o + HEAD..o + HEAD + NameLen(m, o)];
    }
  }

  /** From any record of the chain: the edited chain tiles exactly when its part
      from the new record on does, and lists the old entries and then that part. */
  lemma {:induction false} ChainInserted(m: Block, bs: nat, r: Block, o: nat, last: nat, n: nat)
    requires bs <= |m| && |r| == |m| && Tiles(m, bs, o) && o < bs && last == LastOffset(m, bs, o)
    requires n == last + Rounded(NameLen(m, last)) <= |m| && ChainEdited(m, r, last, n)
    ensures Tiles(r, bs, o) <==> n <= bs && Tiles(r, bs, n)
    ensures Tiles(r, bs, o) ==> ListFrom(r, bs, o) == ListFrom(m, bs, o) + ListFrom(r, bs, n)
    decreases bs - o
  {
    hide NameLen, RecLen, EntryAt, ChainEdited, Rounded;
    if o == last {
      SameHead(m, r, last, n, o);
      EditedLength(m, r, last, n);
      assert Tiles(m, bs, bs);
      if Tiles(r, bs, o) {
        assert ListFrom(m, bs, o) == [EntryAt(m, o)] + ListFrom(m, bs, bs);
      }
    } else {
      var next := o + RecLen(m, o);
      assert next <= last;
      SameHead(m, r, last, n, o);
      ChainInserted(m, bs, r, next, last, n);
    }
  }

  lemma EditedLength(m: Block, r: Block, last: nat, n: nat)
    requires last + HEAD <= n <= |m| && |r| == |m| && ChainEdited(m, r, last, n)
    ensures RecLen(r, last) == n - last
  {
  }

  lemma InsertEdits(m: Block, bs: nat, inode: nat, name: Block)
    requires Chained(m, bs) && bs <= 0x1_0000 && NewOffset(m, bs) + HEAD + |name| <= |m| && inode < WORD && |name| < 256
    ensures var r := Insert(m, bs, inode, name); var last := LastOffset(m, bs, 0); var n := NewOffset(m, bs);
      && ChainEdited(m, r, last, n)
      && NameLen(r, n) == |name| && RecLen(r, n) == Wrap(bs - n) % 0x1_0000 && EntryAt(r, n) == Entry(inode, 1, name)
      && forall x :: n + HEAD + |name| <= x < |m| ==> r[x] == m[x]
  {
    hide ByteOf, Value, LastOffset, Tiles, Record, ChainEdited, RecLen, NameLen, EntryAt, Bytes16, Rounded;
    InsertPlaces(m, bs);
    var last := LastOffset(m, bs, 0);
    var n := NewOffset(m, bs);
    var m1 := Splice(m, last + 4, Bytes16(n - last));
    var rec := Record(inode, Wrap(bs - n), name);
    EditLast(m, last, n);
    EditAppended(m, m1, rec, last, n);
    RecordReads(m1, n, inode, Wrap(bs - n), name, Insert(m, bs, inode, name));
  }

  lemma InsertPlaces(m: Block, bs: nat)
    requires Chained(m, bs)
    ensures LastOffset(m, bs, 0) + HEAD <= NewOffset(m, bs) < LastOffset(m, bs, 0) + 0x1_0000
  {
    hide Tiles, LastOffset, NameLen;
  }

  lemma EditLast(m: Block, last: nat, n: nat)
    requires last + HEAD <= n <= |m| && n - last < 0x1_0000
    ensures ChainEdited(m, Splice(m, last + 4, Bytes16(n - last)), last, n)
  {
    hide ByteOf, Value;
    Bytes16Read(n - last);
    var r := Splice(m, last + 4, Bytes16(n - last));
    assert r[last + 4] == ByteOf(n - last) && r[last + 5] == ByteOf((n - last) / 0x100);
  }

  lemma EditAppended(m: Block, m1: Block, rec: Block, last: nat, n: nat)
    requires last + HEAD <= n <= |m| && |m1| == |m| && ChainEdited(m, m1, last, n) && n + |rec| <= |m|
    ensures ChainEdited(m, Splice(m1, n, rec), last, n)
  {
    hide Value;
  }

  /** Creating a file leaves the block a chain that lists the old entries followed
      by the new one exactly when the last record has room for it; with room,
      nothing behind the block changes. The code does not check for room. */
  lemma InsertKeepsChainExactly(m: Block, bs: nat, inode: nat, name: Block)
    requires Chained(m, bs) && bs <= 0x1_0000 && NewOffset(m, bs) + HEAD + |name| <= |m| && inode < WORD && |name| < 256
    ensures var r := Insert(m, bs, inode, name);
      && (Room(m, bs, name) <==>
            Tiles(r, bs, 0) && ListFrom(r, bs, 0) == ListFrom(m, bs, 0) + [Entry(inode, 1, name)])
      && (Room(m, bs, name) ==> r[bs..] == m[bs..])
  {
    hide NameLen, RecLen, EntryAt, ChainEdited, LastOffset, Insert;
    InsertEdits(m, bs, inode, name);
    var r := Insert(m, bs, inode, name);
    var last := LastOffset(m, bs, 0);
    var n := NewOffset(m, bs);
    ChainInserted(m, bs, r, 0, last, n);
    if Room(m, bs, name) {
      assert Wrap(bs - n) == bs - n;
      assert Tiles(r, bs, bs);
      assert ListFrom(r, bs, n) == [EntryAt(r, n)] + ListFrom(r, bs, bs);
    } else if n == bs && Tiles(r, bs, 0) {
      assert ListFrom(r, bs, n) == [];
      assert |ListFrom(r, bs, 0)| == |ListFrom(m, bs, 0)|;
    } else if n < bs {
      assert Wrap(bs - n) == bs - n;
    }
  }

  // ----- a directory

  predicate IsDir(ino: Inode)
    requires |ino.raw| == INODE_BYTES
  {
    (Word(ino.raw, 0) % 0x1_0000) / 0x1000 == 4
  }

  function NumBlocks(fs: Fs, ino: Inode): nat
    requires Formatted(fs) && |ino.raw| == INODE_BYTES
  {
    CeilDiv(Size(ino), fs.geo.blockSize)
  }

  function DirBlock(fs: Fs, ino: Inode, i: nat): (r: Block)
    requires Formatted(fs) && |ino.raw| == INODE_BYTES
    ensures |r| == fs.geo.blockSize
  {
    ReadBlock(fs, Ptr(fs, ino, i))
  }

  /** Every block of the directory is there and holds a chain. */
  ghost predicate DirOk(fs: Fs, ino: Inode)
    requires Formatted(fs) && |ino.raw| == INODE_BYTES
  {
    && NumBlocks(fs, ino) <= MaxBlocks(fs.geo)
    && forall i: nat :: i < NumBlocks(fs, ino) ==>
         Ptr(fs, ino, i) != 0 && Chained(DirBlock(fs, ino, i), fs.geo.blockSize)
  }

  /** `fs_ext2_list_dir` over the first `k` blocks. */
  function ListBlocks(fs: Fs, ino: Inode, k: nat): seq<Entry>
    requires Formatted(fs) && |ino.raw| == INODE_BYTES && DirOk(fs, ino) && k <= NumBlocks(fs, ino)
  {
    if k == 0 then [] else ListBlocks(fs, ino, k - 1) + ListFrom(DirBlock(fs, ino, k - 1), fs.geo.blockSize, 0)
  }

  function ListDir(fs: Fs, ino: Inode): seq<Entry>
    requires Formatted(fs) && |ino.raw| == INODE_BYTES && DirOk(fs, ino)
  {
    ListBlocks(fs, ino, NumBlocks(fs, ino))
  }

  /** The end of `fs_ext2_create_file` for a name that fits the last block; a
      directory without blocks or a missing last block is left alone. */
  function AddEntry(fs: Fs, dir: Inode, inode: nat, name: Block): (r: Fs)
    requires Formatted(fs) && |dir.raw| == INODE_BYTES && DirOk(fs, dir)
    requires NumBlocks(fs, dir) > 0 ==> Room(DirBlock(fs, dir, NumBlocks(fs, dir) - 1), fs.geo.blockSize, name)
    ensures Formatted(r) && r.geo == fs.geo && |r.disk| == |fs.disk|
  {
    if !IsDir(dir) || NumBlocks(fs, dir) == 0 then fs
    else
      var b := Ptr(fs, dir, NumBlocks(fs, dir) - 1);
      WriteBlock(fs, b, Insert(ReadBlock(fs, b), fs.geo.blockSize, inode, name))
  }

  lemma {:induction false} BlocksBefore(fs: Fs, t: Fs, dir: Inode, k: nat)
    requires Formatted(fs) && Formatted(t) && |dir.raw| == INODE_BYTES && DirOk(fs, dir) && DirOk(t, dir)
             && NumBlocks(t, dir) == NumBlocks(fs, dir)
    requires k <= NumBlocks(fs, dir) && t.geo == fs.geo
    requires forall i: nat :: i < k ==> DirBlock(t, dir, i) == DirBlock(fs, dir, i)
    ensures ListBlocks(t, dir, k) == ListBlocks(fs, dir, k)
  {
    hide Formatted, DirBlock, Tiles, NumBlocks, DirOk, ListFrom;
    if k > 0 {
      BlocksBefore(fs, t, dir, k - 1);
      DirParts(fs, dir, k - 1);
    }
  }

  lemma DirParts(fs: Fs, dir: Inode, i: nat)
    requires Formatted(fs) && |dir.raw| == INODE_BYTES && DirOk(fs, dir)
    ensures NumBlocks(fs, dir) <= MaxBlocks(fs.geo)
    ensures i < NumBlocks(fs, dir) ==> Ptr(fs, dir, i) != 0 && Chained(DirBlock(fs, dir, i), fs.geo.blockSize)
  {
    hide Formatted, Ptr, ReadBlock, NumBlocks, Tiles;
  }

  /** With room in the last block, the directory lists its old entries and then the
      new file, and no other used block of the disk changes. */
  lemma AddEntryLists(fs: Fs, dir: Inode, inode: nat, name: Block)
    requires FsOk(fs) && Formatted(fs) && |dir.raw| == INODE_BYTES && FileOk(fs, dir) && DirOk(fs, dir)
             && IsDir(dir) && NumBlocks(fs, dir) > 0
    requires fs.geo.blockSize <= 0x1_0000 && inode < WORD && |name| < 256
    requires Room(DirBlock(fs, dir, NumBlocks(fs, dir) - 1), fs.geo.blockSize, name)
    ensures var t := AddEntry(fs, dir, inode, name);
      && FsOk(t) && FileOk(t, dir) && DirOk(t, dir) && ListDir(t, dir) == ListDir(fs, dir) + [Entry(inode, 1, name)]
      && (forall c: nat :: Foreign(fs, dir, c) ==> c < |fs.disk| && t.disk[c] == fs.disk[c])
  {
    hide FsOk, Formatted, Ptr, ReadBlock, WriteBlock, Tiles, ListFrom, Insert, NewOffset, FileOk, Foreign, IsDir,
         DirOk, NumBlocks;
    var last := NumBlocks(fs, dir) - 1;
    var bs := fs.geo.blockSize;
    DirParts(fs, dir, last);
    var before := DirBlock(fs, dir, last);
    var data := Insert(before, bs, inode, name);
    InsertKeepsChainExactly(before, bs, inode, name);
    DataWritten(fs, dir, last, data);
    var t := WriteBlock(fs, Ptr(fs, dir, last), data);
    SameCount(fs, t, dir);
    forall i: nat | i < NumBlocks(fs, dir)
      ensures Ptr(t, dir, i) != 0 && DirBlock(t, dir, i) == (if i == last then data else DirBlock(fs, dir, i))
      ensures Chained(DirBlock(t, dir, i), bs)
    {
      DirParts(fs, dir, i);
    }
    DirFrom(t, dir);
    BlocksBefore(fs, t, dir, last);
    forall c: nat | Foreign(fs, dir, c) ensures c < |fs.disk| { ForeignRange(fs, dir, c); }
  }

  lemma SameCount(fs: Fs, t: Fs, dir: Inode)
    requires Formatted(fs) && Formatted(t) && t.geo == fs.geo && |dir.raw| == INODE_BYTES
    ensures NumBlocks(t, dir) == NumBlocks(fs, dir)
  {
  }

  lemma DirFrom(t: Fs, dir: Inode)
    requires Formatted(t) && |dir.raw| == INODE_BYTES && NumBlocks(t, dir) <= MaxBlocks(t.geo)
    requires forall i: nat :: i < NumBlocks(t, dir) ==>
               Ptr(t, dir, i) != 0 && Chained(DirBlock(t, dir, i), t.geo.blockSize)
    ensures DirOk(t, dir)
  {
    hide Formatted, Ptr, ReadBlock, NumBlocks, DirBlock, Tiles;
  }

  // ----- the loops

  /** One block of `fs_ext2_list_dir`. */
  method ListBlock(buf: array<bv8>, bs: nat) returns (entries: seq<Entry>)
    requires Chained(buf[..], bs)
    ensures entries == ListFrom(buf[..], bs, 0)
  {
    hide ListFrom, Tiles, EntryAt, RecLen;
    entries := [];
    ListStep(buf[..], bs, bs);
    var offset := 0;
    while offset < bs
      invariant offset <= bs && Tiles(buf[..], bs, offset)
      invariant ListFrom(buf[..], bs, 0) == entries + ListFrom(buf[..], bs, offset)
      decreases bs - offset
      modifies {}
    {
      ListStep(buf[..], bs, offset);
      entries := entries + [EntryAt(buf[..], offset)];
      offset := offset + RecLen(buf[..], offset);
    }
  }

  lemma ListStep(m: Block, bs: nat, o: nat)
    requires bs <= |m|
    ensures Tiles(m, bs, bs) && ListFrom(m, bs, bs) == []
    ensures o < bs && Tiles(m, bs, o) ==>
              && o + HEAD <= bs && o < o + RecLen(m, o) <= bs && Tiles(m, bs, o + RecLen(m, o))
              && o + HEAD + NameLen(m, o) <= |m|
              && ListFrom(m, bs, o) == [EntryAt(m, o)] + ListFrom(m, bs, o + RecLen(m, o))
  {
  }

  /** The search for the last record. */
  method FindLast(buf: array<bv8>, bs: nat) returns (last: nat)
    requires Chained(buf[..], bs)
    ensures last == LastOffset(buf[..], bs, 0)
  {
    hide LastOffset;
    last := 0;
    var offset := 0;
    while offset < bs
      invariant offset <= bs && Tiles(buf[..], bs, offset)
      invariant offset < bs ==> LastOffset(buf[..], bs, 0) == LastOffset(buf[..], bs, offset)
      invariant offset == bs ==> last == LastOffset(buf[..], bs, 0)
      decreases bs - offset
      modifies {}
    {
      LastStep(buf[..], bs, offset);
      if RecLen(buf[..], offset) + offset == bs {
        last := offset;
      }
      offset := offset + RecLen(buf[..], offset);
    }
  }

  lemma LastStep(m: Block, bs: nat, o: nat)
    requires bs <= |m| && Tiles(m, bs, o) && o < bs
    ensures LastOffset(m, bs, o) == if o + RecLen(m, o) == bs then o else LastOffset(m, bs, o + RecLen(m, o))
  {
  }

  method CopyIn(buf: array<bv8>, o: nat, src: Block)
    requires o + |src| <= buf.Length
    modifies buf
    ensures buf[..] == Splice(old(buf[..]), o, src)
  {
    for k := 0 to |src|
      invariant forall x :: 0 <= x < buf.Length ==> buf[x] == if o <= x < o + k then src[x - o] else old(buf[x])
    {
      buf[o + k] := src[k];
    }
  }

  /** The insertion in the buffer: the last record shrinks, the new one takes the
      rest of the block. */
  method InsertRecord(buf: array<bv8>, bs: nat, inode: nat, name: Block)
    requires Chained(buf[..], bs) && NewOffset(buf[..], bs) + HEAD + |name| <= buf.Length
    modifies buf
    ensures buf[..] == Insert(old(buf[..]), bs, inode, name)
  {
    hide LastOffset, Tiles, Splice, Record, NameLen;
    var last := FindLast(buf, bs);
    var size := Rounded(NameLen(buf[..], last));
    var n := last + size;
    CopyIn(buf, last + 4, Bytes16(size));
    CopyIn(buf, n, Record(inode, Wrap(bs - n), name));
  }
}
