/** What a read gives, byte by byte, also of a file with a hole. */
module Ext2Reads {
  import opened ByteBlocks
  import opened Ext2Alloc
  import opened Ext2Files
  import opened Ext2FileIO
  import opened Ext2RoundTrip

  /** The position of block `j` in a file. */
  function BlockStart(j: nat, bs: nat): nat {
    j * bs
  }

  lemma StartNext(j: nat, bs: nat)
    ensures BlockStart(j + 1, bs) == BlockStart(j, bs) + bs && BlockStart(0, bs) == 0
  {
    MulStepUp(j, bs);
  }

  lemma StartsRise(i: nat, j: nat, bs: nat)
    requires i <= j
    ensures BlockStart(i, bs) <= BlockStart(j, bs)
  {
    MulGapOrEqual(bs, i, j);
  }

  /** Byte `x` of block `j`, read from block `i` on. */
  lemma {:induction false} ByteOfBlock(fs: Fs, ino: Inode, size: nat, i: nat, m: nat, j: nat, x: nat)
    requires Formatted(fs) && |ino.raw| == INODE_BYTES && i <= j < m <= CeilDiv(Size(ino), fs.geo.blockSize)
    requires x < fs.geo.blockSize && BlockStart(j, fs.geo.blockSize) + x < size
    requires forall y: nat :: i <= y < m ==> Ptr(fs, ino, y) != 0
    ensures BlockStart(i, fs.geo.blockSize) <= BlockStart(j, fs.geo.blockSize)
    ensures var bs := fs.geo.blockSize; var r := ReadFrom(fs, ino, size, i, BlockStart(i, bs));
      var k: nat := BlockStart(j, bs) - BlockStart(i, bs) + x;
      k < |r| && r[k] == ReadBlock(fs, Ptr(fs, ino, j))[x]
    decreases j - i
  {
    hide Formatted, Ptr, ReadBlock, Size, CeilDiv, BlockStart;
    var bs := fs.geo.blockSize;
    FormattedSize(fs);
    StartsRise(i, j, bs);
    StartNext(i, bs);
    if i < j {
      StartsRise(i + 1, j, bs);
      ByteOfBlock(fs, ino, size, i + 1, m, j, x);
    }
  }

  /** Where the read of blocks `i` to `m` ends, when a hole or the last block ends it. */
  lemma {:induction false} ReadStops(fs: Fs, ino: Inode, size: nat, i: nat, m: nat)
    requires Formatted(fs) && |ino.raw| == INODE_BYTES && i <= m <= CeilDiv(Size(ino), fs.geo.blockSize)
    requires forall y: nat :: i <= y < m ==> Ptr(fs, ino, y) != 0
    requires m == CeilDiv(Size(ino), fs.geo.blockSize) || Ptr(fs, ino, m) == 0
    ensures var bs := fs.geo.blockSize; var w := BlockStart(i, bs);
      w + |ReadFrom(fs, ino, size, i, w)| == if size <= w then w else Least(size, BlockStart(m, bs))
    decreases m - i
  {
    hide Formatted, Ptr, ReadBlock, Size, CeilDiv, BlockStart;
    var bs := fs.geo.blockSize;
    FormattedSize(fs);
    StartNext(i, bs);
    if i < m {
      StartsRise(i + 1, m, bs);
      ReadStops(fs, ino, size, i + 1, m);
    }
  }

  /** A read of a file gives, of the size asked for, the bytes of its blocks up to the
      first hole or the block its size ends in, whichever comes first. */
  lemma ReadGives(fs: Fs, ino: Inode, size: nat, m: nat)
    requires Formatted(fs) && |ino.raw| == INODE_BYTES && IsFile(ino)
    requires m <= CeilDiv(Size(ino), fs.geo.blockSize) && forall y: nat :: y < m ==> Ptr(fs, ino, y) != 0
    requires m == CeilDiv(Size(ino), fs.geo.blockSize) || Ptr(fs, ino, m) == 0
    ensures ReadFile(fs, ino, size).Some?
    ensures |ReadFile(fs, ino, size).value| == Least(size, BlockStart(m, fs.geo.blockSize))
    ensures forall j: nat, x: nat :: j < m && x < fs.geo.blockSize && BlockStart(j, fs.geo.blockSize) + x < size ==>
              ByteRead(fs, ino, ReadFile(fs, ino, size).value, j, x)
  {
    hide Formatted, Ptr, ReadBlock, Size, CeilDiv, ReadFrom, BlockStart;
    var bs := fs.geo.blockSize;
    StartNext(0, bs);
    ReadStops(fs, ino, size, 0, m);
    forall j: nat, x: nat | j < m && x < bs && BlockStart(j, bs) + x < size
      ensures ByteRead(fs, ino, ReadFile(fs, ino, size).value, j, x)
    {
      ByteOfBlock(fs, ino, size, 0, m, j, x);
    }
  }

  /** In what was read, byte `x` of block `j` is in its place. */
  predicate ByteRead(fs: Fs, ino: Inode, r: Block, j: nat, x: nat)
    requires Formatted(fs) && |ino.raw| == INODE_BYTES && x < fs.geo.blockSize
  {
    var k := BlockStart(j, fs.geo.blockSize) + x;
    k < |r| && r[k] == ReadBlock(fs, Ptr(fs, ino, j))[x]
  }
}
