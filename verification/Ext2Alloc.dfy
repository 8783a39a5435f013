/** Block and inode allocation: bitmaps on disk, a free count for each group and
    one for the file system. */
module Ext2Alloc {
  import opened Bits
  import opened Frames
  import opened ByteBlocks

  datatype Geometry = Geometry(blockSize: nat, blocksPerGroup: nat, inodesPerGroup: nat, inodeSize: nat)

  /** A block group descriptor. */
  datatype Group = Group(blockBitmap: nat, inodeBitmap: nat, inodeTable: nat, freeBlocks: nat, freeInodes: nat)

  /** `saved` is what the descriptor table and the superblock on disk say. */
  datatype Saved = Saved(groups: seq<Group>, freeBlocks: nat, freeInodes: nat)

  datatype Fs = Fs(geo: Geometry, disk: seq<Block>, groups: seq<Group>, freeBlocks: nat, freeInodes: nat, saved: Saved)

  datatype Kind = Blocks | Inodes

  function BitmapOf(d: Group, kind: Kind): nat {
    if kind.Blocks? then d.blockBitmap else d.inodeBitmap
  }

  function FreeIn(d: Group, kind: Kind): nat {
    if kind.Blocks? then d.freeBlocks else d.freeInodes
  }

  function Total(fs: Fs, kind: Kind): nat {
    if kind.Blocks? then fs.freeBlocks else fs.freeInodes
  }

  /** How many bits the search looks at, and how many numbers a group has. */
  function Limit(geo: Geometry, kind: Kind): nat {
    if kind.Blocks? then 8 * geo.blockSize else 8 * (geo.inodesPerGroup / 8)
  }

  function PerGroup(geo: Geometry, kind: Kind): nat {
    if kind.Blocks? then geo.blocksPerGroup else geo.inodesPerGroup
  }

  function FirstNumber(kind: Kind): nat {
    if kind.Blocks? then 0 else 1
  }

  /** What mkfs lays out: bitmaps in range, no two of them in one block. */
  ghost predicate Formatted(fs: Fs) {
    && 0 < fs.geo.blockSize && fs.geo.blockSize % 4 == 0
    && fs.groups != [] && 0 < PerGroup(fs.geo, Blocks) && 0 < PerGroup(fs.geo, Inodes)
    && Limit(fs.geo, Inodes) <= Limit(fs.geo, Blocks)
    && (forall b :: 0 <= b < |fs.disk| ==> |fs.disk[b]| == fs.geo.blockSize)
    && (forall g, kind :: 0 <= g < |fs.groups| ==> BitmapOf(fs.groups[g], kind) < |fs.disk|)
    && (forall g, kind, h, other :: 0 <= g < |fs.groups| && 0 <= h < |fs.groups| && (g != h || kind != other) ==>
          BitmapOf(fs.groups[g], kind) != BitmapOf(fs.groups[h], other))
  }

  function Bitmap(fs: Fs, g: nat, kind: Kind): Block {
    if g < |fs.groups| && BitmapOf(fs.groups[g], kind) < |fs.disk| then fs.disk[BitmapOf(fs.groups[g], kind)] else []
  }

  // ----- counting and finding clear bits

  function Zeros(bm: Block, n: nat): nat {
    if n == 0 then 0 else Zeros(bm, n - 1) + (if InUse(bm, n - 1) then 0 else 1)
  }

  function FirstZero(bm: Block, n: nat, f: nat): (r: nat)
    requires f <= n
    ensures f <= r <= n && (r < n ==> !InUse(bm, r)) && forall x: nat :: f <= x < r ==> InUse(bm, x)
    decreases n - f
  {
    if f == n || !InUse(bm, f) then f else FirstZero(bm, n, f + 1)
  }

  lemma {:induction false} ZerosMark(bm: Block, n: nat, f: nat)
    requires f < 8 * |bm| && !InUse(bm, f)
    ensures Zeros(Mark(bm, f), n) == Zeros(bm, n) - (if f < n then 1 else 0)
  {
    if n > 0 {
      ZerosMark(bm, n - 1, f);
      MarkUses(bm, f, n - 1);
    }
  }

  lemma {:induction false} ZerosNone(bm: Block, n: nat)
    ensures Zeros(bm, n) == 0 <==> forall f: nat :: f < n ==> InUse(bm, f)
  {
    if n > 0 {
      ZerosNone(bm, n - 1);
    }
  }

  // ----- the search over groups and the updates

  predicate Usable(fs: Fs, kind: Kind, g: nat) {
    && g < |fs.groups| && FreeIn(fs.groups[g], kind) > 0
    && FirstZero(Bitmap(fs, g, kind), Limit(fs.geo, kind), 0) < Limit(fs.geo, kind)
  }

  /** The group tried after `i` others. */
  function Nth(fs: Fs, preferred: nat, i: nat): (g: nat)
    requires fs.groups != []
    ensures g < |fs.groups|
  {
    (preferred + i) % |fs.groups|
  }

  /** The first usable group from `preferred` on, cyclically; `tried` groups are
      behind. The number of groups stands for none. */
  function Pick(fs: Fs, kind: Kind, preferred: nat, tried: nat): (g: nat)
    requires tried <= |fs.groups|
    ensures g < |fs.groups| ==> Usable(fs, kind, g)
    ensures g <= |fs.groups|
    decreases |fs.groups| - tried
  {
    if tried == |fs.groups| then |fs.groups|
    else
      var g := Nth(fs, preferred, tried);
      if Usable(fs, kind, g) then g else Pick(fs, kind, preferred, tried + 1)
  }

  function LessFree(d: Group, kind: Kind): Group
    requires FreeIn(d, kind) > 0
  {
    if kind.Blocks? then d.(freeBlocks := d.freeBlocks - 1) else d.(freeInodes := d.freeInodes - 1)
  }

  /** Bit `f` of group `g` is taken; both counters go down and are written back. */
  function TakeBit(fs: Fs, kind: Kind, g: nat, f: nat): Fs
    requires g < |fs.groups| && FreeIn(fs.groups[g], kind) > 0
    requires BitmapOf(fs.groups[g], kind) < |fs.disk| && f < 8 * |Bitmap(fs, g, kind)|
  {
    var b := BitmapOf(fs.groups[g], kind);
    var groups := fs.groups[g := LessFree(fs.groups[g], kind)];
    var freeBlocks := if kind.Blocks? then Wrap(fs.freeBlocks - 1) else fs.freeBlocks;
    var freeInodes := if kind.Inodes? then Wrap(fs.freeInodes - 1) else fs.freeInodes;
    fs.(disk := fs.disk[b := Mark(fs.disk[b], f)], groups := groups, freeBlocks := freeBlocks,
        freeInodes := freeInodes, saved := Saved(groups, freeBlocks, freeInodes))
  }

  function NumberOf(fs: Fs, kind: Kind, g: nat, f: nat): nat {
    g * PerGroup(fs.geo, kind) + f + FirstNumber(kind)
  }

  /** `fs_ext2_alloc_block` and `fs_ext2_alloc_inode`: 0 for failure. */
  function Alloc(fs: Fs, kind: Kind, preferred: nat): (r: (Fs, nat))
    requires Formatted(fs)
    ensures Formatted(r.0) && r.0.geo == fs.geo && |r.0.disk| == |fs.disk|
  {
    var g := Pick(fs, kind, preferred, 0);
    if g == |fs.groups| then (fs, 0)
    else
      var f := FirstZero(Bitmap(fs, g, kind), Limit(fs.geo, kind), 0);
      LimitFits(fs, kind);
      TakeBitFormatted(fs, kind, g, f);
      (TakeBit(fs, kind, g, f), NumberOf(fs, kind, g, f))
  }

  // ----- accounting

  function SumFree(groups: seq<Group>, kind: Kind): nat {
    if groups == [] then 0 else SumFree(groups[..|groups| - 1], kind) + FreeIn(groups[|groups| - 1], kind)
  }

  /** Each group counts the clear bits of its bitmap, the superblock their sum. */
  ghost predicate Accounted(fs: Fs, kind: Kind) {
    && Total(fs, kind) < WORD
    && (forall g :: 0 <= g < |fs.groups| ==>
          FreeIn(fs.groups[g], kind) == Zeros(Bitmap(fs, g, kind), Limit(fs.geo, kind)))
    && Total(fs, kind) == SumFree(fs.groups, kind)
  }

  lemma {:induction false} SumUpdated(groups: seq<Group>, kind: Kind, g: nat, d: Group)
    requires g < |groups|
    ensures SumFree(groups[g := d], kind) == SumFree(groups, kind) - FreeIn(groups[g], kind) + FreeIn(d, kind)
    ensures SumFree(groups, kind) >= FreeIn(groups[g], kind)
    decreases |groups|
  {
    var last := |groups| - 1;
    if g < last {
      SumUpdated(groups[..last], kind, g, d);
      assert groups[g := d][..last] == groups[..last][g := d];
    } else {
      assert groups[g := d][..last] == groups[..last];
    }
  }

  lemma {:induction false} PickFinds(fs: Fs, kind: Kind, preferred: nat, tried: nat)
    requires fs.groups != [] && tried <= |fs.groups|
    ensures Pick(fs, kind, preferred, tried) == |fs.groups|
            <==> forall i: nat :: tried <= i < |fs.groups| ==> !Usable(fs, kind, Nth(fs, preferred, i))
    decreases |fs.groups| - tried
  {
    hide Usable, Nth;
    if tried < |fs.groups| {
      PickFinds(fs, kind, preferred, tried + 1);
    }
  }

  lemma Cyclic(preferred: nat, g: nat, n: nat) returns (i: nat)
    requires g < n
    ensures i < n && (preferred + i) % n == g
  {
    var p := preferred % n;
    i := if g >= p then g - p else g + n - p;
    ModOffset(preferred, i, n, g);
  }

  lemma ModOffset(preferred: nat, i: nat, n: nat, g: nat)
    requires 0 < n && g < n && i < n
    requires preferred % n + i == g || preferred % n + i == g + n
    ensures (preferred + i) % n == g
  {
    var q := preferred / n;
    var r := preferred % n;
    assert preferred == n * q + r;
    if r + i == g {
      DivUnique(preferred + i, n, q, g);
    } else {
      assert n * (q + 1) == n * q + n;
      DivUnique(preferred + i, n, q + 1, g);
    }
  }

  /** The search fails exactly when no group has both a positive count and a clear
      bit; with honest counts, exactly when every bit it may look at is set. */
  lemma AllocFailsWhenFull(fs: Fs, kind: Kind, preferred: nat)
    requires Formatted(fs) && Accounted(fs, kind)
    ensures Pick(fs, kind, preferred, 0) == |fs.groups|
            <==> forall g, f: nat :: 0 <= g < |fs.groups| && f < Limit(fs.geo, kind) ==> InUse(Bitmap(fs, g, kind), f)
    ensures Pick(fs, kind, preferred, 0) == |fs.groups| <==> Total(fs, kind) == 0
  {
    PickFinds(fs, kind, preferred, 0);
    forall g | 0 <= g < |fs.groups|
      ensures Usable(fs, kind, g) <==> FreeIn(fs.groups[g], kind) > 0
      ensures FreeIn(fs.groups[g], kind) == 0 <==>
                forall f: nat :: f < Limit(fs.geo, kind) ==> InUse(Bitmap(fs, g, kind), f)
    {
      ZerosNone(Bitmap(fs, g, kind), Limit(fs.geo, kind));
    }
    if Pick(fs, kind, preferred, 0) == |fs.groups| {
      forall g | 0 <= g < |fs.groups| ensures FreeIn(fs.groups[g], kind) == 0 {
        var i := Cyclic(preferred, g, |fs.groups|);
        assert !Usable(fs, kind, Nth(fs, preferred, i));
      }
    }
    SumZero(fs.groups, kind);
  }

  lemma {:induction false} SumZero(groups: seq<Group>, kind: Kind)
    ensures SumFree(groups, kind) == 0 <==> forall g :: 0 <= g < |groups| ==> FreeIn(groups[g], kind) == 0
    decreases |groups|
  {
    if groups != [] {
      var init := groups[..|groups| - 1];
      SumZero(init, kind);
      assert forall g :: 0 <= g < |init| ==> groups[g] == init[g];
    }
  }

  // ----- what one allocation does

  /** The bit belongs to the group's own numbers and is not number 0. */
  ghost predicate PaddingUsed(fs: Fs, kind: Kind) {
    && (forall g, f: nat :: 0 <= g < |fs.groups| && f < Limit(fs.geo, kind) && !InUse(Bitmap(fs, g, kind), f) ==>
          f < PerGroup(fs.geo, kind))
    && (kind.Blocks? ==> InUse(Bitmap(fs, 0, kind), 0))
  }

  function GroupOf(fs: Fs, kind: Kind, n: nat): nat
    requires PerGroup(fs.geo, kind) > 0 && n >= FirstNumber(kind)
  {
    (n - FirstNumber(kind)) / PerGroup(fs.geo, kind)
  }

  function BitOf(fs: Fs, kind: Kind, n: nat): nat
    requires PerGroup(fs.geo, kind) > 0 && n >= FirstNumber(kind)
  {
    (n - FirstNumber(kind)) % PerGroup(fs.geo, kind)
  }

  /** Number `n` is marked used in the bitmap of its group. */
  predicate NumberInUse(fs: Fs, kind: Kind, n: nat)
    requires PerGroup(fs.geo, kind) > 0
  {
    n >= FirstNumber(kind) ==> InUse(Bitmap(fs, GroupOf(fs, kind, n), kind), BitOf(fs, kind, n))
  }

  lemma Decode(fs: Fs, kind: Kind, g: nat, f: nat)
    requires PerGroup(fs.geo, kind) > 0 && f < PerGroup(fs.geo, kind)
    ensures var n := NumberOf(fs, kind, g, f);
      n >= FirstNumber(kind) && GroupOf(fs, kind, n) == g && BitOf(fs, kind, n) == f
  {
    MulCommutes(g, PerGroup(fs.geo, kind));
    DivUnique(NumberOf(fs, kind, g, f) - FirstNumber(kind), PerGroup(fs.geo, kind), g, f);
  }

  lemma Encode(fs: Fs, kind: Kind, n: nat)
    requires PerGroup(fs.geo, kind) > 0 && n >= FirstNumber(kind)
    ensures BitOf(fs, kind, n) < PerGroup(fs.geo, kind)
    ensures NumberOf(fs, kind, GroupOf(fs, kind, n), BitOf(fs, kind, n)) == n
  {
    SplitNumber(n - FirstNumber(kind), PerGroup(fs.geo, kind));
    MulCommutes(GroupOf(fs, kind, n), PerGroup(fs.geo, kind));
  }

  lemma BitmapSize(fs: Fs, kind: Kind, g: nat)
    requires Formatted(fs) && g < |fs.groups|
    ensures BitmapOf(fs.groups[g], kind) < |fs.disk|
            && 8 * |Bitmap(fs, g, kind)| == 8 * fs.geo.blockSize >= Limit(fs.geo, kind)
  {
  }

  lemma BitmapAfter(fs: Fs, kind: Kind, g: nat, f: nat, h: nat, other: Kind)
    requires Formatted(fs) && g < |fs.groups| && FreeIn(fs.groups[g], kind) > 0 && f < 8 * fs.geo.blockSize
    requires h < |fs.groups|
    ensures f < 8 * |Bitmap(fs, g, kind)|
    ensures Bitmap(TakeBit(fs, kind, g, f), h, other)
            == if h == g && other == kind then Mark(Bitmap(fs, g, kind), f) else Bitmap(fs, h, other)
  {
    BitmapSize(fs, kind, g);
    BitmapSize(fs, other, h);
  }

  lemma TakeBitFormatted(fs: Fs, kind: Kind, g: nat, f: nat)
    requires Formatted(fs) && g < |fs.groups| && FreeIn(fs.groups[g], kind) > 0 && f < 8 * fs.geo.blockSize
    ensures f < 8 * |Bitmap(fs, g, kind)| && Formatted(TakeBit(fs, kind, g, f))
  {
    BitmapSize(fs, kind, g);
    var t := TakeBit(fs, kind, g, f);
    forall h, other | 0 <= h < |fs.groups| ensures BitmapOf(t.groups[h], other) == BitmapOf(fs.groups[h], other) {
    }
  }

  lemma TakeBitFields(fs: Fs, kind: Kind, g: nat, f: nat, other: Kind)
    requires g < |fs.groups| && FreeIn(fs.groups[g], kind) > 0
    requires BitmapOf(fs.groups[g], kind) < |fs.disk| && f < 8 * |Bitmap(fs, g, kind)|
    ensures var t := TakeBit(fs, kind, g, f);
      && t.geo == fs.geo && t.groups == fs.groups[g := LessFree(fs.groups[g], kind)]
      && Total(t, other) == (if other == kind then Wrap(Total(fs, other) - 1) else Total(fs, other))
      && FreeIn(LessFree(fs.groups[g], kind), other) == FreeIn(fs.groups[g], other) - (if other == kind then 1 else 0)
  {
  }

  /** Taking a clear bit keeps both accounts, of blocks and of inodes. */
  lemma TakeBitAccounts(fs: Fs, kind: Kind, g: nat, f: nat, other: Kind)
    requires Formatted(fs) && Accounted(fs, other)
    requires g < |fs.groups| && FreeIn(fs.groups[g], kind) > 0
    requires f < Limit(fs.geo, kind) && !InUse(Bitmap(fs, g, kind), f)
    ensures f < 8 * |Bitmap(fs, g, kind)|
    ensures Accounted(TakeBit(fs, kind, g, f), other)
    ensures Total(TakeBit(fs, kind, g, f), other) == Total(fs, other) - (if other == kind then 1 else 0)
  {
    hide Formatted, TakeBit, Bitmap, LessFree, Limit, InUse;
    BitmapSize(fs, kind, g);
    TakeBitFields(fs, kind, g, f, other);
    var t := TakeBit(fs, kind, g, f);
    SumUpdated(fs.groups, other, g, LessFree(fs.groups[g], kind));
    forall h | 0 <= h < |fs.groups|
      ensures FreeIn(t.groups[h], other) == Zeros(Bitmap(t, h, other), Limit(fs.geo, other))
    {
      LimitFits(fs, kind);
      BitmapAfter(fs, kind, g, f, h, other);
      if h == g && other == kind {
        ZerosMark(Bitmap(fs, g, kind), Limit(fs.geo, kind), f);
      }
    }
  }

  lemma LimitFits(fs: Fs, kind: Kind)
    requires Formatted(fs)
    ensures Limit(fs.geo, kind) <= 8 * fs.geo.blockSize
  {
  }

  /** Allocation keeps the accounts; it hands out a number that was not in use and
      is from then on, and takes no other number's mark away. It returns 0 exactly
      when the file system has nothing free. */
  lemma AllocAccounts(fs: Fs, kind: Kind, preferred: nat)
    requires Formatted(fs) && Accounted(fs, Blocks) && Accounted(fs, Inodes) && PaddingUsed(fs, kind)
    ensures var (t, n) := Alloc(fs, kind, preferred);
      && Formatted(t) && Accounted(t, Blocks) && Accounted(t, Inodes) && t.geo == fs.geo
      && (n == 0 <==> Total(fs, kind) == 0)
      && (n == 0 ==> t == fs)
      && (n != 0 ==> !NumberInUse(fs, kind, n) && NumberInUse(t, kind, n)
                     && Total(t, kind) == Total(fs, kind) - 1
                     && t.saved == Saved(t.groups, t.freeBlocks, t.freeInodes))
      && forall m: nat :: m != n ==> (NumberInUse(t, kind, m) <==> NumberInUse(fs, kind, m))
  {
    AllocFailsWhenFull(fs, kind, preferred);
    var g := Pick(fs, kind, preferred, 0);
    if g < |fs.groups| {
      var f := FirstZero(Bitmap(fs, g, kind), Limit(fs.geo, kind), 0);
      AllocTakes(fs, kind, g, f);
    }
  }

  lemma AllocTakes(fs: Fs, kind: Kind, g: nat, f: nat)
    requires Formatted(fs) && Accounted(fs, Blocks) && Accounted(fs, Inodes) && PaddingUsed(fs, kind)
    requires g < |fs.groups| && FreeIn(fs.groups[g], kind) > 0
    requires f < Limit(fs.geo, kind) && !InUse(Bitmap(fs, g, kind), f)
    ensures f < 8 * |Bitmap(fs, g, kind)|
    ensures var t := TakeBit(fs, kind, g, f); var n := NumberOf(fs, kind, g, f);
      && Formatted(t) && Accounted(t, Blocks) && Accounted(t, Inodes) && t.geo == fs.geo
      && n != 0 && !NumberInUse(fs, kind, n) && NumberInUse(t, kind, n)
      && Total(t, kind) == Total(fs, kind) - 1
      && t.saved == Saved(t.groups, t.freeBlocks, t.freeInodes)
      && forall m: nat :: m != n ==> (NumberInUse(t, kind, m) <==> NumberInUse(fs, kind, m))
  {
    hide Formatted, Accounted, TakeBit, Bitmap, InUse, NumberInUse;
    LimitFits(fs, kind);
    BitmapSize(fs, kind, g);
    TakeBitFormatted(fs, kind, g, f);
    TakeBitAccounts(fs, kind, g, f, Blocks);
    TakeBitAccounts(fs, kind, g, f, Inodes);
    TakeBitFields(fs, kind, g, f, kind);
    PerGroupPositive(fs, kind);
    BitmapAfterUses(fs, kind, g, f);
    var t := TakeBit(fs, kind, g, f);
    TakeBitSaved(fs, kind, g, f);
    assert NumberOf(fs, kind, g, f) != 0 by {
      if kind.Blocks? && g > 0 { MulGap(PerGroup(fs.geo, kind), 0, g); }
    }
    NumbersAfter(fs, t, kind, g, f);
  }

  lemma TakeBitSaved(fs: Fs, kind: Kind, g: nat, f: nat)
    requires g < |fs.groups| && FreeIn(fs.groups[g], kind) > 0
    requires BitmapOf(fs.groups[g], kind) < |fs.disk| && f < 8 * |Bitmap(fs, g, kind)|
    ensures var t := TakeBit(fs, kind, g, f); t.saved == Saved(t.groups, t.freeBlocks, t.freeInodes)
  {
  }

  lemma PerGroupPositive(fs: Fs, kind: Kind)
    requires Formatted(fs)
    ensures PerGroup(fs.geo, kind) > 0
  {
  }

  /** Among numbers, the mark of (g, f) is the mark of one number only. */
  lemma NumbersAfter(fs: Fs, t: Fs, kind: Kind, g: nat, f: nat)
    requires PerGroup(fs.geo, kind) > 0 && t.geo == fs.geo && f < PerGroup(fs.geo, kind)
             && !InUse(Bitmap(fs, g, kind), f)
    requires forall h, x: nat :: InUse(Bitmap(t, h, kind), x) <==> (h == g && x == f) || InUse(Bitmap(fs, h, kind), x)
    ensures var n := NumberOf(fs, kind, g, f);
      && !NumberInUse(fs, kind, n) && NumberInUse(t, kind, n)
      && forall m: nat :: m != n ==> (NumberInUse(t, kind, m) <==> NumberInUse(fs, kind, m))
  {
    hide Bitmap, InUse, GroupOf, BitOf, NumberOf;
    Decode(fs, kind, g, f);
    DecodeSame(fs, t, kind);
    forall m: nat | m != NumberOf(fs, kind, g, f) ensures NumberInUse(t, kind, m) <==> NumberInUse(fs, kind, m) {
      if m >= FirstNumber(kind) {
        Encode(fs, kind, m);
      }
    }
  }

  lemma DecodeSame(fs: Fs, t: Fs, kind: Kind)
    requires PerGroup(fs.geo, kind) > 0 && t.geo == fs.geo
    ensures forall n: nat :: n >= FirstNumber(kind) ==>
              GroupOf(t, kind, n) == GroupOf(fs, kind, n) && BitOf(t, kind, n) == BitOf(fs, kind, n)
  {
  }

  lemma BitmapAfterUses(fs: Fs, kind: Kind, g: nat, f: nat)
    requires Formatted(fs) && g < |fs.groups| && FreeIn(fs.groups[g], kind) > 0 && f < 8 * fs.geo.blockSize
    ensures f < 8 * |Bitmap(fs, g, kind)|
    ensures forall h, x: nat ::
              InUse(Bitmap(TakeBit(fs, kind, g, f), h, kind), x) <==>
                (h == g && x == f) || InUse(Bitmap(fs, h, kind), x)
  {
    BitmapSize(fs, kind, g);
    var t := TakeBit(fs, kind, g, f);
    forall h: nat, x: nat
      ensures InUse(Bitmap(t, h, kind), x) <==> (h == g && x == f) || InUse(Bitmap(fs, h, kind), x)
    {
      if h < |fs.groups| {
        BitmapAfter(fs, kind, g, f, h, kind);
        if h == g { MarkUses(Bitmap(fs, g, kind), f, x); }
      }
    }
  }
}
