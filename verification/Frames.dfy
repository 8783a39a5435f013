/** The physical frame allocator: a bitmap searched first fit. */
module Frames {
  import opened Bits
  import opened Options

  const PAGE: nat := 4096

  // ----- bits of a byte

  function Mask(j: nat): bv8
    requires j < 8
  {
    (1 as bv8) << j
  }

  predicate Bit(b: bv8, j: nat)
    requires j < 8
  {
    b & Mask(j) != 0
  }

  lemma MaskValues(j: nat)
    requires j < 8
    ensures Mask(j) == (match j case 0 => 1 case 1 => 2 case 2 => 4 case 3 => 8
                        case 4 => 16 case 5 => 32 case 6 => 64 case _ => 128)
  {
  }

  lemma SetBit(b: bv8, j: nat, i: nat)
    requires j < 8 && i < 8
    ensures Bit(b | Mask(j), i) <==> i == j || Bit(b, i)
  {
    MaskValues(i);
    MaskValues(j);
  }

  lemma ClearBit(b: bv8, j: nat, i: nat)
    requires j < 8 && i < 8
    ensures Bit(b & !Mask(j), i) <==> i != j && Bit(b, i)
  {
    MaskValues(i);
    MaskValues(j);
  }

  // ----- the bitmap

  predicate InUse(bm: seq<bv8>, f: nat) {
    f < 8 * |bm| ==> Bit(bm[f / 8], f % 8)
  }

  function Mark(bm: seq<bv8>, f: nat): (r: seq<bv8>)
    requires f < 8 * |bm|
    ensures |r| == |bm|
  {
    bm[f / 8 := bm[f / 8] | Mask(f % 8)]
  }

  function Unmark(bm: seq<bv8>, f: nat): (r: seq<bv8>)
    requires f < 8 * |bm|
    ensures |r| == |bm|
  {
    bm[f / 8 := bm[f / 8] & !Mask(f % 8)]
  }

  lemma MarkUses(bm: seq<bv8>, f: nat, g: nat)
    requires f < 8 * |bm|
    ensures InUse(Mark(bm, f), g) <==> g == f || InUse(bm, g)
  {
    if g < 8 * |bm| && g / 8 == f / 8 {
      SetBit(bm[f / 8], f % 8, g % 8);
    }
  }

  lemma UnmarkFrees(bm: seq<bv8>, f: nat, g: nat)
    requires f < 8 * |bm|
    ensures InUse(Unmark(bm, f), g) <==> g != f && InUse(bm, g)
  {
    if g < 8 * |bm| && g / 8 == f / 8 {
      ClearBit(bm[f / 8], f % 8, g % 8);
    }
  }

  /** The frames in use, of the `8 * |bm|` frames the bitmap speaks of. */
  function Used(bm: seq<bv8>): set<nat> {
    set f: nat | f < 8 * |bm| && InUse(bm, f)
  }

  lemma MarkUsed(bm: seq<bv8>, f: nat)
    requires f < 8 * |bm|
    ensures Used(Mark(bm, f)) == Used(bm) + {f}
  {
    forall g: nat | g < 8 * |bm| ensures InUse(Mark(bm, f), g) <==> g == f || InUse(bm, g) {
      MarkUses(bm, f, g);
    }
  }

  lemma UnmarkUsed(bm: seq<bv8>, f: nat)
    requires f < 8 * |bm|
    ensures Used(Unmark(bm, f)) == Used(bm) - {f}
  {
    forall g: nat | g < 8 * |bm| ensures InUse(Unmark(bm, f), g) <==> g != f && InUse(bm, g) {
      UnmarkFrees(bm, f, g);
    }
  }

  /** The lowest frame from `f` on that is not in use, of `n` frames in all. */
  function LowestFree(used: set<nat>, n: nat, f: nat): (r: Option<nat>)
    requires f <= n
    ensures r.Some? ==> f <= r.value < n && r.value !in used && forall g: nat :: f <= g < r.value ==> g in used
    ensures r.None? ==> forall g: nat :: f <= g < n ==> g in used
    decreases n - f
  {
    if f == n then None
    else if f !in used then Some(f)
    else LowestFree(used, n, f + 1)
  }

  /** The frame a first-fit search of the bitmap ends at. */
  function FirstFit(bm: seq<bv8>): Option<nat> {
    LowestFree(Used(bm), 8 * |bm|, 0)
  }

  lemma FirstFitAt(bm: seq<bv8>, f: nat)
    requires f < 8 * |bm| && !InUse(bm, f) && forall g: nat :: g < f ==> InUse(bm, g)
    ensures FirstFit(bm) == Some(f)
  {
    assert f !in Used(bm) && forall g: nat :: g < f ==> g in Used(bm);
    assert LowestFree(Used(bm), 8 * |bm|, 0).Some?;
  }

  lemma FirstFitFull(bm: seq<bv8>)
    requires forall g: nat :: g < 8 * |bm| ==> InUse(bm, g)
    ensures FirstFit(bm) == None
  {
  }

  // ----- the memory map

  /** A region of the memory map; kind 1 is usable memory. */
  datatype MapEntry = MapEntry(base: nat, len: nat, kind: nat)

  /** The end of a region, cut to 32 bits. */
  function EndOf(e: MapEntry): (r: nat)
    ensures r < WORD
  {
    Wrap(e.base + e.len)
  }

  /** The largest end in the map. */
  function MaxEnd(entries: seq<MapEntry>): (r: nat)
    requires entries != []
    ensures r < WORD && forall i :: 0 <= i < |entries| ==> EndOf(entries[i]) <= r
    ensures exists i :: 0 <= i < |entries| && EndOf(entries[i]) == r
  {
    var n := |entries| - 1;
    if n == 0 then EndOf(entries[0])
    else
      var m := MaxEnd(entries[..n]);
      if EndOf(entries[n]) > m then EndOf(entries[n]) else m
  }

  lemma MaxNext(entries: seq<MapEntry>, i: nat)
    requires i < |entries|
    ensures i == 0 ==> MaxEnd(entries[..1]) == EndOf(entries[0])
    ensures i > 0 ==> MaxEnd(entries[..i + 1])
                      == if EndOf(entries[i]) > MaxEnd(entries[..i]) then EndOf(entries[i]) else MaxEnd(entries[..i])
  {
    assert entries[..i + 1][..i] == entries[..i];
  }

  /** `mmap_get_usable_entry`: the first usable region from 1 MB on, or nothing at 0. */
  function UsableEntry(entries: seq<MapEntry>): (r: MapEntry)
    ensures r in entries || r == MapEntry(0, 0, 0)
  {
    if entries == [] then MapEntry(0, 0, 0)
    else if entries[0].kind == 1 && entries[0].base >= 0x10_0000 then entries[0]
    else UsableEntry(entries[1..])
  }

  predicate IsUsable(e: MapEntry) {
    e.kind == 1 && e.base >= 0x10_0000
  }

  /** The first region of type 1 from 1 MB on; the empty one for none. */
  lemma {:induction false} UsableIsFirst(entries: seq<MapEntry>) returns (i: nat)
    ensures i <= |entries| && forall k :: 0 <= k < i ==> !IsUsable(entries[k])
    ensures i < |entries| ==> IsUsable(entries[i]) && UsableEntry(entries) == entries[i]
    ensures i == |entries| ==> UsableEntry(entries) == MapEntry(0, 0, 0)
    decreases |entries|
  {
    if entries == [] || IsUsable(entries[0]) {
      i := 0;
    } else {
      var n := UsableIsFirst(entries[1..]);
      i := n + 1;
    }
  }

  /** The bytes of the bitmap, and the frames that `fa_init` clears: from the one that
      holds the first byte behind the heap. */
  function BitmapBytes(entries: seq<MapEntry>): nat
    requires entries != []
  {
    MaxEnd(entries) / PAGE / 8
  }

  function FirstUsable(heapEnd: nat): nat {
    heapEnd / PAGE
  }

  function UsableFrames(entries: seq<MapEntry>): nat {
    EndOf(UsableEntry(entries)) / PAGE
  }

  /** `fa_init` stays in its bitmap. */
  predicate InitFits(entries: seq<MapEntry>, heapEnd: nat)
    requires entries != []
  {
    FirstUsable(heapEnd) >= UsableFrames(entries) || UsableFrames(entries) <= 8 * BitmapBytes(entries)
  }

  /** `fa_init` clears bit `i`. */
  predicate Cleared(entries: seq<MapEntry>, heapEnd: nat, i: nat) {
    FirstUsable(heapEnd) <= i < UsableFrames(entries)
  }

  /** The size of the bitmap rounds down: `fa_init` writes behind it exactly when the
      usable region reaches into frames of the map that fill no whole byte; then it
      writes the one byte behind it. */
  lemma InitOverrunsExactly(entries: seq<MapEntry>, heapEnd: nat)
    requires entries != []
    ensures (exists i: nat :: Cleared(entries, heapEnd, i) && i / 8 >= BitmapBytes(entries)) <==>
              !InitFits(entries, heapEnd)
    ensures forall i: nat :: Cleared(entries, heapEnd, i) ==> i / 8 <= BitmapBytes(entries)
    ensures !InitFits(entries, heapEnd) ==>
              UsableFrames(entries) / 8 == BitmapBytes(entries) && UsableFrames(entries) % 8 != 0
  {
    var end, bytes := UsableFrames(entries), BitmapBytes(entries);
    UsableBelowMax(entries);
    if !InitFits(entries, heapEnd) {
      assert Cleared(entries, heapEnd, end - 1) && (end - 1) / 8 >= bytes;
    }
  }

  lemma UsableBelowMax(entries: seq<MapEntry>)
    requires entries != []
    ensures UsableFrames(entries) <= MaxEnd(entries) / PAGE
  {
    hide MaxEnd;
    var e := UsableEntry(entries);
    if e in entries {
      var i :| 0 <= i < |entries| && entries[i] == e;
      assert EndOf(entries[i]) <= MaxEnd(entries);
    }
  }

  /** The bitmap `fa_init` leaves. */
  ghost predicate Initialised(bm: seq<bv8>, entries: seq<MapEntry>, heapEnd: nat) {
    forall f: nat :: f < 8 * |bm| ==> (InUse(bm, f) <==> !Cleared(entries, heapEnd, f))
  }

  /** Frame `f` is free and its first byte is the heap's. */
  predicate FreeInHeap(bm: seq<bv8>, heapEnd: nat, f: nat) {
    f < 8 * |bm| && !InUse(bm, f) && f * PAGE < heapEnd
  }

  /** The allocator starts out with a free frame that begins inside the kernel's heap
      exactly when the heap does not end on a frame boundary and the frame is usable;
      it is the first frame to be handed out. */
  lemma FirstFrameInHeapExactly(bm: seq<bv8>, entries: seq<MapEntry>, heapEnd: nat)
    requires entries != [] && InitFits(entries, heapEnd) && |bm| == BitmapBytes(entries)
    requires Initialised(bm, entries, heapEnd)
    ensures (exists f: nat :: FreeInHeap(bm, heapEnd, f))
            <==> heapEnd % PAGE != 0 && heapEnd / PAGE < UsableFrames(entries)
    ensures heapEnd / PAGE < UsableFrames(entries) ==> FirstFit(bm) == Some(heapEnd / PAGE)
  {
    hide MaxEnd, UsableEntry;
    var f := heapEnd / PAGE;
    if f < UsableFrames(entries) {
      assert Cleared(entries, heapEnd, f) && !InUse(bm, f);
      forall g: nat | g < f ensures InUse(bm, g) {
        assert !Cleared(entries, heapEnd, g);
      }
      FirstFitAt(bm, f);
      assert heapEnd % PAGE != 0 ==> FreeInHeap(bm, heapEnd, f);
    }
    forall g: nat | FreeInHeap(bm, heapEnd, g) ensures g == f && heapEnd % PAGE != 0 && f < UsableFrames(entries) {
      assert Cleared(entries, heapEnd, g);
    }
  }

  /** 8 MB of memory and a heap that ends at 0x501234: frame 0x501, of which the heap
      still has the first bytes, is handed out first. */
  lemma HeapTailHandedOut(bm: seq<bv8>)
    requires |bm| == 256 && Initialised(bm, [MapEntry(0x10_0000, 0x70_0000, 1)], 0x50_1234)
    ensures FreeInHeap(bm, 0x50_1234, 0x501) && FirstFit(bm) == Some(0x501)
  {
    hide FirstFit;
    var entries := [MapEntry(0x10_0000, 0x70_0000, 1)];
    assert EndOf(entries[0]) == 0x80_0000 && UsableFrames(entries) == 2048 && BitmapBytes(entries) == 256;
    FirstFrameInHeapExactly(bm, entries, 0x50_1234);
    assert Cleared(entries, 0x50_1234, 0x501);
  }

  /** One frame more than 8 MB: the bitmap has 256 bytes, and the last frame's bit is
      in the byte behind them. */
  lemma OddFrameOverruns()
    ensures var entries := [MapEntry(0x10_0000, 0x70_1000, 1)];
      BitmapBytes(entries) == 256 && Cleared(entries, 0x50_1234, 2048) && 2048 / 8 >= BitmapBytes(entries)
  {
    var entries := [MapEntry(0x10_0000, 0x70_1000, 1)];
    assert EndOf(entries[0]) == 0x80_1000 && UsableFrames(entries) == 2049;
  }

  /** The inner loop of the search: the lowest clear bit, or 8. */
  method FirstClear(byte: bv8) returns (j: nat)
    ensures j <= 8 && (forall i: nat :: i < j ==> Bit(byte, i)) && (j < 8 ==> !Bit(byte, j))
  {
    j := 0;
    while j < 8 && byte & ((1 as bv8) << j) != 0
      invariant j <= 8 && forall i: nat :: i < j ==> Bit(byte, i)
    {
      j := j + 1;
    }
  }

  class FrameAllocator {
    const bitmap: array<bv8>

    /** The loop of `__fa_init_alloc_bitmap`. */
    static method LargestEnd(entries: seq<MapEntry>) returns (end: nat)
      requires entries != []
      ensures end == MaxEnd(entries)
    {
      hide MaxEnd;
      end := EndOf(entries[0]);
      MaxNext(entries, 0);
      for i := 1 to |entries|
        invariant end == MaxEnd(entries[..i])
      {
        MaxNext(entries, i);
        if EndOf(entries[i]) > end {
          end := EndOf(entries[i]);
        }
      }
      assert entries[..|entries|] == entries;
    }

    /** `mmap_get_usable_entry`. */
    static method FindUsable(entries: seq<MapEntry>) returns (e: MapEntry)
      ensures e == UsableEntry(entries)
    {
      var i := 0;
      while i < |entries|
        invariant i <= |entries| && UsableEntry(entries) == UsableEntry(entries[i..])
      {
        if entries[i].kind == 1 && entries[i].base >= 0x10_0000 { return entries[i]; }
        i := i + 1;
      }
      e := MapEntry(0, 0, 0);
    }

    /** `fa_init`. */
    constructor (entries: seq<MapEntry>, kernelPhysEnd: nat, heapSize: nat)
      requires entries != [] && InitFits(entries, kernelPhysEnd + heapSize)
      ensures fresh(bitmap) && bitmap.Length == BitmapBytes(entries)
      ensures Initialised(bitmap[..], entries, kernelPhysEnd + heapSize)
    {
      hide MaxEnd, UsableEntry;
      var max := LargestEnd(entries);
      var usable := FindUsable(entries);
      var bytes := max / PAGE / 8;
      bitmap := new bv8[bytes](_ => 0xFF);
      new;
      var first := (kernelPhysEnd + heapSize) / PAGE;
      var end := EndOf(usable) / PAGE;
      assert forall b: nat :: b < bytes ==> bitmap[b] == 0xFF;
      forall f: nat | f < 8 * bytes ensures InUse(bitmap[..], f) {
        MaskValues(f % 8);
      }
      var i := first;
      while i < end
        modifies bitmap
        invariant first <= i
        invariant forall f: nat :: f < 8 * bytes ==> (InUse(bitmap[..], f) <==> !(first <= f < i && f < end))
      {
        ghost var before := bitmap[..];
        bitmap[i / 8] := bitmap[i / 8] & !Mask(i % 8);
        assert bitmap[..] == Unmark(before, i);
        forall f: nat | f < 8 * bytes ensures InUse(bitmap[..], f) <==> f != i && InUse(before, f) {
          UnmarkFrees(before, i, f);
        }
        i := i + 1;
      }
    }

    /** First fit; `None` stands for the kernel panic when no frame is free. */
    method Alloc() returns (r: Option<nat>)
      modifies bitmap
      ensures match FirstFit(old(bitmap[..]))
              case None => r.None? && bitmap[..] == old(bitmap[..])
              case Some(f) => f < 8 * bitmap.Length && r == Some(f * PAGE) && bitmap[..] == Mark(old(bitmap[..]), f)
    {
      hide FirstFit;
      var i := 0;
      while i < bitmap.Length
        invariant i <= bitmap.Length && bitmap[..] == old(bitmap[..])
        invariant forall g: nat :: g < 8 * i ==> InUse(bitmap[..], g)
      {
        var j := FirstClear(bitmap[i]);
        forall g: nat | g < 8 * i + j ensures InUse(bitmap[..], g) {
          if g >= 8 * i { assert g / 8 == i && g % 8 == g - 8 * i; }
        }
        if j < 8 {
          var f := i * 8 + j;
          assert f / 8 == i && f % 8 == j;
          FirstFitAt(bitmap[..], f);
          bitmap[i] := bitmap[i] | ((1 as bv8) << j);
          assert bitmap[..] == Mark(old(bitmap[..]), f);
          return Some(f * PAGE);
        }
        i := i + 1;
      }
      FirstFitFull(bitmap[..]);
      r := None;
    }

    method Free(addr: nat)
      requires addr / PAGE < 8 * bitmap.Length
      modifies bitmap
      ensures bitmap[..] == Unmark(old(bitmap[..]), addr / PAGE)
      ensures Used(bitmap[..]) == Used(old(bitmap[..])) - {addr / PAGE}
    {
      ghost var before := bitmap[..];
      var f := addr / PAGE;
      UnmarkUsed(before, f);
      bitmap[f / 8] := bitmap[f / 8] & !Mask(f % 8);
      assert bitmap[..] == Unmark(before, f);
    }
  }
}
