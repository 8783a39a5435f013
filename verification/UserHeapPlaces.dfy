/** Where malloc takes a block from and where free puts it, in numbers. */
module UserHeapPlaces {
  import opened AddressMap
  import opened Bits
  import opened UserHeap
  import opened UserHeapRuns
  import opened Sequences

  /** The ten classes are 16, 32 and so on to 8192 bytes. */
  lemma {:induction false} ClassBytes(ci: nat)
    ensures ClassSize(ci) == 16 * Pow2(ci)
    ensures CLASSES == 10 && (ci == 9 ==> ClassSize(ci) == 8192)
  {
    if ci > 0 { ClassBytes(ci - 1); }
    if ci == 9 {
      assert Pow2(3) == 8;
      Pow2Add(3, 3);
      Pow2Add(6, 3);
    }
  }

  /** A size from 1 to 8192 has the first class that holds it; a larger one has none. */
  lemma ClassIs(size: nat)
    ensures ClassOf(size) == 10 <==> size > 8192
    ensures ClassOf(size) < 10 ==> size <= 16 * Pow2(ClassOf(size))
    ensures forall j: nat :: j < ClassOf(size) && j < 10 ==> 16 * Pow2(j) < size
  {
    ClassExact(size);
    var ci := ClassOf(size);
    ClassBytes(ci);
    forall j: nat | j < ci && j < 10 ensures 16 * Pow2(j) < size { ClassBytes(j); }
  }

  /** The header is 16 bytes, and no bytes count as one. */
  lemma TotalBytes(size: nat)
    requires size < WORD
    ensures Total(size) == (if size == 0 then 17 else size + 16) % 0x1_0000_0000
  {
  }

  /** The addresses of a chunk's first `n` blocks, the last one first. */
  function Chunk(base: nat, bytes: nat, n: nat): (r: seq<nat>)
    ensures |r| == n && forall i: nat :: i < n ==> r[i] == base + (n - 1 - i) * bytes
  {
    if n == 0 then [] else [base + (n - 1) * bytes] + Chunk(base, bytes, n - 1)
  }

  lemma {:induction false} CarveLists(h: Heap, ci: nat, base: nat, n: nat)
    requires ci < |h.lists|
    ensures Carve(h, ci, base, n).lists[ci] == Chunk(base, ClassSize(ci), n) + h.lists[ci]
    ensures forall j: nat :: j < |h.lists| && j != ci ==> Carve(h, ci, base, n).lists[j] == h.lists[j]
    ensures Carve(h, ci, base, n).(blocks := h.blocks, lists := h.lists) == h
  {
    hide ClassSize;
    if n > 0 { CarveLists(h, ci, base, n - 1); }
  }

  /** A block of a class: the head of its list; when that is empty, the last of eight
      blocks that the break is moved for, the other seven making up the list. */
  ghost predicate TakenSmall(h: Heap, ci: nat, grant: bool, t: Heap, b: nat)
    requires ci < |h.lists|
  {
    var bytes := 16 * Pow2(ci);
    && t.large == h.large && t.mmapNext == h.mmapNext && |t.lists| == |h.lists|
    && (forall j: nat :: j < |h.lists| && j != ci ==> t.lists[j] == h.lists[j])
    && (h.lists[ci] != [] ==> b == h.lists[ci][0] && t.lists[ci] == h.lists[ci][1..] && t.brk == h.brk)
    && (h.lists[ci] == [] && grant ==>
          b == h.brk + 7 * bytes && t.lists[ci] == Chunk(h.brk, bytes, 7) && t.brk == h.brk + 8 * bytes)
    && (h.lists[ci] == [] && !grant ==> b == 0 && t == h)
  }

  /** A larger block: the first in the list that is large enough, whole; else as many
      bytes as asked for from the break. */
  ghost predicate TakenLarge(h: Heap, total: nat, grant: bool, t: Heap, b: nat)
    requires forall j: nat :: j < |h.large| ==> h.large[j] in h.blocks
  {
    var k := FirstFit(h, total, 0);
    && t.lists == h.lists && t.mmapNext == h.mmapNext
    && (k < |h.large| ==>
          && b == h.large[k] && t.large == Dropped(h.large, k) && t.brk == h.brk
          && t.blocks == h.blocks[b := Header(h.blocks[b].size, Used)])
    && (k == |h.large| && grant ==>
          && b == h.brk && t.large == h.large && t.brk == h.brk + total
          && t.blocks == h.blocks[b := Header(total, Used)])
    && (k == |h.large| && !grant ==> b == 0 && t == h)
  }

  /** From 65536 bytes on: the next mapping, in whole pages. */
  ghost predicate TakenMapped(h: Heap, total: nat, grant: bool, t: Heap, b: nat) {
    var pages := (total + 4095) / 4096;
    && t.lists == h.lists && t.large == h.large && t.brk == h.brk
    && (grant && h.mmapNext + 4096 * pages <= 0x1_0000_0000 ==>
          && b == h.mmapNext && t.mmapNext == h.mmapNext + 4096 * pages
          && t.blocks == h.blocks[b := Header(total, Mmap)])
    && (!(grant && h.mmapNext + 4096 * pages <= 0x1_0000_0000) ==> b == 0 && t == h)
  }

  lemma SmallPlaces(h: Heap, ci: nat, grant: bool)
    requires Inv(h) && ci < CLASSES
    ensures |h.lists| == CLASSES && TakenSmall(h, ci, grant, AllocSmall(h, ci, grant).0, AllocSmall(h, ci, grant).1)
  {
    hide Tiled, ClassSize, Pow2, Carve;
    ExtendHead(h, ci, grant);
    ClassBytes(ci);
    if h.lists[ci] == [] && grant {
      CarveLists(h.(brk := h.brk + 8 * ClassSize(ci)), ci, h.brk, 8);
    }
  }

  lemma LargePlaces(h: Heap, total: nat, grant: bool)
    requires Inv(h)
    ensures forall j: nat :: j < |h.large| ==> h.large[j] in h.blocks
    ensures TakenLarge(h, total, grant, AllocLarge(h, total, grant).0, AllocLarge(h, total, grant).1)
  {
    hide Tiled;
  }

  lemma MappedPlaces(h: Heap, total: nat, grant: bool)
    ensures TakenMapped(h, total, grant, AllocMapped(h, total, grant).0, AllocMapped(h, total, grant).1)
  {
  }

  /** Where malloc takes its block from. */
  lemma AllocPlaces(h: Heap, size: nat, grant: bool)
    requires Inv(h) && size < WORD
    ensures |h.lists| == 10 && forall j: nat :: j < |h.large| ==> h.large[j] in h.blocks
    ensures var (t, b) := Alloc(h, size, grant);
      var total := (if size == 0 then 17 else size + 16) % 0x1_0000_0000;
      && ClassOf(total) <= 10
      && (total >= 65536 ==> TakenMapped(h, total, grant, t, b))
      && (total <= 8192 ==> ClassOf(total) < 10 && TakenSmall(h, ClassOf(total), grant, t, b))
      && (8192 < total < 65536 ==> TakenLarge(h, total, grant, t, b))
  {
    hide Inv, AllocSmall, AllocLarge, AllocMapped, TakenSmall, TakenLarge, TakenMapped, ClassOf;
    TotalBytes(size);
    var total := Total(size);
    ClassIs(total);
    LargePlaces(h, total, grant);
    MappedPlaces(h, total, grant);
    SmallPlaces(h, if ClassOf(total) < 10 then ClassOf(total) else 0, grant);
  }

  /** free puts a block at the head of its class's list, or of the list of larger ones;
      a mapped block goes back to the kernel. */
  lemma FreePlaces(h: Heap, b: nat)
    requires Inv(h) && Live(h, b)
    ensures |h.lists| == 10
    ensures var t := Release(h, b); var size := h.blocks[b].size;
      && t.brk == h.brk && t.mmapNext == h.mmapNext && t.bytes == h.bytes
      && (h.blocks[b].flags == Mmap ==>
            t.lists == h.lists && t.large == h.large && t.blocks.Keys == h.blocks.Keys - {b})
      && (h.blocks[b].flags != Mmap && size <= 8192 ==>
            && ClassOf(size) < 10 && t.large == h.large
            && t.lists == h.lists[ClassOf(size) := [b] + h.lists[ClassOf(size)]])
      && (h.blocks[b].flags != Mmap && size > 8192 ==> t.lists == h.lists && t.large == [b] + h.large)
  {
    hide Tiled, ClassOf;
    ClassIs(h.blocks[b].size);
  }
}
