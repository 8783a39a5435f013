/** The user-space allocator as a value: blocks with headers, segregated free
    lists of power-of-two sizes, a first-fit list of larger blocks, and mappings. */
module UserHeap {
  import opened AddressMap
  import opened Bits

  const HEADER: nat := 16
  const CLASSES: nat := 10
  const LARGEST: nat := 8192
  const MMAP_THRESHOLD: nat := 65536

  datatype Flags = Free | Used | Mmap

  datatype Header = Header(size: nat, flags: Flags)

  /** `start` is the first break; the break and the mapping pointer are the
      kernel's. `bytes` holds what the program stored. */
  datatype Heap = Heap(start: nat, brk: nat, mmapNext: nat, blocks: map<nat, Header>,
                       lists: seq<seq<nat>>, large: seq<nat>, bytes: map<nat, bv8>)

  function ClassSize(ci: nat): (r: nat)
    ensures r >= 16
  {
    if ci == 0 then 16 else 2 * ClassSize(ci - 1)
  }

  /** `mem_class_index`; the number of classes stands for -1. */
  function ClassFrom(size: nat, i: nat): (ci: nat)
    ensures ci <= CLASSES || ci == i
    ensures i <= ci && (ci < CLASSES ==> ClassSize(ci) >= size)
    ensures forall j: nat :: i <= j < ci && j < CLASSES ==> ClassSize(j) < size
    decreases CLASSES - i
  {
    if i >= CLASSES || ClassSize(i) >= size then i else ClassFrom(size, i + 1)
  }

  function ClassOf(size: nat): (ci: nat)
    ensures ci <= CLASSES
  {
    ClassFrom(size, 0)
  }

  lemma {:induction false} ClassSizesGrow(i: nat, j: nat)
    requires i < j
    ensures ClassSize(i) < ClassSize(j)
    decreases j
  {
    if i < j - 1 { ClassSizesGrow(i, j - 1); }
  }

  lemma ClassSizes()
    ensures ClassSize(9) == LARGEST
    ensures forall i: nat :: i < CLASSES ==> ClassSize(i) <= LARGEST
  {
    forall i: nat | i < CLASSES ensures ClassSize(i) <= LARGEST {
      if i < 9 { ClassSizesGrow(i, 9); }
    }
  }

  /** The size of a class finds that class again: a block goes back to the list it
      came from. */
  lemma ClassExact(size: nat)
    ensures ClassOf(size) == CLASSES <==> size > LARGEST
    ensures forall ci: nat :: ci < CLASSES && size == ClassSize(ci) ==> ClassOf(size) == ci
    ensures ClassOf(size) < CLASSES && size > 16 ==> ClassSize(ClassOf(size)) < 2 * size
  {
    ClassSizes();
    var c := ClassOf(size);
    forall ci: nat | ci < CLASSES && size == ClassSize(ci) ensures c == ci {
      if c < ci { ClassSizesGrow(c, ci); }
    }
    if 0 < c < CLASSES { assert ClassSize(c - 1) < size; }
  }

  // ----- the invariant

  predicate Within(h: Heap, a: nat, x: nat) {
    a in h.blocks && h.blocks[a].flags != Mmap && a <= x < a + h.blocks[a].size
  }

  ghost predicate Covered(h: Heap, x: nat) {
    exists a :: Within(h, a, x)
  }

  predicate Apart(h: Heap, a: nat, b: nat)
    requires a in h.blocks && b in h.blocks
  {
    a + h.blocks[a].size <= b || b + h.blocks[b].size <= a
  }

  predicate Sizes(h: Heap, a: nat)
    requires a in h.blocks
  {
    HEADER <= h.blocks[a].size < WORD && (h.blocks[a].flags != Mmap ==>
      h.blocks[a].size > LARGEST || h.blocks[a].size == ClassSize(ClassOf(h.blocks[a].size)))
  }

  predicate Placed(h: Heap, a: nat, top: nat)
    requires a in h.blocks
  {
    if h.blocks[a].flags == Mmap then MMAP_BASE <= a && a + h.blocks[a].size <= h.mmapNext
    else h.start <= a && a + h.blocks[a].size <= top
  }

  predicate Listed(h: Heap, a: nat)
    requires a in h.blocks && |h.lists| == CLASSES
  {
    var ci := ClassOf(h.blocks[a].size);
    if ci < CLASSES then a in h.lists[ci] else a in h.large
  }

  /** The blocks are apart, and those of the arena tile it up to `top`. */
  ghost predicate Tiled(h: Heap, top: nat) {
    && (forall a :: a in h.blocks ==> Sizes(h, a) && Placed(h, a, top))
    && (forall a, b :: a in h.blocks && b in h.blocks && a != b ==> Apart(h, a, b))
    && (forall x :: h.start <= x < top ==> Covered(h, x))
  }

  /** List `ci` holds free blocks of exactly its size, each once; the large list
      the larger ones; every free block is in its list. */
  ghost predicate ListsOk(h: Heap) {
    && |h.lists| == CLASSES
    && (forall ci: nat, i: nat :: ci < CLASSES && i < |h.lists[ci]| ==>
          h.lists[ci][i] in h.blocks && h.blocks[h.lists[ci][i]] == Header(ClassSize(ci), Free))
    && (forall i: nat :: i < |h.large| ==>
          h.large[i] in h.blocks && h.blocks[h.large[i]].flags == Free && h.blocks[h.large[i]].size > LARGEST)
    && (forall ci: nat, i: nat, j: nat :: ci < CLASSES && i < j < |h.lists[ci]| ==> h.lists[ci][i] != h.lists[ci][j])
    && (forall i: nat, j: nat :: i < j < |h.large| ==> h.large[i] != h.large[j])
    && (forall a :: a in h.blocks && h.blocks[a].flags == Free ==> Listed(h, a))
  }

  ghost predicate InvTo(h: Heap, top: nat) {
    0 < h.start <= top <= h.brk && h.start <= MMAP_BASE <= h.mmapNext <= WORD && Tiled(h, top) && ListsOk(h)
  }

  ghost predicate Inv(h: Heap) {
    InvTo(h, h.brk)
  }

  function Empty(start: nat, mmapNext: nat): Heap {
    Heap(start, start, mmapNext, map[], seq(CLASSES, _ => []), [], map[])
  }

  lemma EmptyInv(start: nat, mmapNext: nat)
    requires 0 < start <= MMAP_BASE <= mmapNext <= WORD
    ensures Inv(Empty(start, mmapNext))
  {
  }

  predicate Live(h: Heap, a: nat) {
    a in h.blocks && h.blocks[a].flags != Free
  }

  // ----- the operations

  /** No mapping begins below `top`. */
  predicate BelowMappings(h: Heap, top: nat) {
    forall a :: a in h.blocks && h.blocks[a].flags == Mmap ==> top <= a
  }

  /** A new free block at `a`, at the head of list `ci`. */
  function PushNew(h: Heap, ci: nat, a: nat): (r: Heap)
    requires ci < |h.lists|
    ensures |r.lists| == |h.lists|
  {
    h.(blocks := h.blocks[a := Header(ClassSize(ci), Free)], lists := h.lists[ci := [a] + h.lists[ci]])
  }

  /** The loop that carves a chunk at `base` into `n` blocks. */
  function Carve(h: Heap, ci: nat, base: nat, n: nat): (r: Heap)
    requires ci < |h.lists|
    ensures |r.lists| == |h.lists|
  {
    if n == 0 then h else PushNew(Carve(h, ci, base, n - 1), ci, base + (n - 1) * ClassSize(ci))
  }

  /** `mem_arena_extend_small`; the kernel moves the break unless it has no memory
      (`grant`), whatever lies above it. */
  function Extend(h: Heap, ci: nat, grant: bool): (r: Heap)
    requires ci < |h.lists|
    ensures |r.lists| == |h.lists|
  {
    if grant then Carve(h.(brk := h.brk + 8 * ClassSize(ci)), ci, h.brk, 8) else h
  }

  function SetFlags(h: Heap, a: nat, flags: Flags): Heap
    requires a in h.blocks
  {
    h.(blocks := h.blocks[a := Header(h.blocks[a].size, flags)])
  }

  /** The head of list `ci` becomes a used block. */
  function PopSmall(h: Heap, ci: nat): Heap
    requires ci < |h.lists| && h.lists[ci] != [] && h.lists[ci][0] in h.blocks
  {
    SetFlags(h, h.lists[ci][0], Used).(lists := h.lists[ci := h.lists[ci][1..]])
  }

  /** The first block of the large list that is big enough; the length for none. */
  function FirstFit(h: Heap, total: nat, i: nat): (k: nat)
    requires i <= |h.large| && forall j: nat :: j < |h.large| ==> h.large[j] in h.blocks
    ensures i <= k <= |h.large| && (k < |h.large| ==> h.blocks[h.large[k]].size >= total)
    ensures forall j: nat :: i <= j < k ==> h.blocks[h.large[j]].size < total
    decreases |h.large| - i
  {
    if i == |h.large| || h.blocks[h.large[i]].size >= total then i else FirstFit(h, total, i + 1)
  }

  function TakeLarge(h: Heap, k: nat): Heap
    requires k < |h.large| && h.large[k] in h.blocks
  {
    SetFlags(h, h.large[k], Used).(large := h.large[..k] + h.large[k + 1..])
  }

  /** `mem_alloc_small`: the heap after, and the block or 0. */
  function AllocSmall(h: Heap, ci: nat, grant: bool): (Heap, nat)
    requires Inv(h) && ci < CLASSES
  {
    ExtendHead(h, ci, grant);
    var e := if h.lists[ci] == [] then Extend(h, ci, grant) else h;
    if e.lists[ci] == [] then (e, 0) else (PopSmall(e, ci), e.lists[ci][0])
  }

  /** `mem_alloc_large`. */
  function AllocLarge(h: Heap, total: nat, grant: bool): (Heap, nat)
    requires Inv(h)
  {
    var k := FirstFit(h, total, 0);
    if k < |h.large| then (TakeLarge(h, k), h.large[k])
    else if grant then
      (h.(brk := h.brk + total, blocks := h.blocks[h.brk := Header(total, Used)]), h.brk)
    else (h, 0)
  }

  function PageUp(n: nat): (r: nat)
    ensures n <= r < n + 4096 && r % 4096 == 0
  {
    (n + 4095) / 4096 * 4096
  }

  /** A mapping of its own; the kernel hands out rising addresses. */
  function AllocMapped(h: Heap, total: nat, grant: bool): (Heap, nat) {
    if grant && h.mmapNext + PageUp(total) <= WORD then
      (h.(mmapNext := h.mmapNext + PageUp(total), blocks := h.blocks[h.mmapNext := Header(total, Mmap)]), h.mmapNext)
    else (h, 0)
  }

  /** The size with its header, in 32 bits. */
  function Total(size: nat): nat {
    Wrap((if size == 0 then 1 else size) + HEADER)
  }

  /** `malloc`, giving the block; the pointer is 16 bytes behind its start. */
  function Alloc(h: Heap, size: nat, grant: bool): (Heap, nat)
    requires Inv(h)
  {
    var total := Total(size);
    if total >= MMAP_THRESHOLD then AllocMapped(h, total, grant)
    else if ClassOf(total) < CLASSES then AllocSmall(h, ClassOf(total), grant)
    else AllocLarge(h, total, grant)
  }

  /** The head of a list is a block, also just after its chunk was carved. */
  lemma ExtendHead(h: Heap, ci: nat, grant: bool)
    requires Inv(h) && ci < CLASSES
    ensures |h.lists| == CLASSES
    ensures var e := if h.lists[ci] == [] then Extend(h, ci, grant) else h;
      e.lists[ci] != [] ==> e.lists[ci][0] in e.blocks
  {
    hide Tiled, ClassSize;
  }

  // ----- which calls are safe

  /** The chunk that a small allocation takes, if it takes one, ends below every
      mapping. */
  predicate SmallSafe(h: Heap, ci: nat, grant: bool)
    requires ci < |h.lists|
  {
    h.lists[ci] == [] && grant ==> BelowMappings(h, h.brk + 8 * ClassSize(ci))
  }

  predicate LargeSafe(h: Heap, total: nat, grant: bool)
    requires forall j: nat :: j < |h.large| ==> h.large[j] in h.blocks
  {
    FirstFit(h, total, 0) == |h.large| && grant ==> BelowMappings(h, h.brk + total)
  }

  /** The address for a mapping is not below the break. */
  predicate MappedSafe(h: Heap, total: nat, grant: bool) {
    grant && h.mmapNext + PageUp(total) <= WORD ==> h.brk <= h.mmapNext
  }

  // ----- what the steps keep

  /** A block added at the top of the tiled part extends it. */
  lemma AddAtTop(h: Heap, top: nat, hd: Header, t: Heap)
    requires Tiled(h, top) && h.start <= top && BelowMappings(h, top + hd.size) && HEADER <= hd.size < WORD
             && hd.flags != Mmap
    requires hd.size > LARGEST || hd.size == ClassSize(ClassOf(hd.size))
    requires t.blocks == h.blocks[top := hd] && t.start == h.start && t.mmapNext == h.mmapNext
    ensures top !in h.blocks && Tiled(t, top + hd.size)
  {
    hide ClassOf, ClassSize, Covered;
    forall a | a in h.blocks ensures a != top {
      assert Sizes(h, a) && Placed(h, a, top);
    }
    forall x | t.start <= x < top + hd.size ensures Covered(t, x) {
      AddCovers(h, top, hd, t, x);
    }
    forall a | a in t.blocks ensures Sizes(t, a) && Placed(t, a, top + hd.size) {
      if a != top { assert Sizes(h, a) && Placed(h, a, top); }
    }
    forall a, b | a in t.blocks && b in t.blocks && a != b ensures Apart(t, a, b) {
      if a == top {
        assert Placed(h, b, top);
      } else if b == top {
        assert Placed(h, a, top);
      } else {
        assert Apart(h, a, b);
      }
    }
  }

  lemma AddCovers(h: Heap, top: nat, hd: Header, t: Heap, x: nat)
    requires t.blocks == h.blocks[top := hd] && top !in h.blocks && hd.flags != Mmap
    requires top <= x < top + hd.size || Covered(h, x)
    ensures Covered(t, x)
  {
    if top <= x < top + hd.size {
      assert Within(t, top, x);
    } else {
      var a :| Within(h, a, x);
      assert Within(t, a, x);
    }
  }

  /** Between free and used nothing moves. */
  lemma FlagsKeepTiles(h: Heap, top: nat, a: nat, flags: Flags, t: Heap)
    requires Tiled(h, top) && a in h.blocks && h.blocks[a].flags != Mmap && flags != Mmap
    requires t.blocks == SetFlags(h, a, flags).blocks && t.start == h.start && t.mmapNext == h.mmapNext
    ensures Tiled(t, top)
  {
    hide ClassOf, ClassSize, Covered;
    forall x | t.start <= x < top ensures Covered(t, x) {
      assert Covered(h, x);
      FlagsCover(h, a, flags, t, x);
    }
    forall b | b in t.blocks ensures Sizes(t, b) && Placed(t, b, top) {
      assert Sizes(h, b) && Placed(h, b, top);
    }
    forall b, c | b in t.blocks && c in t.blocks && b != c ensures Apart(t, b, c) {
      assert Apart(h, b, c);
    }
  }

  lemma FlagsCover(h: Heap, a: nat, flags: Flags, t: Heap, x: nat)
    requires a in h.blocks && h.blocks[a].flags != Mmap && flags != Mmap && Covered(h, x)
    requires t.blocks == SetFlags(h, a, flags).blocks
    ensures Covered(t, x)
  {
    var b :| Within(h, b, x);
    assert Within(t, b, x);
  }

  lemma PushKeepsLists(h: Heap, ci: nat, a: nat)
    requires ListsOk(h) && ci < CLASSES && a !in h.blocks
    ensures ListsOk(PushNew(h, ci, a))
  {
    hide ClassSize, ClassOf;
    ClassExact(ClassSize(ci));
    var t := PushNew(h, ci, a);
    forall b | b in t.blocks && t.blocks[b].flags == Free ensures Listed(t, b) {
      if b != a { assert Listed(h, b); }
    }
  }

  lemma {:induction false} CarveKeeps(h: Heap, top: nat, ci: nat, n: nat)
    requires InvTo(h, top) && |h.lists| == CLASSES && ci < CLASSES && top + n * ClassSize(ci) <= h.brk
    requires BelowMappings(h, h.brk)
    ensures var t := Carve(h, ci, top, n);
      InvTo(t, top + n * ClassSize(ci)) && t.(blocks := h.blocks, lists := h.lists) == h
    ensures n > 0 ==> Carve(h, ci, top, n).lists[ci] != []
    ensures forall a :: a in h.blocks ==>
              a in Carve(h, ci, top, n).blocks && Carve(h, ci, top, n).blocks[a] == h.blocks[a]
    ensures forall a :: a in Carve(h, ci, top, n).blocks && a !in h.blocks ==>
              Carve(h, ci, top, n).blocks[a].flags == Free
  {
    hide Tiled, ListsOk, ClassOf, ClassSize;
    if n > 0 {
      var bs := ClassSize(ci);
      assert (n - 1) * bs + bs == n * bs;
      CarveKeeps(h, top, ci, n - 1);
      var c := Carve(h, ci, top, n - 1);
      ClassExact(bs);
      ClassSizes();
      assert ClassSize(ClassOf(bs)) == bs;
      AddAtTop(c, top + (n - 1) * bs, Header(bs, Free), PushNew(c, ci, top + (n - 1) * bs));
      PushKeepsLists(c, ci, top + (n - 1) * bs);
    }
  }

  lemma ExtendKeeps(h: Heap, ci: nat, grant: bool)
    requires Inv(h) && ci < CLASSES && (grant ==> BelowMappings(h, h.brk + 8 * ClassSize(ci)))
    ensures |h.lists| == CLASSES
    ensures var t := Extend(h, ci, grant);
      && Inv(t) && t.(blocks := h.blocks, lists := h.lists, brk := h.brk) == h
      && (grant ==> t.lists[ci] != []) && (!grant ==> t == h)
      && (forall a :: a in h.blocks ==> a in t.blocks && t.blocks[a] == h.blocks[a])
      && (forall a :: a in t.blocks && a !in h.blocks ==> t.blocks[a].flags == Free)
  {
    hide Tiled, ListsOk, ClassOf, ClassSize;
    ListCount(h);
    if grant {
      var g := h.(brk := h.brk + 8 * ClassSize(ci));
      BreakMoves(h, g, h.brk);
      CarveKeeps(g, h.brk, ci, 8);
    }
  }

  /** Neither the tiles nor the lists speak of the break or of the bytes. */
  lemma BreakMoves(h: Heap, g: Heap, top: nat)
    requires Tiled(h, top) && ListsOk(h) && g == h.(brk := g.brk, bytes := g.bytes)
    ensures Tiled(g, top) && ListsOk(g)
  {
    hide ClassOf, ClassSize, Covered;
    forall x | g.start <= x < top ensures Covered(g, x) {
      assert Covered(h, x);
      SameCover(h, g, x);
    }
    forall a | a in g.blocks ensures Sizes(g, a) && Placed(g, a, top) { assert Sizes(h, a) && Placed(h, a, top); }
    forall a, b | a in g.blocks && b in g.blocks && a != b ensures Apart(g, a, b) { assert Apart(h, a, b); }
    forall a | a in g.blocks && g.blocks[a].flags == Free ensures Listed(g, a) { assert Listed(h, a); }
  }

  lemma SameCover(h: Heap, g: Heap, x: nat)
    requires Covered(h, x) && g.blocks == h.blocks
    ensures Covered(g, x)
  {
    var a :| Within(h, a, x);
    assert Within(g, a, x);
  }

  lemma ListCount(h: Heap)
    requires ListsOk(h)
    ensures |h.lists| == CLASSES
  {
  }

  /** What the head of a list is. */
  lemma HeadOf(h: Heap, ci: nat)
    requires ListsOk(h) && ci < CLASSES
    ensures |h.lists| == CLASSES
    ensures h.lists[ci] != [] ==> h.lists[ci][0] in h.blocks && h.blocks[h.lists[ci][0]] == Header(ClassSize(ci), Free)
  {
  }

  lemma PopKeepsLists(h: Heap, ci: nat)
    requires ListsOk(h) && ci < CLASSES && h.lists[ci] != []
    ensures h.lists[ci][0] in h.blocks && ListsOk(PopSmall(h, ci))
  {
    hide ClassSize, ClassOf;
    var a := h.lists[ci][0];
    var t := PopSmall(h, ci);
    ClassExact(ClassSize(ci));
    forall cj: nat, i: nat | cj < CLASSES && i < |t.lists[cj]|
      ensures t.lists[cj][i] in t.blocks && t.blocks[t.lists[cj][i]] == Header(ClassSize(cj), Free)
    {
      if cj == ci {
        assert t.lists[cj][i] == h.lists[ci][i + 1];
      } else {
        DifferentSizes(ci, cj);
        assert t.lists[cj][i] == h.lists[cj][i];
      }
    }
    forall b | b in t.blocks && t.blocks[b].flags == Free ensures Listed(t, b) {
      assert Listed(h, b);
    }
  }

  lemma DifferentSizes(i: nat, j: nat)
    requires i != j
    ensures ClassSize(i) != ClassSize(j)
  {
    if i < j { ClassSizesGrow(i, j); } else { ClassSizesGrow(j, i); }
  }

  lemma TakeKeepsLists(h: Heap, k: nat)
    requires ListsOk(h) && k < |h.large|
    ensures h.large[k] in h.blocks && ListsOk(TakeLarge(h, k))
  {
    hide ClassOf, ClassSize;
    ClassSizes();
    ClassExact(h.blocks[h.large[k]].size);
    var a := h.large[k];
    var t := TakeLarge(h, k);
    forall i: nat | i < |t.large| ensures t.large[i] == h.large[if i < k then i else i + 1] {
    }
    forall b | b in t.blocks && t.blocks[b].flags == Free ensures Listed(t, b) {
      assert Listed(h, b);
      ClassExact(h.blocks[b].size);
      if ClassOf(h.blocks[b].size) == CLASSES {
        var i :| 0 <= i < |h.large| && h.large[i] == b;
        assert t.large[if i < k then i else i - 1] == b;
      }
    }
  }

  /** A used or mapped block added leaves the lists in order. */
  lemma AddKeepsLists(h: Heap, a: nat, hd: Header, t: Heap)
    requires ListsOk(h) && a !in h.blocks && hd.flags != Free
    requires t.blocks == h.blocks[a := hd] && t.lists == h.lists && t.large == h.large
    ensures ListsOk(t)
  {
    hide ClassOf, ClassSize;
    forall b | b in t.blocks && t.blocks[b].flags == Free ensures Listed(t, b) {
      assert Listed(h, b);
    }
  }

  /** A mapping at the mapping pointer meets no other block. */
  lemma AddMapped(h: Heap, total: nat, t: Heap)
    requires Tiled(h, h.brk) && h.start <= h.brk <= h.mmapNext && MMAP_BASE <= h.mmapNext && HEADER <= total < WORD
    requires t.blocks == h.blocks[h.mmapNext := Header(total, Mmap)] && t.start == h.start
    requires t.mmapNext >= h.mmapNext + total
    ensures h.mmapNext !in h.blocks && Tiled(t, h.brk)
  {
    hide ClassOf, ClassSize, Covered;
    forall a | a in h.blocks ensures a != h.mmapNext {
      assert Sizes(h, a) && Placed(h, a, h.brk);
    }
    forall x | t.start <= x < h.brk ensures Covered(t, x) {
      assert Covered(h, x);
      MappedCovers(h, total, t, x);
    }
    forall a | a in t.blocks ensures Sizes(t, a) && Placed(t, a, h.brk) {
      if a != h.mmapNext { assert Sizes(h, a) && Placed(h, a, h.brk); }
    }
    forall a, b | a in t.blocks && b in t.blocks && a != b ensures Apart(t, a, b) {
      if a == h.mmapNext { assert Placed(h, b, h.brk); }
      else if b == h.mmapNext { assert Placed(h, a, h.brk); }
      else { assert Apart(h, a, b); }
    }
  }

  lemma MappedCovers(h: Heap, total: nat, t: Heap, x: nat)
    requires h.mmapNext !in h.blocks && Covered(h, x) && t.blocks == h.blocks[h.mmapNext := Header(total, Mmap)]
    ensures Covered(t, x)
  {
    var a :| Within(h, a, x);
    assert Within(t, a, x);
  }

  /** What an allocation of `total` bytes, header included, gives: block `b` is new
      to the program and big enough; the blocks in use and all bytes stay. */
  ghost predicate Gives(h: Heap, total: nat, t: Heap, b: nat) {
    && Inv(t) && t.start == h.start && t.bytes == h.bytes
    && (forall a :: Live(h, a) ==> Live(t, a) && t.blocks[a] == h.blocks[a])
    && (b == 0 ==> forall a :: Live(t, a) ==> Live(h, a))
    && (b != 0 ==> !Live(h, b) && Live(t, b) && t.blocks[b].size >= total
                   && forall a :: Live(t, a) ==> a == b || Live(h, a))
  }

  lemma AllocSmallGives(h: Heap, ci: nat, grant: bool)
    requires Inv(h) && ci < CLASSES
    ensures |h.lists| == CLASSES
    ensures var (t, b) := AllocSmall(h, ci, grant);
      && (SmallSafe(h, ci, grant) ==> Gives(h, ClassSize(ci), t, b))
      && (SmallSafe(h, ci, grant) && b != 0 ==> t.blocks[b] == Header(ClassSize(ci), Used))
      && (SmallSafe(h, ci, grant) ==> (b == 0 <==> h.lists[ci] == [] && !grant))
  {
    hide Tiled, ListsOk, ClassOf, ClassSize;
    ListCount(h);
    if SmallSafe(h, ci, grant) {
      if h.lists[ci] == [] { ExtendKeeps(h, ci, grant); }
      var e := if h.lists[ci] == [] then Extend(h, ci, grant) else h;
      HeadOf(e, ci);
      if e.lists[ci] != [] {
        var a := e.lists[ci][0];
        ArenaBlock(e, a);
        PopKeepsLists(e, ci);
        FlagsKeepTiles(e, e.brk, a, Used, PopSmall(e, ci));
      }
    }
  }

  lemma ArenaBlock(h: Heap, a: nat)
    requires Tiled(h, h.brk) && a in h.blocks && h.start > 0
    ensures h.blocks[a].flags != Mmap ==> a > 0 && h.start <= a && a + h.blocks[a].size <= h.brk
  {
    assert Placed(h, a, h.brk);
  }

  lemma AllocLargeGives(h: Heap, total: nat, grant: bool)
    requires Inv(h) && LARGEST < total < WORD
    ensures forall j: nat :: j < |h.large| ==> h.large[j] in h.blocks
    ensures var (t, b) := AllocLarge(h, total, grant);
      && (LargeSafe(h, total, grant) ==> Gives(h, total, t, b) && (b != 0 ==> t.blocks[b].flags == Used))
      && (b == 0 <==> !grant && forall i: nat :: i < |h.large| ==> h.blocks[h.large[i]].size < total)
  {
    hide Tiled, ClassOf, ClassSize;
    ClassExact(total);
    var k := FirstFit(h, total, 0);
    if k < |h.large| {
      hide ListsOk;
      ArenaBlock(h, h.large[k]);
      TakeKeepsLists(h, k);
      FlagsKeepTiles(h, h.brk, h.large[k], Used, TakeLarge(h, k));
    } else if grant && LargeSafe(h, total, grant) {
      hide ListsOk;
      var (t, b) := AllocLarge(h, total, grant);
      AddAtTop(h, h.brk, Header(total, Used), t);
      AddKeepsLists(h, h.brk, Header(total, Used), t);
    }
  }

  lemma AllocMappedGives(h: Heap, total: nat, grant: bool)
    requires Inv(h) && HEADER <= total < WORD
    ensures var (t, b) := AllocMapped(h, total, grant);
      && (MappedSafe(h, total, grant) ==> Gives(h, total, t, b) && (b != 0 ==> t.blocks[b] == Header(total, Mmap)))
      && (b == 0 <==> !(grant && h.mmapNext + PageUp(total) <= WORD))
  {
    hide Tiled, ListsOk, ClassOf, ClassSize;
    var (t, b) := AllocMapped(h, total, grant);
    if b != 0 && MappedSafe(h, total, grant) {
      AddMapped(h, total, t);
      AddKeepsLists(h, b, Header(total, Mmap), t);
    }
  }

  // ----- what an unsafe call breaks

  /** A tiled arena with a live mapping below the break cannot be. */
  lemma MappingInArena(h: Heap, a: nat)
    requires a in h.blocks && h.blocks[a].flags == Mmap && h.start <= a < h.brk
    ensures !Inv(h)
  {
    hide ListsOk, ClassOf, ClassSize;
    if Inv(h) {
      assert Covered(h, a);
      var c :| Within(h, c, a);
      TilesApart(h, c, a);
      assert false;
    }
  }

  lemma TilesApart(h: Heap, c: nat, a: nat)
    requires Tiled(h, h.brk) && c in h.blocks && a in h.blocks && c != a
    ensures Apart(h, c, a) && h.blocks[a].size >= HEADER
  {
    assert Sizes(h, a);
  }

  /** Two headers cannot be at one address: a chunk that is carved over a mapping's
      header replaces it, one that only runs into it overlaps it. */
  lemma BrokenByBreak(h: Heap, total: nat, t: Heap, b: nat, a: nat)
    requires Inv(h) && a in h.blocks && h.blocks[a].flags == Mmap && t.brk > a && t.start == h.start
    ensures !Gives(h, total, t, b)
  {
    hide Tiled, ListsOk;
    MappingPlace(h, a);
    if a in t.blocks && t.blocks[a] == h.blocks[a] {
      MappingInArena(t, a);
    } else {
      assert Live(h, a);
    }
  }

  lemma MappingPlace(h: Heap, a: nat)
    requires Inv(h) && a in h.blocks && h.blocks[a].flags == Mmap
    ensures h.start <= MMAP_BASE <= a
  {
    hide ListsOk, ClassOf, ClassSize, Covered;
    assert Placed(h, a, h.brk);
  }

  lemma {:induction false} CarveFrame(h: Heap, ci: nat, base: nat, n: nat)
    requires ci < |h.lists|
    ensures var t := Carve(h, ci, base, n); t.brk == h.brk && t.start == h.start
  {
    if n > 0 { CarveFrame(h, ci, base, n - 1); }
  }

  lemma SmallUnsafe(h: Heap, ci: nat, grant: bool)
    requires Inv(h) && ci < CLASSES
    ensures |h.lists| == CLASSES
    ensures !SmallSafe(h, ci, grant) ==>
              !Gives(h, ClassSize(ci), AllocSmall(h, ci, grant).0, AllocSmall(h, ci, grant).1)
  {
    hide Tiled, ListsOk, ClassOf, ClassSize, Gives, Carve;
    ListCount(h);
    if !SmallSafe(h, ci, grant) {
      var a :| a in h.blocks && h.blocks[a].flags == Mmap && h.brk + 8 * ClassSize(ci) > a;
      CarveFrame(h.(brk := h.brk + 8 * ClassSize(ci)), ci, h.brk, 8);
      BrokenByBreak(h, ClassSize(ci), AllocSmall(h, ci, grant).0, AllocSmall(h, ci, grant).1, a);
    }
  }

  lemma LargeUnsafe(h: Heap, total: nat, grant: bool)
    requires Inv(h) && total > LARGEST
    ensures forall j: nat :: j < |h.large| ==> h.large[j] in h.blocks
    ensures !LargeSafe(h, total, grant) ==>
              !Gives(h, total, AllocLarge(h, total, grant).0, AllocLarge(h, total, grant).1)
  {
    hide Tiled, ClassOf, ClassSize, Gives;
    if !LargeSafe(h, total, grant) {
      var a :| a in h.blocks && h.blocks[a].flags == Mmap && h.brk + total > a;
      BrokenByBreak(h, total, AllocLarge(h, total, grant).0, AllocLarge(h, total, grant).1, a);
    }
  }

  lemma MappedUnsafe(h: Heap, total: nat, grant: bool)
    requires Inv(h) && total >= HEADER
    ensures !MappedSafe(h, total, grant) ==>
              !Gives(h, total, AllocMapped(h, total, grant).0, AllocMapped(h, total, grant).1)
  {
    hide Tiled, ListsOk, ClassOf, ClassSize;
    if !MappedSafe(h, total, grant) {
      MappingInArena(AllocMapped(h, total, grant).0, h.mmapNext);
    }
  }
}
