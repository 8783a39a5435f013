/** malloc, free, realloc and calloc, and what holds over every run of them. */
module UserHeapRuns {
  import opened AddressMap
  import opened Bits
  import opened UserHeap

  /** The usable bytes of block `b`. */
  function Usable(h: Heap, b: nat): nat
    requires b in h.blocks && h.blocks[b].size >= HEADER
  {
    h.blocks[b].size - HEADER
  }

  function Asked(size: nat): nat {
    if size == 0 then 1 else size
  }

  /** What a caller can see before the call: memory that it takes from the break ends
      below every mapping, memory that it maps begins at or above the break. The
      kernel checks neither. */
  predicate Safe(h: Heap, size: nat, grant: bool)
    requires Inv(h)
  {
    var total := Total(size);
    InvLists(h);
    if total >= MMAP_THRESHOLD then MappedSafe(h, total, grant)
    else if ClassOf(total) < CLASSES then SmallSafe(h, ClassOf(total), grant)
    else LargeSafe(h, total, grant)
  }

  lemma InvLists(h: Heap)
    requires Inv(h)
    ensures ListsOk(h) && |h.lists| == CLASSES && forall i: nat :: i < |h.large| ==> h.large[i] in h.blocks
  {
  }

  /** `malloc` succeeds with at least the bytes asked for exactly when adding the
      header does not wrap; a safe call gives a block that is new and apart from all
      in use. */
  lemma AllocGives(h: Heap, size: nat, grant: bool)
    requires Inv(h) && size < WORD && Safe(h, size, grant)
    ensures var (t, b) := Alloc(h, size, grant);
      && Gives(h, Total(size), t, b)
      && (b != 0 ==> t.blocks[b].size >= HEADER && (Usable(t, b) >= Asked(size) <==> size + HEADER < WORD))
      && (b != 0 ==> t.blocks[b].flags == (if Total(size) >= MMAP_THRESHOLD then Mmap else Used))
  {
    hide Gives, Inv, ClassOf, ClassSize, SmallSafe, LargeSafe, MappedSafe;
    var total := Total(size);
    ClassExact(total);
    if total >= MMAP_THRESHOLD {
      AllocMappedGives(h, total, grant);
    } else if ClassOf(total) < CLASSES {
      AllocSmallGives(h, ClassOf(total), grant);
      SmallEnough(total);
      GivesLess(h, ClassSize(ClassOf(total)), total, Alloc(h, size, grant).0, Alloc(h, size, grant).1);
    } else {
      AllocLargeGives(h, total, grant);
    }
    var (t, b) := Alloc(h, size, grant);
    GivesSize(h, total, t, b);
  }

  /** The heap stays in order, and every block in use what it was, exactly when the
      call is safe: a break that passes a live mapping, or a mapping handed out below
      the break, puts two blocks in one place. */
  lemma AllocKeepsExactly(h: Heap, size: nat, grant: bool)
    requires Inv(h) && size < WORD
    ensures var (t, b) := Alloc(h, size, grant); Gives(h, Total(size), t, b) <==> Safe(h, size, grant)
  {
    hide Gives, Inv, ClassOf, ClassSize, SmallSafe, LargeSafe, MappedSafe, AllocSmall, AllocLarge, AllocMapped;
    var total := Total(size);
    ClassExact(total);
    InvLists(h);
    if Safe(h, size, grant) {
      AllocGives(h, size, grant);
    } else if total >= MMAP_THRESHOLD {
      MappedUnsafe(h, total, grant);
    } else if ClassOf(total) < CLASSES {
      SmallUnsafe(h, ClassOf(total), grant);
      SmallAtLeast(h, ClassOf(total), total, grant);
    } else {
      LargeUnsafe(h, total, grant);
    }
  }

  /** A block of a class is as big as the class, so giving less is giving the class. */
  lemma SmallAtLeast(h: Heap, ci: nat, total: nat, grant: bool)
    requires Inv(h) && ci < CLASSES
    ensures var (t, b) := AllocSmall(h, ci, grant);
      Gives(h, total, t, b) ==> Gives(h, ClassSize(ci), t, b)
  {
    hide Tiled, ListsOk, ClassOf, ClassSize, Carve;
    ExtendHead(h, ci, grant);
    HeadSize(h, ci, grant);
  }

  lemma HeadSize(h: Heap, ci: nat, grant: bool)
    requires Inv(h) && ci < CLASSES
    ensures var (t, b) := AllocSmall(h, ci, grant); b != 0 ==> b in t.blocks && t.blocks[b].size == ClassSize(ci)
  {
    hide Tiled, ClassSize;
    ExtendHead(h, ci, grant);
  }

  lemma SmallEnough(total: nat)
    ensures ClassOf(total) < CLASSES ==> ClassSize(ClassOf(total)) >= total
    ensures total <= 16 ==> ClassOf(total) == 0 && ClassSize(0) == 16
  {
  }

  lemma GivesLess(h: Heap, more: nat, total: nat, t: Heap, b: nat)
    requires Gives(h, more, t, b) && total <= more
    ensures Gives(h, total, t, b)
  {
    hide Inv;
  }

  lemma GivesSize(h: Heap, total: nat, t: Heap, b: nat)
    requires Gives(h, total, t, b)
    ensures b != 0 ==> Live(t, b) && t.blocks[b].size >= total && t.blocks[b].size >= HEADER
  {
    hide Tiled, ListsOk;
    if b != 0 { SizeOf(t, b); }
  }

  lemma SizeOf(h: Heap, b: nat)
    requires Inv(h) && b in h.blocks
    ensures HEADER <= h.blocks[b].size < WORD && b > 0
  {
    hide ClassOf, ClassSize, ListsOk;
    assert Sizes(h, b) && Placed(h, b, h.brk);
  }

  // ----- free

  /** A block of the arena goes to the head of the list its size names. */
  function Push(h: Heap, b: nat): Heap
    requires |h.lists| == CLASSES && b in h.blocks
  {
    var ci := ClassOf(h.blocks[b].size);
    var t := SetFlags(h, b, Free);
    if ci < CLASSES then t.(lists := h.lists[ci := [b] + h.lists[ci]]) else t.(large := [b] + h.large)
  }

  /** `free` of the block behind a pointer. */
  function Release(h: Heap, b: nat): Heap
    requires |h.lists| == CLASSES && Live(h, b)
  {
    if h.blocks[b].flags == Mmap then h.(blocks := map a | a in h.blocks && a != b :: h.blocks[a])
    else Push(h, b)
  }

  /** Freeing takes exactly that block out of use; it keeps the heap in order. */
  ghost predicate Freed(h: Heap, b: nat, t: Heap) {
    && Inv(t) && t.bytes == h.bytes && t.start == h.start && t.brk == h.brk && t.mmapNext == h.mmapNext
    && (forall a :: Live(t, a) <==> Live(h, a) && a != b)
    && (forall a :: Live(t, a) ==> t.blocks[a] == h.blocks[a])
  }

  lemma UnmapKeeps(h: Heap, b: nat, t: Heap)
    requires Inv(h) && Live(h, b) && h.blocks[b].flags == Mmap
    requires t == h.(blocks := map a | a in h.blocks && a != b :: h.blocks[a])
    ensures Inv(t)
  {
    hide ClassOf, ClassSize, Covered;
    forall x | t.start <= x < t.brk ensures Covered(t, x) {
      assert Covered(h, x);
      UnmapCovers(h, b, t, x);
    }
    forall a | a in t.blocks ensures Sizes(t, a) && Placed(t, a, t.brk) { assert Sizes(h, a) && Placed(h, a, h.brk); }
    forall a, c | a in t.blocks && c in t.blocks && a != c ensures Apart(t, a, c) { assert Apart(h, a, c); }
    forall a | a in t.blocks && t.blocks[a].flags == Free ensures Listed(t, a) { assert Listed(h, a); }
  }

  lemma UnmapCovers(h: Heap, b: nat, t: Heap, x: nat)
    requires b in h.blocks && h.blocks[b].flags == Mmap && Covered(h, x)
    requires t.blocks == map a | a in h.blocks && a != b :: h.blocks[a]
    ensures Covered(t, x)
  {
    var a :| Within(h, a, x);
    assert Within(t, a, x);
  }

  lemma PushFreeKeepsLists(h: Heap, b: nat)
    requires ListsOk(h) && Live(h, b) && h.blocks[b].flags == Used && Sizes(h, b)
    ensures |h.lists| == CLASSES && ListsOk(Push(h, b))
  {
    hide ClassOf, ClassSize;
    var size := h.blocks[b].size;
    ClassExact(size);
    forall a | a in Push(h, b).blocks && Push(h, b).blocks[a].flags == Free ensures Listed(Push(h, b), a) {
      if a != b { assert Listed(h, a); }
    }
  }

  lemma ReleaseKeeps(h: Heap, b: nat)
    requires Inv(h) && Live(h, b)
    ensures |h.lists| == CLASSES && Freed(h, b, Release(h, b))
  {
    hide Tiled, ListsOk, ClassOf, ClassSize;
    ListCount(h);
    if h.blocks[b].flags == Mmap {
      UnmapKeeps(h, b, Release(h, b));
    } else {
      BlockSizes(h, b);
      PushFreeKeepsLists(h, b);
      FlagsKeepTiles(h, h.brk, b, Free, Push(h, b));
    }
  }

  lemma BlockSizes(h: Heap, b: nat)
    requires Tiled(h, h.brk) && b in h.blocks
    ensures Sizes(h, b)
  {
  }

  /** Freeing what a small allocation took from a non-empty list, and freeing what
      any allocation gave, undoes it: exactly, and as far as use goes. */
  lemma FreeUndoesAlloc(h: Heap, size: nat, grant: bool)
    requires Inv(h) && size < WORD && Safe(h, size, grant)
    ensures var (t, b) := Alloc(h, size, grant);
      b != 0 ==>
        && |t.lists| == CLASSES && Live(t, b)
        && (forall a :: Live(Release(t, b), a) <==> Live(h, a))
        && (Total(size) < MMAP_THRESHOLD && ClassOf(Total(size)) < CLASSES && h.lists[ClassOf(Total(size))] != [] ==>
              Release(t, b) == h)
  {
    hide Inv, ClassOf, ClassSize, Tiled, ListsOk, Safe;
    AllocGives(h, size, grant);
    var (t, b) := Alloc(h, size, grant);
    if b != 0 {
      GivenLive(h, Total(size), t, b);
      ReleaseKeeps(t, b);
      if Total(size) < MMAP_THRESHOLD && ClassOf(Total(size)) < CLASSES {
        PopThenPush(h, ClassOf(Total(size)), grant);
      }
    }
  }

  lemma GivenLive(h: Heap, total: nat, t: Heap, b: nat)
    requires Gives(h, total, t, b) && b != 0
    ensures Inv(t) && Live(t, b) && !Live(h, b) && forall a :: Live(t, a) <==> a == b || Live(h, a)
    ensures t.bytes == h.bytes && forall a :: Live(h, a) ==> t.blocks[a] == h.blocks[a]
  {
    hide Inv;
  }

  lemma PopThenPush(h: Heap, ci: nat, grant: bool)
    requires Inv(h) && ci < CLASSES
    ensures |h.lists| == CLASSES
    ensures h.lists[ci] != [] ==>
              var (t, b) := AllocSmall(h, ci, grant);
              Live(t, b) && |t.lists| == CLASSES && Release(t, b) == h
  {
    hide Tiled, ListsOk, ClassOf, ClassSize;
    ListCount(h);
    HeadOf(h, ci);
    if h.lists[ci] != [] {
      ClassExact(ClassSize(ci));
      var (t, b) := AllocSmall(h, ci, grant);
      assert [b] + h.lists[ci][1..] == h.lists[ci];
      assert t.blocks[b := Header(ClassSize(ci), Free)] == h.blocks;
      assert t.lists[ci := h.lists[ci]] == h.lists;
    }
  }

  // ----- contents

  function ByteAt(h: Heap, x: nat): bv8 {
    if x in h.bytes then h.bytes[x] else 0
  }

  function Store(h: Heap, x: nat, v: bv8): Heap {
    h.(bytes := h.bytes[x := v])
  }

  /** The byte-by-byte copy of `n` bytes. */
  function CopyBytes(h: Heap, dst: nat, src: nat, n: nat): (r: Heap)
    ensures r == h.(bytes := r.bytes)
  {
    if n == 0 then h
    else
      var c := CopyBytes(h, dst, src, n - 1);
      Store(c, dst + n - 1, ByteAt(c, src + n - 1))
  }

  /** Byte `k` behind the pointer of block `b`. */
  function Payload(h: Heap, b: nat, k: nat): bv8 {
    ByteAt(h, b + HEADER + k)
  }

  function Content(h: Heap, b: nat, n: nat): seq<bv8> {
    seq(n, k requires k >= 0 => Payload(h, b, k))
  }

  /** A block that has to grow is moved to one from a safe call. */
  predicate ResizeSafe(h: Heap, b: nat, size: nat, grant: bool)
    requires Inv(h) && Live(h, b)
  {
    SizeOf(h, b);
    Usable(h, b) >= size || Safe(h, size, grant)
  }

  /** `realloc` of the block behind a pointer, to a size other than 0. */
  function Resize(h: Heap, b: nat, size: nat, grant: bool): (Heap, nat)
    requires Inv(h) && Live(h, b) && size < WORD && ResizeSafe(h, b, size, grant)
  {
    SizeOf(h, b);
    if Usable(h, b) >= size then (h, b)
    else
      var (t, nb) := Alloc(h, size, grant);
      AllocGives(h, size, grant);
      GivesKeeps(h, size, grant, b);
      if nb == 0 then (t, 0)
      else (Release(CopyBytes(t, nb + HEADER, b + HEADER, Usable(h, b)), b), nb)
  }

  lemma GivesKeeps(h: Heap, size: nat, grant: bool, b: nat)
    requires Inv(h) && Live(h, b) && size < WORD && Safe(h, size, grant)
    ensures var (t, nb) := Alloc(h, size, grant); Inv(t) && Live(t, b) && |t.lists| == CLASSES && (nb != 0 ==> nb != b)
    ensures var (t, nb) := Alloc(h, size, grant); t.blocks[b] == h.blocks[b] && (nb != 0 ==> Live(t, nb))
  {
    hide Inv, Tiled, ListsOk, ClassOf, ClassSize, Alloc, Safe;
    AllocGives(h, size, grant);
    GivesParts(h, Total(size), Alloc(h, size, grant).0, Alloc(h, size, grant).1, b);
  }

  lemma GivesParts(h: Heap, total: nat, t: Heap, nb: nat, b: nat)
    requires Gives(h, total, t, nb) && Live(h, b)
    ensures Inv(t) && Live(t, b) && t.blocks[b] == h.blocks[b] && |t.lists| == CLASSES && t.bytes == h.bytes
    ensures nb != 0 ==> nb != b && Live(t, nb)
  {
    hide Tiled, ClassOf, ClassSize;
  }

  lemma CopyKeeps(h: Heap, dst: nat, src: nat, n: nat)
    requires Inv(h)
    ensures Inv(CopyBytes(h, dst, src, n))
  {
    hide Tiled, ListsOk;
    BreakMoves(h, CopyBytes(h, dst, src, n), h.brk);
  }

  lemma {:induction false} CopyReads(h: Heap, dst: nat, src: nat, n: nat, x: nat)
    requires src + n <= dst || dst + n <= src
    ensures ByteAt(CopyBytes(h, dst, src, n), x)
            == if dst <= x < dst + n then ByteAt(h, src + (x - dst)) else ByteAt(h, x)
  {
    if n > 0 {
      CopyReads(h, dst, src, n - 1, x);
      CopyReads(h, dst, src, n - 1, src + n - 1);
    }
  }

  lemma BlocksApart(h: Heap, a: nat, b: nat)
    requires Inv(h) && a in h.blocks && b in h.blocks && a != b
    ensures Apart(h, a, b)
  {
  }

  /** What resizing gives: the bytes of the old block at the front of the new one,
      every other live block as it was, header and bytes. */
  ghost predicate Resized(h: Heap, b: nat, size: nat, t: Heap, nb: nat)
    requires b in h.blocks && h.blocks[b].size >= HEADER
  {
    && Inv(t)
    && (nb == 0 ==> Live(t, b) && t.bytes == h.bytes && forall a :: Live(t, a) <==> Live(h, a))
    && (nb != 0 ==>
          && Live(t, nb) && t.blocks[nb].size >= size + HEADER
          && Content(t, nb, if Usable(h, b) < size then Usable(h, b) else size)
             == Content(h, b, if Usable(h, b) < size then Usable(h, b) else size)
          && (forall a :: Live(t, a) <==> a == nb || (Live(h, a) && a != b)))
    && (forall a :: Live(h, a) && a != b ==> OthersSame(h, t, a))
  }

  ghost predicate OthersSame(h: Heap, t: Heap, a: nat) {
    && a in h.blocks && h.blocks[a].size >= HEADER
    && Live(t, a) && t.blocks[a] == h.blocks[a] && Content(t, a, Usable(h, a)) == Content(h, a, Usable(h, a))
  }

  /** Growing moves the contents and keeps everything else exactly when the header
      does not wrap, the block is large enough as it is, or there is no memory for the
      smallest class: a size within the header of 32 bits is given a block that is too
      small, and the old bytes are copied past its end. */
  lemma ResizeKeepsExactly(h: Heap, b: nat, size: nat, grant: bool)
    requires Inv(h) && Live(h, b) && size < WORD && ResizeSafe(h, b, size, grant)
    ensures h.blocks[b].size >= HEADER && |h.lists| == CLASSES
    ensures var (t, nb) := Resize(h, b, size, grant);
      Resized(h, b, size, t, nb)
      <==> size + HEADER < WORD || Usable(h, b) >= size || (h.lists[0] == [] && !grant)
  {
    hide Inv, ClassOf, ClassSize, Tiled, ListsOk, Alloc, Release, CopyBytes, Gives, Safe;
    SizeOf(h, b);
    InvLists(h);
    if size + HEADER >= WORD { WrappedFails(h, size, grant); }
    var (t, nb) := Resize(h, b, size, grant);
    if size + HEADER < WORD || Usable(h, b) >= size {
      ResizeKeeps(h, b, size, grant);
    } else {
      AllocGives(h, size, grant);
      GivesKeeps(h, size, grant, b);
      var g := Alloc(h, size, grant).0;
      if nb == 0 {
        GivesNothing(h, Total(size), g);
        forall a | Live(h, a) ensures h.blocks[a].size >= HEADER && OthersSame(h, g, a) {
          SizeOf(h, a);
          GivesParts(h, Total(size), g, nb, a);
          SameContent(h, a, g, a, Usable(h, a));
        }
      } else {
        GivenLive(h, Total(size), g, nb);
        TooSmall(g, b, nb, Usable(h, b));
      }
    }
  }

  /** A size within the header of 32 bits comes from the smallest class. */
  lemma WrappedFails(h: Heap, size: nat, grant: bool)
    requires Inv(h) && size < WORD <= size + HEADER && Safe(h, size, grant)
    ensures |h.lists| == CLASSES && (Alloc(h, size, grant).1 == 0 <==> h.lists[0] == [] && !grant)
  {
    hide Inv, AllocSmall, SmallSafe, Gives;
    InvLists(h);
    assert Total(size) < HEADER && ClassOf(Total(size)) == 0;
    AllocSmallGives(h, 0, grant);
  }

  /** Copying and releasing leave the size of the new block. */
  lemma TooSmall(g: Heap, b: nat, nb: nat, n: nat)
    requires Inv(g) && |g.lists| == CLASSES && Live(g, b) && Live(g, nb) && nb != b
    ensures var c := CopyBytes(g, nb + HEADER, b + HEADER, n);
      Live(c, b) && Live(Release(c, b), nb) && Release(c, b).blocks[nb] == g.blocks[nb]
  {
    hide Inv, ClassOf, ClassSize;
  }

  /** Growing moves the contents and keeps everything else; with a size whose header
      does not wrap. */
  lemma ResizeKeeps(h: Heap, b: nat, size: nat, grant: bool)
    requires Inv(h) && Live(h, b) && size < WORD && ResizeSafe(h, b, size, grant)
    requires h.blocks[b].size >= HEADER && (size + HEADER < WORD || Usable(h, b) >= size)
    ensures var (t, nb) := Resize(h, b, size, grant); Resized(h, b, size, t, nb)
  {
    hide Inv, ClassOf, ClassSize, Tiled, ListsOk, Alloc, Release, CopyBytes, Gives, Safe;
    SizeOf(h, b);
    forall a | Live(h, a) ensures h.blocks[a].size >= HEADER { SizeOf(h, a); }
    if Usable(h, b) < size {
      AllocGives(h, size, grant);
      GivesKeeps(h, size, grant, b);
      var (t, nb) := Alloc(h, size, grant);
      forall a | Live(h, a) ensures Live(t, a) && t.blocks[a] == h.blocks[a]
          && t.bytes == h.bytes { GivesParts(h, Total(size), t, nb, a); }
      if nb != 0 {
        GivenLive(h, Total(size), t, nb);
        Moved(h, b, size, t, nb);
      } else {
        GivesNothing(h, Total(size), t);
      }
    }
  }

  lemma GivesNothing(h: Heap, total: nat, t: Heap)
    requires Gives(h, total, t, 0)
    ensures Inv(t) && t.bytes == h.bytes && forall a :: Live(t, a) <==> Live(h, a)
  {
    hide Inv;
  }

  lemma Moved(h: Heap, b: nat, size: nat, t: Heap, nb: nat)
    requires Inv(h) && Live(h, b) && Inv(t) && t.bytes == h.bytes && nb != b && |t.lists| == CLASSES && Live(t, b)
    requires forall a :: Live(h, a) ==> h.blocks[a].size >= HEADER && Live(t, a) && t.blocks[a] == h.blocks[a]
    requires Live(t, nb) && !Live(h, nb) && forall a :: Live(t, a) <==> a == nb || Live(h, a)
    requires Usable(h, b) < size && t.blocks[nb].size >= size + HEADER && nb != 0
    ensures Resized(h, b, size, Release(CopyBytes(t, nb + HEADER, b + HEADER, Usable(h, b)), b), nb)
  {
    hide Inv, ClassOf, ClassSize, Tiled, ListsOk, Release, CopyBytes;
    var n := Usable(h, b);
    var dst, src := nb + HEADER, b + HEADER;
    CopyKeeps(t, dst, src, n);
    var c := CopyBytes(t, dst, src, n);
    assert forall a :: Live(c, a) <==> Live(t, a);
    ReleaseKeeps(c, b);
    var r := Release(c, b);
    FreedParts(c, b, r);
    BlocksApart(t, nb, b);
    forall a: nat | Live(h, a) && a != b ensures OthersSame(h, r, a) {
      BlocksApart(t, a, nb);
      var m := Usable(h, a);
      forall k: nat | k < m ensures Payload(r, a, k) == Payload(h, a, k) {
        CopyReads(t, dst, src, n, a + HEADER + k);
      }
      SameContent(h, a, r, a, m);
    }
    forall k: nat | k < n ensures Payload(r, nb, k) == Payload(h, b, k) {
      CopyReads(t, dst, src, n, nb + HEADER + k);
    }
    SameContent(h, b, r, nb, n);
  }

  lemma FreedParts(h: Heap, b: nat, t: Heap)
    requires Freed(h, b, t)
    ensures Inv(t) && t.bytes == h.bytes && forall a :: Live(t, a) <==> Live(h, a) && a != b
    ensures forall a :: Live(t, a) ==> t.blocks[a] == h.blocks[a]
  {
    hide Inv;
  }

  lemma SameContent(h: Heap, a: nat, t: Heap, b: nat, n: nat)
    requires forall k: nat :: k < n ==> Payload(t, b, k) == Payload(h, a, k)
    ensures Content(t, b, n) == Content(h, a, n)
  {
  }

  // ----- every run

  /** A program's call, or its own store behind a pointer. */
  datatype Op =
    | Malloc(size: nat, grant: bool)
    | FreeOf(b: nat)
    | Realloc(b: nat, size: nat, grant: bool)
    | StoreIn(b: nat, k: nat, v: bv8)

  /** The program passes live blocks and stores inside them. */
  predicate Allowed(h: Heap, op: Op) {
    match op
    case Malloc(size, _) => size < WORD
    case FreeOf(b) => Live(h, b)
    case Realloc(b, size, _) => Live(h, b) && size < WORD
    case StoreIn(b, k, _) => Live(h, b) && k + HEADER < h.blocks[b].size
  }

  /** The bounds that neither the kernel nor the library checks: growth stays below
      the mappings, mappings above the break, and no header wraps. */
  predicate SafeOp(h: Heap, op: Op)
    requires Inv(h) && Allowed(h, op)
  {
    match op
    case Malloc(size, grant) => Safe(h, size, grant)
    case Realloc(b, size, grant) =>
      SizeOf(h, b);
      size == 0 || Usable(h, b) >= size || (size + HEADER < WORD && Safe(h, size, grant))
    case _ => true
  }

  function Step(h: Heap, op: Op): Heap
    requires Inv(h) && Allowed(h, op) && SafeOp(h, op)
  {
    ListCount(h);
    match op
    case Malloc(size, grant) => Alloc(h, size, grant).0
    case FreeOf(b) => Release(h, b)
    case Realloc(b, size, grant) => if size == 0 then Release(h, b) else Resize(h, b, size, grant).0
    case StoreIn(b, k, v) => Store(h, b + HEADER + k, v)
  }

  lemma StepInv(h: Heap, op: Op)
    requires Inv(h) && Allowed(h, op) && SafeOp(h, op)
    ensures Inv(Step(h, op))
  {
    hide Tiled, ListsOk, ClassOf, ClassSize, Alloc, Release, Resize, Gives, Safe;
    ListCount(h);
    match op {
      case Malloc(size, grant) =>
        AllocGives(h, size, grant);
        GivesInv(h, Total(size), Alloc(h, size, grant).0, Alloc(h, size, grant).1);
      case FreeOf(b) => ReleaseKeeps(h, b);
      case Realloc(b, size, grant) =>
        ReleaseKeeps(h, b);
        SizeOf(h, b);
        if size != 0 { ResizeKeeps(h, b, size, grant); }
      case StoreIn(b, k, v) => BreakMoves(h, Store(h, b + HEADER + k, v), h.brk);
    }
  }

  lemma GivesInv(h: Heap, total: nat, t: Heap, b: nat)
    requires Gives(h, total, t, b)
    ensures Inv(t) && t.bytes == h.bytes && forall a :: Live(h, a) ==> Live(t, a) && t.blocks[a] == h.blocks[a]
  {
    hide Inv;
  }

  ghost predicate Runs(h: Heap, ops: seq<Op>, t: Heap)
    requires Inv(h)
    decreases |ops|
  {
    if ops == [] then t == h
    else Allowed(h, ops[0]) && SafeOp(h, ops[0]) && (StepInv(h, ops[0]); Runs(Step(h, ops[0]), ops[1..], t))
  }

  /** Over every run of safe calls the blocks stay apart, tile the arena, and lie in
      the list of their size when free. */
  lemma {:induction false} EveryRunInv(h: Heap, ops: seq<Op>, t: Heap)
    requires Inv(h) && Runs(h, ops, t)
    ensures Inv(t)
    decreases |ops|
  {
    hide Inv, Allowed, Step, SafeOp;
    if ops != [] {
      StepInv(h, ops[0]);
      EveryRunInv(Step(h, ops[0]), ops[1..], t);
    }
  }

  /** The call is not about block `b`. */
  predicate Spares(op: Op, b: nat) {
    match op
    case Malloc(_, _) => true
    case FreeOf(a) => a != b
    case Realloc(a, _, _) => a != b
    case StoreIn(a, _, _) => a != b
  }

  lemma StepSpares(h: Heap, op: Op, b: nat)
    requires Inv(h) && Allowed(h, op) && SafeOp(h, op) && Live(h, b) && Spares(op, b)
    ensures h.blocks[b].size >= HEADER && OthersSame(h, Step(h, op), b)
  {
    hide Tiled, ListsOk, ClassOf, ClassSize, Alloc, Release, Resize, Gives, Inv, Safe;
    assert |h.lists| == CLASSES by { InvCount(h); }
    SizeOf(h, b);
    var t := Step(h, op);
    match op {
      case Malloc(size, grant) =>
        AllocGives(h, size, grant);
        GivesInv(h, Total(size), Alloc(h, size, grant).0, Alloc(h, size, grant).1);
        SameContent(h, b, t, b, Usable(h, b));
      case FreeOf(a) =>
        ReleaseKeeps(h, a);
        FreedParts(h, a, t);
        SameContent(h, b, t, b, Usable(h, b));
      case Realloc(a, size, grant) =>
        ReleaseKeeps(h, a);
        FreedParts(h, a, Release(h, a));
        SameContent(h, b, Release(h, a), b, Usable(h, b));
        SizeOf(h, a);
        if size != 0 { ResizeKeeps(h, a, size, grant); }
      case StoreIn(a, k, v) =>
        BlocksApart(h, a, b);
        SameContent(h, b, t, b, Usable(h, b));
    }
  }

  lemma InvCount(h: Heap)
    requires Inv(h)
    ensures |h.lists| == CLASSES
  {
  }

  /** A live block that no call of the run is about keeps header and contents. */
  lemma {:induction false} BlockSurvives(h: Heap, ops: seq<Op>, t: Heap, b: nat)
    requires Inv(h) && Runs(h, ops, t) && Live(h, b) && forall i :: 0 <= i < |ops| ==> Spares(ops[i], b)
    ensures h.blocks[b].size >= HEADER && OthersSame(h, t, b)
    decreases |ops|
  {
    hide Inv, Allowed, Step, Spares, SafeOp;
    SizeOf(h, b);
    if ops != [] {
      StepInv(h, ops[0]);
      StepSpares(h, ops[0], b);
      BlockSurvives(Step(h, ops[0]), ops[1..], t, b);
    }
  }

  /** Two live blocks never share a byte. */
  lemma LiveApart(h: Heap, ops: seq<Op>, t: Heap, a: nat, b: nat)
    requires Inv(h) && Runs(h, ops, t) && Live(t, a) && Live(t, b) && a != b
    ensures a + t.blocks[a].size <= b || b + t.blocks[b].size <= a
  {
    EveryRunInv(h, ops, t);
    BlocksApart(t, a, b);
  }

  // ----- where the break meets a mapping

  /** `n` blocks of 8200 bytes taken from the break, one behind the other. */
  lemma {:induction false} ManyLarge(h: Heap, n: nat) returns (ops: seq<Op>, t: Heap)
    requires Inv(h) && h.large == [] && BelowMappings(h, h.brk + n * 8216)
    ensures Runs(h, ops, t) && t.brk == h.brk + n * 8216 && t.large == [] && Inv(t)
    ensures forall a :: Live(h, a) ==> Live(t, a) && t.blocks[a] == h.blocks[a]
    decreases n
  {
    hide Inv, Runs, ClassOf, ClassSize, Tiled, ListsOk;
    if n == 0 {
      NoOps(h);
      ops, t := [], h;
    } else {
      OneLarge(h);
      var g := Step(h, Malloc(8200, true));
      var rest;
      assert n * 8216 == 8216 + (n - 1) * 8216;
      rest, t := ManyLarge(g, n - 1);
      ops := [Malloc(8200, true)] + rest;
      OneMore(h, Malloc(8200, true), rest, t);
    }
  }

  lemma NoOps(h: Heap)
    requires Inv(h)
    ensures Runs(h, [], h)
  {
    hide Inv;
  }

  lemma OneMore(h: Heap, op: Op, rest: seq<Op>, t: Heap)
    requires Inv(h) && Allowed(h, op) && SafeOp(h, op) && Inv(Step(h, op)) && Runs(Step(h, op), rest, t)
    ensures Runs(h, [op] + rest, t)
  {
    hide Inv, Allowed, SafeOp, Step;
    assert ([op] + rest)[1..] == rest;
  }

  lemma OneLarge(h: Heap)
    requires Inv(h) && h.large == [] && BelowMappings(h, h.brk + 8216)
    ensures var op := Malloc(8200, true); Allowed(h, op) && SafeOp(h, op)
    ensures var t := Step(h, Malloc(8200, true));
      && Inv(t) && t.brk == h.brk + 8216 && t.large == [] && t == Alloc(h, 8200, true).0
      && (forall top: nat :: BelowMappings(h, top) ==> BelowMappings(t, top))
      && (forall a :: Live(h, a) ==> Live(t, a) && t.blocks[a] == h.blocks[a])
  {
    hide Inv, ClassOf, ClassSize;
    ClassExact(8216);
    InvLists(h);
    StepInv(h, Malloc(8200, true));
    AllocGives(h, 8200, true);
    GivesInv(h, 8216, Alloc(h, 8200, true).0, Alloc(h, 8200, true).1);
  }

  /** The break meets a mapping: whatever the first break was, a program that maps a
      block and then takes blocks of 8200 bytes is at last given one that overlaps the
      mapping, which is still in use. */
  lemma HeapMeetsMapping(start: nat) returns (ops: seq<Op>, h: Heap)
    requires 0 < start <= MMAP_BASE
    ensures Inv(Empty(start, MMAP_BASE)) && Runs(Empty(start, MMAP_BASE), ops, h) && Inv(h)
    ensures Live(h, MMAP_BASE) && h.blocks[MMAP_BASE].size == 0x1_0010
    ensures var (t, b) := Alloc(h, 8200, true); b != 0 && b <= MMAP_BASE < b + 8216 && t.brk == b + 8216
    ensures !Safe(h, 8200, true)
  {
    hide Inv, Runs, ClassOf, ClassSize;
    var h0 := Empty(start, MMAP_BASE);
    EmptyInv(start, MMAP_BASE);
    FirstMapping(h0);
    var h1 := Step(h0, Malloc(0x1_0000, true));
    var n := (MMAP_BASE - start) / 8216;
    assert n * 8216 <= MMAP_BASE - start < n * 8216 + 8216;
    var rest;
    rest, h := ManyLarge(h1, n);
    ops := [Malloc(0x1_0000, true)] + rest;
    OneMore(h0, Malloc(0x1_0000, true), rest, h);
    ClassExact(8216);
    InvLists(h);
  }

  lemma FirstMapping(h: Heap)
    requires Inv(h) && h.blocks == map[] && h.large == [] && h.mmapNext == MMAP_BASE && h.brk <= MMAP_BASE
    ensures var op := Malloc(0x1_0000, true); Allowed(h, op) && SafeOp(h, op)
    ensures var t := Step(h, Malloc(0x1_0000, true));
      && Inv(t) && t.brk == h.brk && t.large == [] && t.blocks == map[MMAP_BASE := Header(0x1_0010, Mmap)]
      && BelowMappings(t, MMAP_BASE)
  {
    hide Inv, ClassOf, ClassSize;
    InvLists(h);
    StepInv(h, Malloc(0x1_0000, true));
  }

  // ----- alignment

  predicate Aligned(h: Heap) {
    h.brk % 16 == 0 && h.mmapNext % 16 == 0 && forall a :: a in h.blocks ==> a % 16 == 0
  }

  /** The call takes fresh memory for a block above the size classes. */
  predicate TakesMidSize(h: Heap, size: nat, grant: bool)
    requires Inv(h)
  {
    var total := Total(size);
    && total < MMAP_THRESHOLD && ClassOf(total) == CLASSES
    && FirstFit(h, total, 0) == |h.large| && grant
  }

  lemma {:induction false} ClassSizeAligned(ci: nat)
    ensures ClassSize(ci) % 16 == 0
  {
    if ci > 0 { ClassSizeAligned(ci - 1); }
  }

  lemma {:induction false} CarveAligned(h: Heap, ci: nat, base: nat, n: nat)
    requires ci < |h.lists| && base % 16 == 0 && forall a :: a in h.blocks ==> a % 16 == 0
    ensures forall a :: a in Carve(h, ci, base, n).blocks ==> a % 16 == 0
    ensures Carve(h, ci, base, n).(blocks := h.blocks, lists := h.lists) == h
  {
    hide ClassSize;
    if n > 0 {
      CarveAligned(h, ci, base, n - 1);
      ClassSizeAligned(ci);
      Multiple(base, n - 1, ClassSize(ci));
    }
  }

  lemma Multiple(base: nat, n: nat, bs: nat)
    requires base % 16 == 0 && bs % 16 == 0
    ensures (base + n * bs) % 16 == 0
  {
    var p, q := base / 16, bs / 16;
    ScaleBy16(n, q);
    DivUnique(base + n * bs, 16, p + n * q, 0);
  }

  lemma ScaleBy16(n: nat, q: nat)
    ensures n * (16 * q) == 16 * (n * q)
  {
  }

  /** Aligned blocks stay aligned; so does the break, except exactly when a block
      of mid size is taken from it whose size is no multiple of 16. */
  lemma AlignmentKeptExactly(h: Heap, size: nat, grant: bool)
    requires Inv(h) && Aligned(h) && size < WORD
    ensures Aligned(Alloc(h, size, grant).0) <==> !(TakesMidSize(h, size, grant) && Total(size) % 16 != 0)
    ensures Alloc(h, size, grant).1 % 16 == 0
  {
    hide Inv, ClassOf, ClassSize, FirstFit, AllocSmall, AllocLarge, Aligned;
    var total := Total(size);
    MappedAligned(h, total, grant);
    SmallAligned(h, ClassOf(total), grant);
    LargeAligned(h, total, grant);
  }

  lemma MappedAligned(h: Heap, total: nat, grant: bool)
    requires Aligned(h)
    ensures Aligned(AllocMapped(h, total, grant).0) && AllocMapped(h, total, grant).1 % 16 == 0
  {
  }

  lemma SmallAligned(h: Heap, ci: nat, grant: bool)
    requires Inv(h) && Aligned(h)
    ensures ci < CLASSES ==> Aligned(AllocSmall(h, ci, grant).0) && AllocSmall(h, ci, grant).1 % 16 == 0
  {
    hide Tiled, ListsOk, ClassOf, ClassSize, Carve;
    if ci < CLASSES {
      ListCount(h);
      ClassSizeAligned(ci);
      ExtendHead(h, ci, grant);
      CarveAligned(h.(brk := h.brk + 8 * ClassSize(ci)), ci, h.brk, 8);
    }
  }

  lemma LargeAligned(h: Heap, total: nat, grant: bool)
    requires Inv(h) && Aligned(h)
    ensures FirstFit(h, total, 0) <= |h.large|
    ensures Aligned(AllocLarge(h, total, grant).0)
            <==> !(FirstFit(h, total, 0) == |h.large| && grant && total % 16 != 0)
    ensures AllocLarge(h, total, grant).1 % 16 == 0
  {
    hide Inv, ClassOf, ClassSize, FirstFit;
    FitIn(h, total);
    LargeListed(h);
  }

  lemma LargeListed(h: Heap)
    requires Inv(h)
    ensures forall i: nat :: i < |h.large| ==> h.large[i] in h.blocks
  {
  }

  lemma FitIn(h: Heap, total: nat)
    requires Inv(h)
    ensures FirstFit(h, total, 0) <= |h.large|
    ensures FirstFit(h, total, 0) < |h.large| ==> h.large[FirstFit(h, total, 0)] in h.blocks
  {
  }

  /** The first block a small size gets from a fresh chunk is the chunk's last: its
      pointer is aligned exactly when the break was. */
  lemma FirstSmallPointer(h: Heap, size: nat)
    requires Inv(h) && size < WORD && ClassOf(Total(size)) < CLASSES
    requires |h.lists| == CLASSES && h.lists[ClassOf(Total(size))] == []
    ensures var b := Alloc(h, size, true).1;
      b == h.brk + 7 * ClassSize(ClassOf(Total(size))) && ((b + HEADER) % 16 == 0 <==> h.brk % 16 == 0)
  {
    hide Inv, ClassSize, ClassOf, AllocSmall;
    var total := Total(size);
    ClassExact(total);
    ClassSizeAligned(ClassOf(total));
    SmallClassBelow(total);
    FreshSmall(h, ClassOf(total));
  }

  lemma SmallClassBelow(total: nat)
    requires ClassOf(total) < CLASSES
    ensures total < MMAP_THRESHOLD
  {
    ClassExact(total);
  }

  lemma FreshSmall(h: Heap, ci: nat)
    requires Inv(h) && ci < CLASSES && |h.lists| == CLASSES && h.lists[ci] == []
    ensures AllocSmall(h, ci, true).1 == h.brk + 7 * ClassSize(ci)
  {
    hide Tiled, ListsOk, ClassSize, ClassOf, Carve;
    CarveHead(h.(brk := h.brk + 8 * ClassSize(ci)), ci, h.brk, 8);
  }

  lemma CarveHead(h: Heap, ci: nat, base: nat, n: nat)
    requires ci < |h.lists| && n > 0
    ensures Carve(h, ci, base, n).lists[ci] != []
            && Carve(h, ci, base, n).lists[ci][0] == base + (n - 1) * ClassSize(ci)
  {
    hide ClassSize;
  }

  /** A program that asks for 8200 bytes and then for 1 gets a second pointer that
      is not a multiple of 16. */
  lemma MidSizeBreaksAlignment(start: nat)
    requires 0 < start && start % 16 == 0 && start + 0x1_0000 <= MMAP_BASE
    ensures Inv(Empty(start, MMAP_BASE)) && Inv(Alloc(Empty(start, MMAP_BASE), 8200, true).0)
    ensures var (t, b) := Alloc(Alloc(Empty(start, MMAP_BASE), 8200, true).0, 1, true);
      b != 0 && (b + HEADER) % 16 == 8
  {
    hide Inv, ClassSize, ClassOf, Alloc;
    var h := Empty(start, MMAP_BASE);
    EmptyInv(start, MMAP_BASE);
    AllocGives(h, 8200, true);
    FirstMidSize(start);
    SmallClass();
    FirstSmallPointer(Alloc(h, 8200, true).0, 1);
  }

  lemma FirstMidSize(start: nat)
    requires 0 < start && start + 0x1_0000 <= MMAP_BASE
    ensures Inv(Empty(start, MMAP_BASE)) && Inv(Alloc(Empty(start, MMAP_BASE), 8200, true).0)
    ensures var g := Alloc(Empty(start, MMAP_BASE), 8200, true).0;
      g.brk == start + 8216 && g.lists == Empty(start, MMAP_BASE).lists
  {
    hide Inv, ClassSize, ClassOf;
    var h := Empty(start, MMAP_BASE);
    EmptyInv(start, MMAP_BASE);
    AllocGives(h, 8200, true);
    GivesInv(h, 8216, Alloc(h, 8200, true).0, Alloc(h, 8200, true).1);
    ClassExact(8216);
  }

  lemma SmallClass()
    ensures ClassOf(17) == 1 && ClassSize(1) == 32
  {
    assert ClassSize(0) == 16;
  }

  /** From a fresh heap a size of 2^32 - 8 gives a block whose header is all of it. */
  lemma WrappedSizeGivesNothing(start: nat)
    requires 0 < start <= MMAP_BASE
    ensures Inv(Empty(start, MMAP_BASE)) && 0xFFFF_FFF8 < WORD
    ensures var (t, b) := Alloc(Empty(start, MMAP_BASE), 0xFFFF_FFF8, true);
      b != 0 && Live(t, b) && t.blocks[b].size == HEADER && Usable(t, b) == 0
  {
    hide Inv, AllocSmall, SmallSafe, Gives;
    var h := Empty(start, MMAP_BASE);
    EmptyInv(start, MMAP_BASE);
    assert Total(0xFFFF_FFF8) == 8 && ClassOf(8) == 0 && ClassSize(0) == 16;
    NoMappings(h, 0);
    AllocSmallGives(h, 0, true);
    var (t, b) := AllocSmall(h, 0, true);
    GivenLive(h, ClassSize(0), t, b);
  }

  lemma NoMappings(h: Heap, ci: nat)
    requires h.blocks == map[] && ci < |h.lists|
    ensures SmallSafe(h, ci, true)
  {
  }

  // ----- calloc

  /** The zeroing loop. */
  function ZeroBytes(h: Heap, dst: nat, n: nat): (r: Heap)
    ensures r == h.(bytes := r.bytes)
  {
    if n == 0 then h else Store(ZeroBytes(h, dst, n - 1), dst + n - 1, 0)
  }

  /** `calloc`: the product is cut to 32 bits. */
  function ClearedAlloc(h: Heap, count: nat, size: nat, grant: bool): (Heap, nat)
    requires Inv(h)
  {
    var n := Wrap(count * size);
    var (t, b) := Alloc(h, n, grant);
    if b == 0 then (t, 0) else (ZeroBytes(t, b + HEADER, n), b)
  }

  lemma {:induction false} ZeroReads(h: Heap, dst: nat, n: nat, x: nat)
    ensures ByteAt(ZeroBytes(h, dst, n), x) == if dst <= x < dst + n then 0 else ByteAt(h, x)
  {
    if n > 0 { ZeroReads(h, dst, n - 1, x); }
  }

  /** The block is big enough for all elements exactly when neither the product nor
      the header wraps; then all of it reads zero, and no other live block changed. */
  lemma CallocClears(h: Heap, count: nat, size: nat, grant: bool)
    requires Inv(h) && 0 < count * size && Safe(h, Wrap(count * size), grant)
    ensures var (t, b) := ClearedAlloc(h, count, size, grant);
      b != 0 ==>
        && Live(t, b) && t.blocks[b].size >= HEADER
        && (Usable(t, b) >= count * size <==> count * size + HEADER < WORD)
        && (count * size + HEADER < WORD ==>
              && (forall k: nat :: k < count * size ==> Payload(t, b, k) == 0)
              && (forall a :: Live(h, a) ==> OthersSame(h, t, a)))
  {
    hide Inv, ClassOf, ClassSize, Alloc, Gives, Safe;
    var n := Wrap(count * size);
    AllocGives(h, n, grant);
    var (g, b) := Alloc(h, n, grant);
    var t := ClearedAlloc(h, count, size, grant).0;
    if b != 0 {
      GivenLive(h, Total(n), g, b);
      SizeOf(g, b);
      if count * size + HEADER < WORD {
        forall k: nat | k < n ensures Payload(t, b, k) == 0 { ZeroReads(g, b + HEADER, n, b + HEADER + k); }
        forall a: nat | Live(h, a) ensures OthersSame(h, t, a) {
          SizeOf(h, a);
          BlocksApart(g, a, b);
          forall k: nat | k < Usable(h, a) ensures Payload(t, a, k) == Payload(h, a, k) {
            ZeroReads(g, b + HEADER, n, a + HEADER + k);
          }
          SameContent(h, a, t, a, Usable(h, a));
        }
      }
    }
  }
}
