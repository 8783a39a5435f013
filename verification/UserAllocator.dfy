/** The user-space allocator in its own form: block headers linked into lists whose
    heads are globals, changed in place. */
module UserAllocator {
  import opened AddressMap
  import opened Bits
  import opened UserHeap
  import opened UserHeapRuns

  /** A block header: size, flags, and the next block of its list (0 for none). */
  datatype Node = Node(size: nat, flags: Flags, next: nat)

  type Nodes = map<nat, Node>

  /** The blocks met from `head` on are those of `list`, in order. */
  predicate Chain(nodes: Nodes, head: nat, list: seq<nat>)
    decreases |list|
  {
    if list == [] then head == 0
    else head == list[0] && head != 0 && head in nodes && Chain(nodes, nodes[head].next, list[1..])
  }

  lemma {:induction false} ChainSame(nodes: Nodes, nodes': Nodes, head: nat, list: seq<nat>)
    requires Chain(nodes, head, list)
    requires forall i: nat :: i < |list| && list[i] in nodes ==>
               list[i] in nodes' && nodes'[list[i]].next == nodes[list[i]].next
    ensures Chain(nodes', head, list)
    decreases |list|
  {
    if list != [] {
      forall i: nat | i < |list[1..]| ensures list[1..][i] == list[i + 1] {}
      ChainSame(nodes, nodes', nodes[head].next, list[1..]);
    }
  }

  /** Where a walk is after `k` blocks. */
  function Walk(nodes: Nodes, head: nat, list: seq<nat>, k: nat): nat
    requires Chain(nodes, head, list) && k <= |list|
    decreases k
  {
    if k == 0 then head else Walk(nodes, nodes[head].next, list[1..], k - 1)
  }

  lemma {:induction false} WalkAt(nodes: Nodes, head: nat, list: seq<nat>, k: nat)
    requires Chain(nodes, head, list) && k <= |list|
    ensures Walk(nodes, head, list, k) == if k == |list| then 0 else list[k]
    ensures k < |list| ==> list[k] in nodes && list[k] != 0 && Walk(nodes, head, list, k + 1) == nodes[list[k]].next
    decreases k
  {
    if k > 0 { WalkAt(nodes, nodes[head].next, list[1..], k - 1); }
  }

  /** The list without its block `k` is what remains when the block before it, or
      the head, is made to point past it. */
  lemma {:induction false} ChainUnlink(nodes: Nodes, nodes': Nodes, head: nat, list: seq<nat>, k: nat)
    requires Chain(nodes, head, list) && k < |list| && list[k] in nodes
    requires forall i: nat, j: nat :: i < j < |list| ==> list[i] != list[j]
    requires forall i: nat :: i < |list| && i != k && i + 1 != k && list[i] in nodes ==>
               list[i] in nodes' && nodes'[list[i]].next == nodes[list[i]].next
    requires k > 0 ==> list[k - 1] in nodes' && nodes'[list[k - 1]].next == nodes[list[k]].next
    ensures Chain(nodes', if k == 0 then nodes[list[k]].next else head, list[..k] + list[k + 1..])
    decreases k
  {
    if k == 0 {
      assert list[..0] + list[1..] == list[1..];
      ChainSame(nodes, nodes', nodes[head].next, list[1..]);
    } else {
      var rest := list[1..];
      assert rest[k - 1] == list[k] && (k > 1 ==> rest[k - 2] == list[k - 1]);
      ChainUnlink(nodes, nodes', nodes[head].next, rest, k - 1);
      var out := list[..k] + list[k + 1..];
      assert out[1..] == rest[..k - 1] + rest[k..];
    }
  }

  /** The heads lead through the headers to the lists. */
  predicate Links(nodes: Nodes, heads: seq<nat>, lists: seq<seq<nat>>, largeHead: nat, large: seq<nat>)
    requires |heads| == CLASSES == |lists|
  {
    (forall ci: nat :: ci < CLASSES ==> Chain(nodes, heads[ci], lists[ci])) && Chain(nodes, largeHead, large)
  }

  ghost function HeadersOf(nodes: Nodes): map<nat, Header> {
    map a | a in nodes :: Header(nodes[a].size, nodes[a].flags)
  }

  /** From `h`, `free` of `ptr` gives `t`. */
  ghost predicate FreedPtr(h: Heap, ptr: nat, t: Heap) {
    if ptr == 0 then t == h
    else |h.lists| == CLASSES && ptr >= HEADER && Live(h, ptr - HEADER) && t == Release(h, ptr - HEADER)
  }

  /** From `h`, `malloc` gives `t` and pointer `r`. */
  ghost predicate AllocIs(h: Heap, size: nat, grant: bool, t: Heap, r: nat) {
    Inv(h) && (t, r) == Pointing(Alloc(h, size, grant))
  }

  /** From `h`, resizing the block behind `ptr` gives `t` and pointer `r`. */
  ghost predicate ResizeIs(h: Heap, ptr: nat, size: nat, grant: bool, t: Heap, r: nat) {
    Inv(h) && ptr >= HEADER && Live(h, ptr - HEADER) && size < WORD && ResizeSafe(h, ptr - HEADER, size, grant)
    && (t, r) == Pointing(Resize(h, ptr - HEADER, size, grant))
  }

  /** A safe call of `malloc`, and one of `realloc` for the block behind `ptr`. */
  ghost predicate MayAlloc(h: Heap, size: nat, grant: bool) {
    Inv(h) && size < WORD && Safe(h, size, grant)
  }

  ghost predicate MayResize(h: Heap, ptr: nat, size: nat, grant: bool) {
    && Inv(h) && 0 < size < WORD && ptr >= HEADER && Live(h, ptr - HEADER)
    && ResizeSafe(h, ptr - HEADER, size, grant)
  }

  /** The pointer for a block, 0 for none. */
  function Pointing(r: (Heap, nat)): (Heap, nat) {
    (r.0, if r.1 == 0 then 0 else r.1 + HEADER)
  }

  class Allocator {
    const start: nat
    const heads: array<nat>
    var largeHead: nat
    var nodes: Nodes
    var bytes: map<nat, bv8>
    var brk: nat
    var mmapNext: nat
    ghost var lists: seq<seq<nat>>
    ghost var large: seq<nat>

    ghost function Now(): Heap
      reads this
    {
      Heap(start, brk, mmapNext, HeadersOf(nodes), lists, large, bytes)
    }

    ghost predicate Linked()
      reads this, heads
    {
      heads.Length == CLASSES == |lists| && Links(nodes, heads[..], lists, largeHead, large)
    }

    ghost predicate Valid()
      reads this, heads
    {
      Linked() && Inv(Now())
    }

    constructor (start: nat)
      requires 0 < start <= MMAP_BASE
      ensures Valid() && fresh(heads) && Now() == Empty(start, MMAP_BASE)
    {
      this.start := start;
      heads := new nat[CLASSES](_ => 0);
      largeHead, nodes, bytes, brk, mmapNext := 0, map[], map[], start, MMAP_BASE;
      lists, large := seq(CLASSES, _ => []), [];
      new;
      EmptyInv(start, MMAP_BASE);
      assert Now() == Empty(start, MMAP_BASE);
    }

    /** `mem_class_index`. */
    static method ClassIndex(size: nat) returns (ci: nat)
      ensures ci == ClassOf(size)
    {
      var bs := 16;
      ci := 0;
      while ci < CLASSES
        invariant ci <= CLASSES && bs == ClassSize(ci) && ClassOf(size) == ClassFrom(size, ci)
      {
        if bs >= size { return; }
        bs := 2 * bs;
        ci := ci + 1;
      }
    }

    /** One round of the carving loop. */
    method PushNewBlock(ci: nat, a: nat, bs: nat)
      requires Linked() && ci < CLASSES && a !in nodes && a != 0 && bs == ClassSize(ci)
      modifies this, heads
      ensures Linked() && Now() == PushNew(old(Now()), ci, a)
    {
      ghost var before := nodes;
      nodes := nodes[a := Node(bs, Free, heads[ci])];
      forall cj: nat | cj < CLASSES ensures Chain(nodes, heads[cj], lists[cj]) {
        ChainSame(before, nodes, heads[cj], lists[cj]);
      }
      ChainSame(before, nodes, largeHead, large);
      assert ([a] + lists[ci])[1..] == lists[ci];
      heads[ci] := a;
      lists := lists[ci := [a] + lists[ci]];
      assert HeadersOf(nodes) == HeadersOf(before)[a := Header(bs, Free)];
    }

    /** `mem_arena_extend_small`. */
    method ExtendSmall(ci: nat, grant: bool)
      requires Valid() && ci < CLASSES && (grant ==> BelowMappings(Now(), brk + 8 * ClassSize(ci)))
      modifies this, heads
      ensures Valid() && Now() == Extend(old(Now()), ci, grant)
    {
      hide Inv, InvTo, Tiled, ListsOk, ClassSize, Chain, Links;
      ghost var h := Now();
      ExtendKeeps(h, ci, grant);
      var bs := SizeForClass(ci);
      var chunk := bs * 8;
      if !grant { return; }
      var base := brk;
      brk := brk + chunk;
      ghost var g := Now();
      var i := 0;
      while i < 8
        invariant i <= 8 && Linked() && Now() == Carve(g, ci, base, i)
      {
        CarveNext(h, g, ci, i);
        PushNewBlock(ci, base + i * bs, bs);
        i := i + 1;
      }
    }

    /** `mem_alloc_small`, giving the block. */
    method TakeSmall(ci: nat, grant: bool) returns (b: nat)
      requires Valid() && ci < CLASSES && SmallSafe(Now(), ci, grant)
      modifies this, heads
      ensures Valid() && (Now(), b) == AllocSmall(old(Now()), ci, grant)
    {
      hide Inv, InvTo, Tiled, ListsOk, ClassSize, Chain, Links, Extend, PopSmall;
      AllocSmallGives(Now(), ci, grant);
      GivesInv(Now(), ClassSize(ci), AllocSmall(Now(), ci, grant).0, AllocSmall(Now(), ci, grant).1);
      HeadNull(nodes, heads[..], lists, largeHead, large, ci);
      if heads[ci] == 0 {
        ExtendSmall(ci, grant);
      }
      HeadNull(nodes, heads[..], lists, largeHead, large, ci);
      if heads[ci] == 0 {
        return 0;
      }
      b := heads[ci];
      PopHead(ci);
    }

    /** The head block of list `ci` is unlinked and marked used. */
    method PopHead(ci: nat)
      requires Valid() && ci < CLASSES && heads[ci] != 0
      modifies this, heads
      ensures old(lists[ci] != [] && lists[ci][0] in Now().blocks)
      ensures Linked() && Now() == PopSmall(old(Now()), ci)
    {
      hide Inv, InvTo, Tiled, ListsOk, ClassSize;
      InvLists(Now());
      HeadOf(Now(), ci);
      ghost var before := nodes;
      var b := heads[ci];
      heads[ci] := nodes[b].next;
      nodes := nodes[b := nodes[b].(flags := Used)];
      lists := lists[ci := lists[ci][1..]];
      forall cj: nat | cj < CLASSES ensures Chain(nodes, heads[cj], lists[cj]) {
        ChainSame(before, nodes, heads[cj], lists[cj]);
      }
      ChainSame(before, nodes, largeHead, large);
      assert HeadersOf(nodes) == HeadersOf(before)[b := Header(before[b].size, Used)];
    }

    /** `mem_alloc_large`; `prev` is the block whose link is looked at, 0 for the
        list head itself. */
    method TakeLargeBlock(total: nat, grant: bool) returns (b: nat)
      requires Valid() && LARGEST < total < WORD
      requires forall j: nat :: j < |large| ==> large[j] in Now().blocks
      requires LargeSafe(Now(), total, grant)
      modifies this, heads
      ensures Valid() && (Now(), b) == AllocLarge(old(Now()), total, grant)
    {
      hide Inv, InvTo, Tiled, ListsOk, Chain, Links, TakeLarge;
      ghost var h := Now();
      AllocLargeGives(h, total, grant);
      GivesInv(h, total, AllocLarge(h, total, grant).0, AllocLarge(h, total, grant).1);
      LargeChain(nodes, heads[..], lists, largeHead, large);
      LargeListed(h);
      var prev := 0;
      var cur := largeHead;
      ghost var k := 0;
      while cur != 0
        invariant k <= |large| && Now() == h && Chain(nodes, largeHead, large)
                  && Links(nodes, heads[..], lists, largeHead, large)
        invariant cur == Walk(nodes, largeHead, large, k)
        invariant k > 0 ==> prev == large[k - 1]
        invariant (k == 0) == (prev == 0)
        invariant FirstFit(h, total, 0) == FirstFit(h, total, k)
        decreases |large| - k
      {
        WalkAt(nodes, largeHead, large, k);
        if nodes[cur].size >= total {
          Unlink(prev, cur, k);
          return cur;
        }
        prev := cur;
        cur := nodes[cur].next;
        k := k + 1;
      }
      WalkAt(nodes, largeHead, large, k);
      if !grant { return 0; }
      b := brk;
      brk := brk + total;
      TopFresh(h, b);
      AddNode(b, total, Used);
    }

    method Unlink(prev: nat, cur: nat, ghost k: nat)
      requires Linked() && Inv(Now()) && k < |large| && cur == large[k] && cur in nodes
      requires if k == 0 then prev == 0 else prev != 0 && prev == large[k - 1]
      modifies this
      ensures old(large[k] in Now().blocks) && Linked() && Now() == TakeLarge(old(Now()), k)
    {
      hide Inv, InvTo, Tiled, ListsOk, Chain, Links;
      InvLists(Now());
      LargeParts(Now());
      ghost var before := nodes;
      LargeChain(nodes, heads[..], lists, largeHead, large);
      if prev == 0 {
        largeHead := nodes[cur].next;
      } else {
        WalkAt(nodes, largeHead, large, k - 1);
        nodes := nodes[prev := nodes[prev].(next := nodes[cur].next)];
      }
      nodes := nodes[cur := nodes[cur].(flags := Used)];
      LinksUnlink(old(Now()), before, nodes, heads[..], old(largeHead), k);
      large := large[..k] + large[k + 1..];
      assert HeadersOf(nodes) == HeadersOf(before)[cur := Header(before[cur].size, Used)];
    }

    /** A block that is in no list. */
    method AddNode(b: nat, size: nat, flags: Flags)
      requires Linked() && b !in nodes
      modifies this`nodes
      ensures Linked() && Now() == old(Now()).(blocks := old(Now()).blocks[b := Header(size, flags)])
    {
      ghost var before := nodes;
      nodes := nodes[b := Node(size, flags, 0)];
      forall cj: nat | cj < CLASSES ensures Chain(nodes, heads[cj], lists[cj]) {
        ChainSame(before, nodes, heads[cj], lists[cj]);
      }
      ChainSame(before, nodes, largeHead, large);
      assert HeadersOf(nodes) == HeadersOf(before)[b := Header(size, flags)];
    }

    /** A mapping of its own. */
    method TakeMapped(total: nat, grant: bool) returns (b: nat)
      requires Valid() && HEADER <= total < WORD && MappedSafe(Now(), total, grant)
      modifies this
      ensures Valid() && (Now(), b) == AllocMapped(old(Now()), total, grant)
    {
      hide Inv, InvTo, Tiled, ListsOk, Chain, Links;
      ghost var h := Now();
      AllocMappedGives(h, total, grant);
      GivesInv(h, total, AllocMapped(h, total, grant).0, AllocMapped(h, total, grant).1);
      if !(grant && mmapNext + PageUp(total) <= WORD) { return 0; }
      b := mmapNext;
      MappedFresh(h, total);
      mmapNext := mmapNext + PageUp(total);
      AddNode(b, total, Mmap);
    }

    /** `malloc`: a pointer, or 0. */
    method Malloc(size: nat, grant: bool) returns (ptr: nat)
      requires Valid() && MayAlloc(Now(), size, grant)
      modifies this, heads
      ensures Valid() && AllocIs(old(Now()), size, grant, Now(), ptr)
    {
      hide Inv, InvTo, Tiled, ListsOk, Chain, Links, AllocSmall, AllocLarge, AllocMapped, ClassOf, ClassSize,
           SmallSafe, LargeSafe, MappedSafe;
      InvLists(Now());
      var asked := if size == 0 then 1 else size;
      var total := Wrap(asked + HEADER);
      ClassExact(total);
      var b;
      if total >= MMAP_THRESHOLD {
        b := TakeMapped(total, grant);
      } else {
        var ci := ClassIndex(total);
        if ci < CLASSES {
          b := TakeSmall(ci, grant);
        } else {
          b := TakeLargeBlock(total, grant);
        }
      }
      ptr := if b == 0 then 0 else b + HEADER;
    }

    /** `free`; nothing happens for a null pointer. */
    method FreePtr(ptr: nat)
      requires Valid() && (ptr == 0 || (ptr >= HEADER && Live(Now(), ptr - HEADER)))
      modifies this, heads
      ensures Valid() && FreedPtr(old(Now()), ptr, Now())
    {
      hide Inv, InvTo, Tiled, ListsOk, Links, Chain, Release;
      InvLists(Now());
      if ptr == 0 { return; }
      var b := ptr - HEADER;
      ReleaseKeeps(Now(), b);
      FreedParts(Now(), b, Release(Now(), b));
      if nodes[b].flags == Mmap {
        Unmap(b);
      } else {
        PushBlock(b);
      }
    }

    method Unmap(b: nat)
      requires Linked() && Inv(Now()) && Live(Now(), b) && nodes[b].flags == Mmap
      modifies this
      ensures Linked() && |old(lists)| == CLASSES && Now() == Release(old(Now()), b)
    {
      hide Inv, InvTo, Tiled, ListsOk, Links, Chain;
      ghost var h := Now();
      ghost var before := nodes;
      InvLists(h);
      UnlistedLive(h, b);
      nodes := map a | a in nodes && a != b :: nodes[a];
      RelinkRest(before, nodes, heads[..], h, largeHead, b);
      assert Now().blocks == Release(h, b).blocks;
    }

    /** A block of the arena goes back to the list its size names. */
    method PushBlock(b: nat)
      requires Linked() && Inv(Now()) && Live(Now(), b) && nodes[b].flags == Used
      modifies this, heads
      ensures Linked() && |old(lists)| == CLASSES && Now() == Release(old(Now()), b)
    {
      hide Inv, InvTo, Tiled, ListsOk, Links, Chain, ClassOf;
      ghost var h := Now();
      ghost var before := nodes;
      InvLists(h);
      UnlistedLive(h, b);
      SizeOf(h, b);
      nodes := nodes[b := nodes[b].(flags := Free)];
      var ci := ClassIndex(nodes[b].size);
      if ci < CLASSES {
        nodes := nodes[b := nodes[b].(next := heads[ci])];
        RelinkRest(before, nodes, heads[..], h, largeHead, b);
        PushedHead(nodes, heads[..], h, largeHead, b, ci);
        heads[ci] := b;
        lists := lists[ci := [b] + lists[ci]];
      } else {
        nodes := nodes[b := nodes[b].(next := largeHead)];
        RelinkRest(before, nodes, heads[..], h, largeHead, b);
        PushedLarge(nodes, heads[..], h, largeHead, b);
        largeHead := b;
        large := [b] + large;
      }
      assert HeadersOf(nodes) == HeadersOf(before)[b := Header(before[b].size, Free)];
    }

    /** `calloc`. */
    method Calloc(count: nat, size: nat, grant: bool) returns (ptr: nat)
      requires Valid() && MayAlloc(Now(), Wrap(count * size), grant)
      modifies this, heads
      ensures Valid()
      ensures var (t, b) := ClearedAlloc(old(Now()), count, size, grant);
        && Now() == t && ptr == if b == 0 then 0 else b + HEADER
    {
      hide Inv, InvTo, Tiled, ListsOk, Links, Chain, Alloc, Safe;
      var n := Wrap(count * size);
      ptr := Malloc(n, grant);
      if ptr == 0 { return; }
      ghost var h := Now();
      ZeroLoop(ptr, n);
      ZeroKeeps(h, ptr, n);
    }

    /** `realloc`: no pointer asks for a new block, size 0 frees. */
    method ReallocPtr(ptr: nat, size: nat, grant: bool) returns (r: nat)
      requires Valid() && (ptr == 0 || (ptr >= HEADER && Live(Now(), ptr - HEADER)))
      requires ptr == 0 ==> MayAlloc(Now(), size, grant)
      requires ptr != 0 && size != 0 ==> MayResize(Now(), ptr, size, grant)
      modifies this, heads
      ensures Valid()
      ensures ptr == 0 ==> AllocIs(old(Now()), size, grant, Now(), r)
      ensures ptr != 0 && size == 0 ==> FreedPtr(old(Now()), ptr, Now()) && r == 0
      ensures ptr != 0 && size != 0 ==> ResizeIs(old(Now()), ptr, size, grant, Now(), r)
    {
      hide Inv, InvTo, Tiled, ListsOk, Links, Chain, Alloc, Release, Resize, MayAlloc, MayResize;
      InvLists(Now());
      if ptr == 0 { r := Malloc(size, grant); return; }
      if size == 0 { FreePtr(ptr); return 0; }
      r := Grow(ptr, size, grant);
    }

    /** The rest of `realloc`: in place if it fits, otherwise moved. */
    method Grow(ptr: nat, size: nat, grant: bool) returns (r: nat)
      requires Valid() && MayResize(Now(), ptr, size, grant)
      modifies this, heads
      ensures Valid() && ResizeIs(old(Now()), ptr, size, grant, Now(), r)
    {
      hide Inv, InvTo, Tiled, ListsOk, Links, Chain, Alloc, Release, CopyBytes, ClassOf, Safe, ResizeSafe, ResizeIs,
           MayResize;
      ghost var h := Now();
      MayParts(h, ptr, size, grant);
      var b := ptr - HEADER;
      GrowIs(h, b, size, grant);
      var usable := nodes[b].size - HEADER;
      if usable >= size { return ptr; }
      r := Malloc(size, grant);
      if r == 0 { return; }
      CopyLoop(r, ptr, usable);
      FreePtr(ptr);
    }

    /** The bytes at `dst` become those at `src`. */
    method CopyLoop(dst: nat, src: nat, n: nat)
      modifies this`bytes
      ensures Now() == CopyBytes(old(Now()), dst, src, n)
    {
      for i := 0 to n
        invariant Now() == CopyBytes(old(Now()), dst, src, i)
      {
        bytes := bytes[dst + i := if src + i in bytes then bytes[src + i] else 0];
      }
    }

    method ZeroLoop(dst: nat, n: nat)
      modifies this`bytes
      ensures Now() == ZeroBytes(old(Now()), dst, n)
    {
      for i := 0 to n
        invariant Now() == ZeroBytes(old(Now()), dst, i)
      {
        bytes := bytes[dst + i := 0];
      }
    }

    static method SizeForClass(ci: nat) returns (bs: nat)
      ensures bs == ClassSize(ci)
    {
      bs := 16;
      for k := 0 to ci
        invariant bs == ClassSize(k)
      {
        bs := 2 * bs;
      }
    }
  }

  lemma MayParts(h: Heap, ptr: nat, size: nat, grant: bool)
    requires MayResize(h, ptr, size, grant)
    ensures Inv(h) && 0 < size < WORD && ptr >= HEADER && Live(h, ptr - HEADER)
            && ResizeSafe(h, ptr - HEADER, size, grant)
  {
    hide Inv, ResizeSafe;
  }

  /** The three ends of `realloc` of a block. */
  lemma GrowIs(h: Heap, b: nat, size: nat, grant: bool)
    requires Inv(h) && Live(h, b) && 0 < size < WORD && ResizeSafe(h, b, size, grant)
    ensures h.blocks[b].size >= HEADER
    ensures Usable(h, b) >= size ==> ResizeIs(h, b + HEADER, size, grant, h, b + HEADER)
    ensures Usable(h, b) < size ==>
              var (g, nb) := Alloc(h, size, grant);
              && Safe(h, size, grant)
              && (nb == 0 ==> ResizeIs(h, b + HEADER, size, grant, g, 0))
              && (nb != 0 ==>
                    var c := CopyBytes(g, nb + HEADER, b + HEADER, Usable(h, b));
                    && Inv(c) && Live(c, b) && |c.lists| == CLASSES
                    && ResizeIs(h, b + HEADER, size, grant, Release(c, b), nb + HEADER))
  {
    hide Inv, Alloc, Release, CopyBytes, Safe;
    SizeOf(h, b);
    if Usable(h, b) < size {
      GivesKeeps(h, size, grant, b);
      var (g, nb) := Alloc(h, size, grant);
      CopyKeeps(g, nb + HEADER, b + HEADER, Usable(h, b));
    }
  }

  /** The next block of the chunk is at a new address. */
  lemma CarveNext(h: Heap, g: Heap, ci: nat, i: nat)
    requires Inv(h) && ci < CLASSES && g == h.(brk := h.brk + 8 * ClassSize(ci)) && BelowMappings(g, g.brk) && i < 8
    ensures |g.lists| == CLASSES && h.brk > 0
    ensures h.brk + i * ClassSize(ci) !in Carve(g, ci, h.brk, i).blocks
  {
    hide Tiled, ListsOk, ClassOf, ClassSize, Carve;
    ListCount(h);
    BreakMoves(h, g, h.brk);
    var bs := ClassSize(ci);
    assert i * bs + bs == (i + 1) * bs <= 8 * bs;
    CarveKeeps(g, h.brk, ci, i);
    ClassExact(bs);
    var c := Carve(g, ci, h.brk, i);
    var top := h.brk + i * bs;
    AddAtTop(c, top, Header(bs, Free), c.(blocks := c.blocks[top := Header(bs, Free)]));
  }

  lemma HeadNull(nodes: Nodes, heads: seq<nat>, lists: seq<seq<nat>>, largeHead: nat, large: seq<nat>, ci: nat)
    requires |heads| == CLASSES == |lists| && ci < CLASSES
    ensures Links(nodes, heads, lists, largeHead, large) ==>
              (heads[ci] == 0 <==> lists[ci] == []) && (lists[ci] != [] ==> heads[ci] == lists[ci][0])
  {
  }

  lemma LargeParts(h: Heap)
    requires ListsOk(h)
    ensures forall i: nat :: i < |h.large| ==> h.large[i] in h.blocks
    ensures forall i: nat, j: nat :: i < j < |h.large| ==> h.large[i] != h.large[j]
  {
  }

  lemma LargeChain(nodes: Nodes, heads: seq<nat>, lists: seq<seq<nat>>, largeHead: nat, large: seq<nat>)
    requires |heads| == CLASSES == |lists| && Links(nodes, heads, lists, largeHead, large)
    ensures Chain(nodes, largeHead, large)
  {
  }

  lemma TopFresh(h: Heap, top: nat)
    requires Inv(h) && top == h.brk && BelowMappings(h, top + 1)
    ensures top !in h.blocks
  {
    hide ClassOf, ClassSize, ListsOk;
    forall a | a in h.blocks ensures a != top {
      assert Sizes(h, a) && Placed(h, a, top);
    }
  }

  /** Block `k` of the large list marked used and passed by. */
  lemma LinksUnlink(h: Heap, nodes: Nodes, nodes': Nodes, heads: seq<nat>, largeHead: nat, k: nat)
    requires ListsOk(h) && |heads| == CLASSES == |h.lists| && Links(nodes, heads, h.lists, largeHead, h.large)
    requires k < |h.large| && h.large[k] in nodes && (k > 0 ==> h.large[k - 1] in nodes)
    requires var cur := h.large[k];
      var mid := if k == 0 then nodes else nodes[h.large[k - 1] := nodes[h.large[k - 1]].(next := nodes[cur].next)];
      cur in mid && nodes' == mid[cur := mid[cur].(flags := Used)]
    ensures var head := if k == 0 then nodes[h.large[k]].next else largeHead;
      Links(nodes', heads, h.lists, head, h.large[..k] + h.large[k + 1..])
  {
    hide ListsOk, Chain;
    LargeParts(h);
    LargeApart(h);
    ChainUnlink(nodes, nodes', largeHead, h.large, k);
    forall ci: nat | ci < CLASSES ensures Chain(nodes', heads[ci], h.lists[ci]) {
      ChainSame(nodes, nodes', heads[ci], h.lists[ci]);
    }
  }

  /** No block is in a size-class list and in the large list. */
  lemma LargeApart(h: Heap)
    requires ListsOk(h)
    ensures forall ci: nat, i: nat, j: nat :: ci < CLASSES && i < |h.lists[ci]| && j < |h.large| ==>
              h.lists[ci][i] != h.large[j]
  {
    hide ClassSize, ClassOf;
    ClassSizes();
  }

  lemma MappedFresh(h: Heap, total: nat)
    requires Inv(h) && h.brk <= h.mmapNext
    ensures h.mmapNext !in h.blocks
  {
    hide ClassOf, ClassSize, ListsOk;
    forall a | a in h.blocks ensures a != h.mmapNext {
      assert Sizes(h, a) && Placed(h, a, h.brk);
    }
  }

  /** A block in use is in no list. */
  lemma UnlistedLive(h: Heap, b: nat)
    requires ListsOk(h) && Live(h, b)
    ensures forall ci: nat, i: nat :: ci < CLASSES && i < |h.lists[ci]| ==> h.lists[ci][i] != b
    ensures forall i: nat :: i < |h.large| ==> h.large[i] != b
  {
    hide ClassSize, ClassOf;
  }

  /** The lists do not notice a change to a block that is in none of them. */
  lemma RelinkRest(nodes: Nodes, nodes': Nodes, heads: seq<nat>, h: Heap, largeHead: nat, b: nat)
    requires |heads| == CLASSES == |h.lists| && Links(nodes, heads, h.lists, largeHead, h.large)
    requires forall ci: nat, i: nat :: ci < CLASSES && i < |h.lists[ci]| ==> h.lists[ci][i] != b
    requires forall i: nat :: i < |h.large| ==> h.large[i] != b
    requires forall a :: a in nodes && a != b ==> a in nodes' && nodes'[a].next == nodes[a].next
    ensures Links(nodes', heads, h.lists, largeHead, h.large)
  {
    hide Chain;
    forall ci: nat | ci < CLASSES ensures Chain(nodes', heads[ci], h.lists[ci]) {
      ChainSame(nodes, nodes', heads[ci], h.lists[ci]);
    }
    ChainSame(nodes, nodes', largeHead, h.large);
  }

  lemma PushedHead(nodes: Nodes, heads: seq<nat>, h: Heap, largeHead: nat, b: nat, ci: nat)
    requires |heads| == CLASSES == |h.lists| && Links(nodes, heads, h.lists, largeHead, h.large)
    requires ci < CLASSES && b in nodes && b != 0 && nodes[b].next == heads[ci]
    ensures Links(nodes, heads[ci := b], h.lists[ci := [b] + h.lists[ci]], largeHead, h.large)
  {
    assert ([b] + h.lists[ci])[1..] == h.lists[ci];
  }

  lemma PushedLarge(nodes: Nodes, heads: seq<nat>, h: Heap, largeHead: nat, b: nat)
    requires |heads| == CLASSES == |h.lists| && Links(nodes, heads, h.lists, largeHead, h.large)
    requires b in nodes && b != 0 && nodes[b].next == largeHead
    ensures Links(nodes, heads, h.lists, b, [b] + h.large)
  {
    assert ([b] + h.large)[1..] == h.large;
  }

  lemma ZeroKeeps(h: Heap, dst: nat, n: nat)
    requires Inv(h)
    ensures Inv(ZeroBytes(h, dst, n))
  {
    hide Tiled, ListsOk;
    BreakMoves(h, ZeroBytes(h, dst, n), h.brk);
  }
}
