/** `kheap_alloc` and `kheap_free` as functions on the buddy heap, and what holds
    over every run of them. */
module BuddyRuns {
  import opened Bits
  import opened BuddyBlocks

  // ----- __order_for_size

  /** The 32-bit variable `evaluated_order_bytes` after `n` doublings. */
  function ThresholdAfter(n: nat): (r: nat)
    ensures r < WORD
  {
    if n == 0 then 16 else Wrap(2 * ThresholdAfter(n - 1))
  }

  lemma Doubled(x: nat)
    ensures x < 0x8000_0000 ==> Wrap(2 * x) == 2 * x
    ensures x == 0x8000_0000 ==> Wrap(2 * x) == 0
  {
  }

  lemma SizeOf0()
    ensures SizeOf(0) == 16
  {
  }

  lemma SizeOf27()
    ensures SizeOf(27) == 0x8000_0000
  {
    Pow2Add(13, 14);
    assert Pow2(13) == 8192 && Pow2(14) == 16384;
  }

  lemma SizeBelow27(n: nat)
    requires n < 27
    ensures 2 * SizeOf(n) <= 0x8000_0000
  {
    SizeOf27();
    Pow2Monotone(n + 1, 27);
  }

  lemma {:induction false} ThresholdIs(n: nat)
    ensures n <= 27 ==> ThresholdAfter(n) == SizeOf(n) <= 0x8000_0000
    ensures n > 27 ==> ThresholdAfter(n) == 0
  {
    hide SizeOf, Wrap;
    SizeOf27();
    if n == 0 {
      SizeOf0();
    } else {
      ThresholdIs(n - 1);
      Doubled(ThresholdAfter(n - 1));
      if n <= 27 {
        SizeBelow27(n - 1);
        SizeDoubles(n - 1);
      }
    }
  }

  /** The size loop ends exactly for sizes below 2^31: above, the doubled
      threshold wraps to zero and the guard holds for ever. */
  lemma OrderLoopEnds(size: nat)
    requires size < WORD
    ensures (exists n: nat :: size < ThresholdAfter(n)) <==> size < 0x8000_0000
  {
    if size < 0x8000_0000 {
      ThresholdIs(27);
      SizeOf27();
    } else {
      forall n: nat ensures size >= ThresholdAfter(n) {
        ThresholdIs(n);
      }
    }
  }

  function OrderFrom(size: nat, k: nat): (r: nat)
    requires size < 0x8000_0000 && k <= 27
    requires k == 0 || SizeOf(k - 1) <= size
    ensures r <= 27 && size < SizeOf(r)
    ensures r == 0 || SizeOf(r) <= 2 * size
    decreases 27 - k
  {
    if size < SizeOf(k) then k
    else
      assert k < 27 by { ThresholdIs(k); SizeOf27(); }
      OrderFrom(size, k + 1)
  }

  /** The smallest order whose block holds the header byte and `size` bytes. */
  function OrderFor(size: nat): (r: nat)
    requires size < 0x8000_0000
    ensures size + 1 <= SizeOf(r) && SizeOf(r) <= (if size < 8 then 16 else 2 * size)
  {
    OrderFrom(size, 0)
  }

  // ----- the two operations

  function FirstAvailable(h: Heap, k: nat): (r: nat)
    requires |h.free| == ORDERS
    ensures r >= k
    ensures r < ORDERS ==> h.free[r] != []
    ensures forall i :: k <= i < r && i < ORDERS ==> h.free[i] == []
    decreases ORDERS - k
  {
    if k >= ORDERS || h.free[k] != [] then k else FirstAvailable(h, k + 1)
  }

  function SplitTo(h: Heap, o: nat, k: nat): (t: Heap)
    requires Ranged(h) && o in h.live && k <= h.live[o]
    ensures Ranged(t)
    decreases h.live[o]
  {
    if h.live[o] == k then h else SplitTo(Split(h, o), o, k)
  }

  datatype Outcome = OutOfMemory | Allocated(heap: Heap, offset: nat)

  function Alloc(h: Heap, size: nat): (r: Outcome)
    requires Ranged(h) && size < 0x8000_0000
    ensures r.Allocated? ==> Ranged(r.heap)
  {
    var k := OrderFor(size);
    var f := FirstAvailable(h, k);
    if f >= ORDERS then OutOfMemory
    else
      var o := h.free[f][0];
      Allocated(SplitTo(Take(h, f), o, k), o)
  }

  predicate BuddyFree(h: Heap, o: nat)
    requires o in h.live
  {
    h.live[o] < TOP && IsFree(h, BuddyOf(o, h.live[o]), h.live[o])
  }

  function Free(h: Heap, o: nat): (t: Heap)
    requires Ranged(h) && o in h.live
    ensures Ranged(t)
    decreases ORDERS - h.live[o]
  {
    if BuddyFree(h, o) then Free(Merge(h, o), Lower(o, h.live[o])) else Put(h, o)
  }

  const INITIAL: Heap := Heap(seq(TOP, _ => []) + [[0]], map[])

  // ----- every step keeps the tiling and the canonical form

  lemma InitialKeeps()
    ensures Inv(INITIAL)
  {
    var h := INITIAL;
    SizeOf18();
    assert Index(0, TOP, 0);
    forall o: nat, k: nat | IsBlock(h, o, k) ensures o == 0 && k == TOP {
    }
    forall x: nat | x < HEAP_BYTES ensures Covered(h, x) {
      assert h.free[TOP] == [0];
      assert Covers(h, 0, TOP, x);
    }
  }

  lemma SizeOf18()
    ensures SizeOf(TOP) == HEAP_BYTES
  {
    Pow2Add(9, 9);
    assert Pow2(9) == 512;
  }

  lemma {:induction false} SplitToKeeps(h: Heap, o: nat, k: nat)
    requires Inv(h) && o in h.live && k <= h.live[o]
    ensures Inv(SplitTo(h, o, k))
    ensures SplitTo(h, o, k).live == h.live[o := k]
    decreases h.live[o]
  {
    if h.live[o] > k {
      SplitKeeps(h, o);
      SplitToKeeps(Split(h, o), o, k);
    }
  }

  /** Allocation fails exactly when no free block is large enough; otherwise it
      hands out one new block, of at least `size` bytes behind its header and of
      at most max(16, 2 * size) bytes, and every block handed out before stays. */
  lemma AllocKeeps(h: Heap, size: nat)
    requires Inv(h) && size < 0x8000_0000
    ensures Alloc(h, size).OutOfMemory? <==> forall o: nat, k: nat :: IsFree(h, o, k) ==> SizeOf(k) <= size
    ensures Alloc(h, size).Allocated? ==>
              var t, o := Alloc(h, size).heap, Alloc(h, size).offset;
              && Inv(t) && o !in h.live && t.live == h.live[o := OrderFor(size)]
              && o + 1 + size <= o + SizeOf(t.live[o]) <= HEAP_BYTES
              && SizeOf(t.live[o]) <= (if size < 8 then 16 else 2 * size)
  {
    hide SizeOf, Shaped, Disjoint, Full, Canonical, SplitTo;
    InvRanged(h);
    var k := OrderFor(size);
    var f := FirstAvailable(h, k);
    if f < ORDERS {
      var o := h.free[f][0];
      assert IsFree(h, o, f);
      OrderSizes(k, f);
      TakeKeeps(h, f);
      SplitToKeeps(Take(h, f), o, k);
      var t := SplitTo(Take(h, f), o, k);
      assert t.live == h.live[o := k];
      InvRanged(t);
      assert IsBlock(t, o, k);
    } else {
      forall o: nat, i: nat | IsFree(h, o, i) ensures SizeOf(i) <= size {
        OrderMinimal(size, i);
      }
    }
  }

  lemma InvRanged(h: Heap)
    requires Inv(h)
    ensures Ranged(h)
    ensures forall o: nat, k: nat :: IsFree(h, o, k) ==> o !in h.live
    ensures forall o: nat, k: nat :: IsBlock(h, o, k) ==> o + SizeOf(k) <= HEAP_BYTES
  {
    hide SizeOf, HasIndex, Disjoint, Full, Canonical;
    forall o: nat, k: nat | IsBlock(h, o, k) ensures o + SizeOf(k) <= HEAP_BYTES {
      assert Aligned(o, k);
    }
  }

  lemma OrderSizes(k: nat, f: nat)
    requires k <= f
    ensures SizeOf(k) <= SizeOf(f)
  {
    Pow2Monotone(k, f);
  }

  lemma OrderMinimal(size: nat, i: nat)
    requires size < 0x8000_0000 && i < OrderFor(size)
    ensures SizeOf(i) <= size
  {
    OrderMinimalFrom(size, 0, i);
  }

  lemma {:induction false} OrderMinimalFrom(size: nat, k: nat, i: nat)
    requires size < 0x8000_0000 && k <= 27 && (k == 0 || SizeOf(k - 1) <= size)
    requires k <= i < OrderFrom(size, k)
    ensures SizeOf(i) <= size
    decreases 27 - k
  {
    if i > k {
      ThresholdIs(k);
      SizeOf27();
      OrderMinimalFrom(size, k + 1, i);
    }
  }

  lemma {:induction false} SplitToLists(h: Heap, o: nat, k: nat, i: nat)
    requires Ranged(h) && o in h.live && k <= h.live[o] && i < ORDERS
    ensures SplitTo(h, o, k).free[i] == (if k <= i < h.live[o] then [o + SizeOf(i)] else []) + h.free[i]
    decreases h.live[o]
  {
    hide SizeOf;
    if h.live[o] > k {
      SplitToLists(Split(h, o), o, k, i);
    }
  }

  /** Where the block comes from: the head of the first list from the order on that has
      one; each list passed over gains the upper half of one split, the others stay. */
  lemma AllocTakes(h: Heap, size: nat) returns (j: nat)
    requires Ranged(h) && size < 0x8000_0000 && Alloc(h, size).Allocated?
    ensures OrderFor(size) <= j < ORDERS && h.free[j] != [] && Alloc(h, size).offset == h.free[j][0]
    ensures forall i :: OrderFor(size) <= i < j ==> h.free[i] == []
    ensures forall i: nat :: i < ORDERS ==>
              ListAfter(h, Alloc(h, size).heap, Alloc(h, size).offset, OrderFor(size), j, i)
  {
    hide OrderFor, SplitTo;
    var k := OrderFor(size);
    j := FirstAvailable(h, k);
    forall i: nat | i < ORDERS ensures ListAfter(h, Alloc(h, size).heap, h.free[j][0], k, j, i) {
      ListTaken(h, k, j, i);
    }
  }

  /** List `i` after a block of order `j` at `o` was taken and split down to order `k`. */
  predicate ListAfter(h: Heap, t: Heap, o: nat, k: nat, j: nat, i: nat)
    requires |h.free| == ORDERS == |t.free| && i < ORDERS
  {
    t.free[i] == if i == j && h.free[i] != [] then h.free[i][1..]
                 else if k <= i < j then [o + 16 * Pow2(i)]
                 else h.free[i]
  }

  lemma ListTaken(h: Heap, k: nat, j: nat, i: nat)
    requires Ranged(h) && k <= j < ORDERS && i < ORDERS && h.free[j] != []
    requires k <= i < j ==> h.free[i] == []
    ensures var o := h.free[j][0]; ListAfter(h, SplitTo(Take(h, j), o, k), o, k, j, i)
  {
    hide SplitTo, Pow2;
    SplitToLists(Take(h, j), h.free[j][0], k, i);
  }

  /** Freeing a block removes that block and no other, and keeps tiling and
      canonical form through every merge. */
  lemma {:induction false} FreeKeeps(h: Heap, o: nat)
    requires Inv(h) && o in h.live
    ensures Inv(Free(h, o)) && Free(h, o).live == h.live - {o}
    decreases ORDERS - h.live[o]
  {
    if BuddyFree(h, o) {
      MergeKeeps(h, o);
      FreeKeeps(Merge(h, o), Lower(o, h.live[o]));
    } else {
      PutKeeps(h, o);
    }
  }

  // ----- freeing undoes allocating

  lemma MergeUndoesSplit(h: Heap, o: nat)
    requires Inv(h) && o in h.live && h.live[o] > 0
    ensures BuddyFree(Split(h, o), o) && Lower(o, h.live[o] - 1) == o
    ensures Merge(Split(h, o), o) == h
  {
    hide SizeOf, BuddyOf, Aligned, Disjoint, Full, Canonical;
    var j := h.live[o] - 1;
    var t := Split(h, o);
    LiveAligned(h, o);
    Halves(o, j);
    assert t.free[j][0] == BuddyOf(o, j);
    assert Without(t.free[j], BuddyOf(o, j)) == h.free[j];
    assert Merge(t, o).free == h.free;
    assert Merge(t, o).live == h.live;
  }

  lemma {:induction false} FreeUndoesSplits(h: Heap, o: nat, k: nat)
    requires Inv(h) && o in h.live && k <= h.live[o]
    ensures o in SplitTo(h, o, k).live
    ensures Free(SplitTo(h, o, k), o) == Free(h, o)
    decreases h.live[o]
  {
    SplitToKeeps(h, o, k);
    if h.live[o] > k {
      SplitKeeps(h, o);
      FreeUndoesSplits(Split(h, o), o, k);
      MergeUndoesSplit(h, o);
    }
  }

  /** Freeing the block just allocated gives back the very same heap: the same
      blocks in the same lists in the same order. */
  lemma FreeUndoesAlloc(h: Heap, size: nat)
    requires Inv(h) && size < 0x8000_0000 && Alloc(h, size).Allocated?
    ensures var r := Alloc(h, size);
      Inv(r.heap) && r.offset in r.heap.live && Free(r.heap, r.offset) == h
  {
    AllocKeeps(h, size);
    var k := OrderFor(size);
    var f := FirstAvailable(h, k);
    var o := h.free[f][0];
    assert IsFree(h, o, f);
    var t := Take(h, f);
    TakeKeeps(h, f);
    FreeUndoesSplits(t, o, k);
    assert !BuddyFree(t, o) by {
      assert forall x: nat, i: nat :: IsFree(t, x, i) ==> IsFree(h, x, i);
    }
    assert Put(t, o).free[f] == h.free[f];
    assert Put(t, o).free == h.free;
    assert Put(t, o).live == h.live;
  }

  // ----- whole runs

  datatype Op = Malloc(size: nat) | Release(offset: nat)
  datatype RunResult = Stopped | Running(heap: Heap)

  function Step(h: Heap, op: Op): (r: RunResult)
    requires Ranged(h)
    ensures r.Running? ==> Ranged(r.heap)
  {
    match op
    case Malloc(size) =>
      if size >= 0x8000_0000 then Stopped
      else
        var r := Alloc(h, size);
        if r.OutOfMemory? then Stopped else Running(r.heap)
    case Release(o) =>
      if o in h.live then Running(Free(h, o)) else Stopped
  }

  /** `t` is reached from `h` by some run of calls that neither panic nor free
      what is not handed out. */
  ghost predicate Reaches(h: Heap, ops: seq<Op>, t: Heap)
    requires Ranged(h)
    decreases |ops|
  {
    if ops == [] then t == h
    else
      var r := Step(h, ops[0]);
      r.Running? && Reaches(r.heap, ops[1..], t)
  }

  lemma StepKeeps(h: Heap, op: Op)
    requires Inv(h) && Step(h, op).Running?
    ensures Inv(Step(h, op).heap)
  {
    match op
    case Malloc(size) => AllocKeeps(h, size);
    case Release(o) => FreeKeeps(h, o);
  }

  lemma ZerosRepeat(l: seq<nat>)
    requires forall i :: 0 <= i < |l| ==> l[i] == 0
    ensures NoDup(l) ==> |l| <= 1
  {
    if |l| > 1 {
      assert l[0] == l[1];
    }
  }

  /** A heap without handed-out blocks is the initial heap, because the buddy of a smallest free block would have to
      be covered by a block that cannot be there. */
  lemma NothingLiveIsInitial(h: Heap)
    requires Inv(h) && h.live == map[]
    ensures h == INITIAL
  {
    forall k: nat | k < TOP ensures h.free[k] == [] {
      NoSmallBlock(h, k);
    }
    assert Covered(h, 0);
    var o: nat, k: nat :| Covers(h, o, k, 0);
    assert k == TOP;
    assert o == 0;
    SizeOf18();
    var l := h.free[TOP];
    forall i | 0 <= i < |l| ensures l[i] == 0 {
      assert IsBlock(h, l[i], TOP);
    }
    ZerosRepeat(l);
    assert 0 in l;
    assert l == [0];
    assert h.free == INITIAL.free;
  }

  lemma {:induction false} NoSmallBlock(h: Heap, k: nat)
    requires Inv(h) && h.live == map[] && k < TOP
    ensures h.free[k] == []
  {
    forall i: nat | i < k ensures h.free[i] == [] {
      NoSmallBlock(h, i);
    }
    if h.free[k] != [] {
      var o := h.free[k][0];
      assert IsFree(h, o, k);
      SiblingFree(h, o, k);
    }
  }

  lemma BuddyAligned(o: nat, k: nat)
    requires Aligned(o, k) && k < TOP
    ensures Aligned(BuddyOf(o, k), k) && Aligned(Lower(o, k), k + 1)
    ensures Lower(o, k) <= BuddyOf(o, k) < Lower(o, k) + SizeOf(k + 1)
    ensures Lower(o, k) <= o && o + SizeOf(k) <= Lower(o, k) + SizeOf(k + 1)
  {
    BuddySymmetric(o, k);
    SizeDoubles(k);
    var q: nat :| Index(Lower(o, k), k + 1, q);
    HalfIndex(Lower(o, k), k, q);
    Inside(Lower(o, k), k + 1);
  }

  /** With nothing handed out and no smaller block, the buddy of a free block is free. */
  lemma SiblingFree(h: Heap, o: nat, k: nat)
    requires Shaped(h) && Disjoint(h) && Full(h) && h.live == map[] && k < TOP
    requires forall i: nat :: i < k ==> h.free[i] == []
    requires IsFree(h, o, k)
    ensures IsFree(h, BuddyOf(o, k), k)
  {
    var b := BuddyOf(o, k);
    var m := Lower(o, k);
    BuddyAligned(o, k);
    assert Covered(h, b);
    var p: nat, j: nat :| Covers(h, p, j, b);
    assert IsBlock(h, o, k) && IsBlock(h, p, j);
    assert j >= k;
    if j > k {
      Laminar(m, k + 1, p, j);
    } else {
      Laminar(b, k, p, j);
    }
  }

  /** A block whose offset lies in the heap and is a multiple of a size that
      divides the heap ends in the heap. */
  lemma Inside(m: nat, k: nat)
    requires HasIndex(m, k) && k <= TOP && m < HEAP_BYTES
    ensures m + SizeOf(k) <= HEAP_BYTES
  {
    SizeFactor(k, TOP);
    SizeOf18();
    var q: nat :| Index(m, k, q);
    if q >= Pow2(TOP - k) {
      if q > Pow2(TOP - k) { MulLess(Pow2(TOP - k), q, SizeOf(k)); }
    } else {
      MulLess(q, Pow2(TOP - k), SizeOf(k));
    }
  }

  lemma {:induction false} RunKeeps(h: Heap, ops: seq<Op>, t: Heap)
    requires Inv(h) && Reaches(h, ops, t)
    ensures Inv(t)
    decreases |ops|
  {
    if ops != [] {
      StepKeeps(h, ops[0]);
      RunKeeps(Step(h, ops[0]).heap, ops[1..], t);
    }
  }

  /** In every heap reached from the initial one the free and the handed-out
      blocks tile the 4 MB without overlap or gap and no two buddies are both
      free; and once nothing is handed out, whatever the order of the frees was,
      the heap is again the one block of order 18. */
  lemma EveryRunTiles(ops: seq<Op>, t: Heap)
    requires Reaches(INITIAL, ops, t)
    ensures Disjoint(t) && Full(t) && Canonical(t)
    ensures forall o: nat, k: nat :: IsBlock(t, o, k) ==> Aligned(o, k)
    ensures t.live == map[] ==> t == INITIAL
  {
    InitialKeeps();
    RunKeeps(INITIAL, ops, t);
    if t.live == map[] {
      NothingLiveIsInitial(t);
    }
  }
}
