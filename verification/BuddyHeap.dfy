/** The kernel heap over raw memory: free lists threaded through the free blocks
    and the order kept in a byte of the block it describes. */
module BuddyHeap {
  import opened Bits
  import opened BuddyBlocks
  import opened BuddyRuns
  import opened Sequences

  const UNITS: nat := 262144

  datatype Allocation = Panic | Pointer(addr: nat)

  // ----- lists threaded through memory

  /** The link that names the `i`-th block of a list; null past its end. */
  function LinkTo(start: nat, l: seq<nat>, i: nat): nat {
    if i < |l| then start + l[i] else 0
  }

  /** From `head`, the words of memory spell exactly the list `l`. */
  ghost predicate Spells(start: nat, head: nat, cells: seq<nat>, l: seq<nat>) {
    && head == LinkTo(start, l, 0)
    && forall i :: 0 <= i < |l| ==> l[i] / 16 < |cells| && cells[l[i] / 16] == LinkTo(start, l, i + 1)
  }

  ghost predicate Linked(start: nat, heads: seq<nat>, cells: seq<nat>, h: Heap) {
    |heads| == ORDERS && |h.free| == ORDERS &&
    forall k :: 0 <= k < ORDERS ==> Spells(start, heads[k], cells, h.free[k])
  }

  /** The header byte of every block handed out, but `hole`, holds its order. */
  ghost predicate Headed(cells: seq<nat>, h: Heap, hole: int) {
    forall o :: o in h.live && o != hole ==> o / 16 < |cells| && cells[o / 16] % 256 == h.live[o]
  }

  ghost predicate Avoids(l: seq<nat>, u: nat) {
    forall i :: 0 <= i < |l| ==> l[i] / 16 != u
  }

  lemma SpellsAt(start: nat, head: nat, cells: seq<nat>, l: seq<nat>, i: nat)
    requires Spells(start, head, cells, l)
    ensures head == LinkTo(start, l, 0)
    ensures i < |l| ==> l[i] / 16 < |cells| && cells[l[i] / 16] == LinkTo(start, l, i + 1)
  {
  }

  lemma SpellsFrame(start: nat, head: nat, cells: seq<nat>, l: seq<nat>, u: nat, v: nat)
    requires Spells(start, head, cells, l) && u < |cells| && Avoids(l, u)
    ensures Spells(start, head, cells[u := v], l)
  {
  }

  lemma SpellsPush(start: nat, head: nat, cells: seq<nat>, l: seq<nat>, o: nat)
    requires Spells(start, head, cells, l) && o / 16 < |cells| && Avoids(l, o / 16)
    ensures Spells(start, start + o, cells[o / 16 := head], [o] + l)
  {
    var l', c := [o] + l, cells[o / 16 := head];
    forall i | 0 <= i < |l'| ensures l'[i] / 16 < |c| && c[l'[i] / 16] == LinkTo(start, l', i + 1) {
      if i > 0 { assert l'[i] == l[i - 1]; }
    }
  }

  lemma SpellsPop(start: nat, head: nat, cells: seq<nat>, l: seq<nat>)
    requires Spells(start, head, cells, l) && l != []
    ensures Spells(start, cells[l[0] / 16], cells, l[1..])
  {
  }

  /** Redirecting the link before position `i` around it drops that position. */
  lemma SpellsUnlink(start: nat, head: nat, cells: seq<nat>, l: seq<nat>, i: nat)
    requires Spells(start, head, cells, l) && 0 < i < |l|
    requires forall a :: 0 <= a < |l| && a != i - 1 ==> l[a] / 16 != l[i - 1] / 16
    ensures Spells(start, head, cells[l[i - 1] / 16 := cells[l[i] / 16]], Dropped(l, i))
  {
    hide LinkTo, Dropped;
    var l', c := Dropped(l, i), cells[l[i - 1] / 16 := cells[l[i] / 16]];
    LinkDropped(start, l, i, 0);
    forall a: nat | a < |l'| ensures l'[a] / 16 < |c| && c[l'[a] / 16] == LinkTo(start, l', a + 1) {
      LinkDropped(start, l, i, a + 1);
      assert l'[a] == l[if a < i then a else a + 1];
    }
  }

  lemma LinkDropped(start: nat, l: seq<nat>, i: nat, b: nat)
    requires i < |l|
    ensures LinkTo(start, Dropped(l, i), b) == LinkTo(start, l, if b < i then b else b + 1)
  {
  }

  lemma {:induction false} WithoutAt(l: seq<nat>, x: nat, i: nat)
    requires i < |l| && l[i] == x
    requires forall a :: 0 <= a < i ==> l[a] != x
    ensures Without(l, x) == Dropped(l, i)
  {
    if i == 0 {
      assert Dropped(l, 0) == l[1..];
    } else {
      var t := l[1..];
      WithoutAt(t, x, i - 1);
      assert Dropped(l, i) == [l[0]] + Dropped(t, i - 1);
    }
  }

  // ----- blocks and the words they own

  lemma AlignedUnit(o: nat, k: nat)
    requires Aligned(o, k)
    ensures o % 16 == 0 && o / 16 < UNITS
  {
    var q: nat :| Index(o, k, q);
    MulSwap(q, 16, Pow2(k));
  }

  lemma DistinctUnits(h: Heap, o: nat, k: nat, p: nat, j: nat)
    requires Shaped(h) && Disjoint(h) && IsBlock(h, o, k) && IsBlock(h, p, j)
    ensures o / 16 < UNITS && (o != p ==> o / 16 != p / 16)
  {
    AlignedUnit(o, k);
    AlignedUnit(p, j);
  }

  /** A block owns the word at its start: no free list passes through it but the
      one that holds the block. */
  lemma BlockAvoided(h: Heap, o: nat, k: nat, j: nat)
    requires Shaped(h) && Disjoint(h) && IsBlock(h, o, k) && j < ORDERS
    ensures o !in h.free[j] ==> Avoids(h.free[j], o / 16)
  {
    forall i | 0 <= i < |h.free[j]| && o !in h.free[j] ensures h.free[j][i] / 16 != o / 16 {
      assert IsFree(h, h.free[j][i], j);
      DistinctUnits(h, o, k, h.free[j][i], j);
    }
  }

  lemma ListUnits(h: Heap, k: nat)
    requires Shaped(h) && Disjoint(h) && k < ORDERS
    ensures forall a, b :: 0 <= a < b < |h.free[k]| ==> h.free[k][a] / 16 != h.free[k][b] / 16
  {
    var l := h.free[k];
    forall a, b | 0 <= a < b < |l| ensures l[a] / 16 != l[b] / 16 {
      assert IsFree(h, l[a], k) && IsFree(h, l[b], k);
      DistinctUnits(h, l[a], k, l[b], k);
    }
  }

  lemma LiveDistinct(h: Heap, o: nat, k: nat)
    requires Shaped(h) && Disjoint(h) && IsBlock(h, o, k)
    ensures forall p :: p in h.live && p != o ==> p / 16 != o / 16
  {
    forall p | p in h.live && p != o ensures p / 16 != o / 16 {
      assert IsLive(h, p, h.live[p]);
      DistinctUnits(h, p, h.live[p], o, k);
    }
  }

  // ----- memory after each elementary step

  lemma LinkedTake(start: nat, heads: seq<nat>, cells: seq<nat>, h: Heap, k: nat)
    requires Inv(h) && Linked(start, heads, cells, h) && Headed(cells, h, -1)
    requires k < ORDERS && h.free[k] != []
    ensures heads[k] == start + h.free[k][0] && h.free[k][0] / 16 < |cells|
    ensures Linked(start, heads[k := cells[h.free[k][0] / 16]], cells, Take(h, k))
    ensures Headed(cells, Take(h, k), h.free[k][0])
  {
    SpellsPop(start, heads[k], cells, h.free[k]);
  }

  lemma SplitAvoids(h: Heap, o: nat, k: nat)
    requires Inv(h) && o in h.live && 0 < h.live[o] && k < ORDERS
    ensures Avoids(h.free[k], (o + SizeOf(h.live[o] - 1)) / 16)
  {
    var j := h.live[o] - 1;
    var u := o + SizeOf(j);
    var t := Split(h, o);
    SplitKeeps(h, o);
    assert IsFree(t, u, j);
    forall i | 0 <= i < |h.free[k]| ensures h.free[k][i] / 16 != u / 16 {
      var x := h.free[k][i];
      assert IsFree(h, x, k);
      assert IsFree(t, x, k) by { if k == j { assert t.free[j] == [u] + h.free[j]; } }
      assert x != u by {
        assert IsLive(h, o, j + 1);
        SizeDoubles(j);
        assert Apart(x, k, o, j + 1);
      }
      DistinctUnits(t, x, k, u, j);
    }
  }

  lemma HeadedSplit(cells: seq<nat>, h: Heap, o: nat, v: nat)
    requires Inv(h) && Headed(cells, h, o) && |cells| == UNITS && o in h.live && 0 < h.live[o]
    ensures var u := o + SizeOf(h.live[o] - 1);
      u / 16 < UNITS && Headed(cells[u / 16 := v], Split(h, o), o)
  {
    var j := h.live[o] - 1;
    var u := o + SizeOf(j);
    var t := Split(h, o);
    SplitKeeps(h, o);
    assert t.free[j][0] == u;
    assert IsFree(t, u, j);
    LiveDistinct(t, u, j);
    DistinctUnits(t, u, j, u, j);
  }

  /** Writing the old head into a block's first word and the block's address into
      the head pushes the block. */
  lemma LinkedPush(start: nat, heads: seq<nat>, cells: seq<nat>, h: Heap, j: nat, u: nat, t: Heap)
    requires Linked(start, heads, cells, h) && j < ORDERS && u / 16 < |cells|
    requires forall k :: 0 <= k < ORDERS ==> Avoids(h.free[k], u / 16)
    requires t.free == h.free[j := [u] + h.free[j]]
    ensures Linked(start, heads[j := start + u], cells[u / 16 := heads[j]], t)
  {
    SpellsPush(start, heads[j], cells, h.free[j], u);
    forall k | 0 <= k < ORDERS && k != j
      ensures Spells(start, heads[k], cells[u / 16 := heads[j]], h.free[k])
    {
      SpellsFrame(start, heads[k], cells, h.free[k], u / 16, heads[j]);
    }
  }

  lemma LinkedSplit(start: nat, heads: seq<nat>, cells: seq<nat>, h: Heap, o: nat, j: nat, u: nat)
    requires Inv(h) && Linked(start, heads, cells, h) && |cells| == UNITS
    requires o in h.live && h.live[o] == j + 1 && u == o + SizeOf(j) && u / 16 < UNITS
    ensures Linked(start, heads[j := start + u], cells[u / 16 := heads[j]], Split(h, o))
  {
    assert Ranged(h);
    hide Inv, Linked;
    forall k | 0 <= k < ORDERS ensures Avoids(h.free[k], u / 16) {
      SplitAvoids(h, o, k);
    }
    LinkedPush(start, heads, cells, h, j, u, Split(h, o));
  }

  lemma LinkedPut(start: nat, heads: seq<nat>, cells: seq<nat>, h: Heap, o: nat)
    requires Inv(h) && Linked(start, heads, cells, h) && Headed(cells, h, o) && |cells| == UNITS
    requires o in h.live
    ensures var k := h.live[o];
      && o / 16 < |cells|
      && Linked(start, heads[k := start + o], cells[o / 16 := heads[k]], Put(h, o))
      && Headed(cells[o / 16 := heads[k]], Put(h, o), -1)
  {
    var k := h.live[o];
    var t := Put(h, o);
    assert IsLive(h, o, k);
    LiveDistinct(h, o, k);
    DistinctUnits(h, o, k, o, k);
    forall i | 0 <= i < ORDERS ensures Avoids(h.free[i], o / 16) {
      assert !IsFree(h, o, i);
      BlockAvoided(h, o, k, i);
    }
    LinkedPush(start, heads, cells, h, k, o, t);
  }

  lemma HeadedMerge(cells: seq<nat>, h: Heap, o: nat)
    requires Ranged(h) && Headed(cells, h, o) && o in h.live && h.live[o] < TOP
    ensures Headed(cells, Merge(h, o), Lower(o, h.live[o]))
  {
  }

  /** The buddy sits at position `i` of its list; the word or head that links to
      it now links past it. */
  lemma LinkedMergeHead(start: nat, heads: seq<nat>, cells: seq<nat>, h: Heap, o: nat)
    requires Inv(h) && Linked(start, heads, cells, h) && |cells| == UNITS
    requires o in h.live && h.live[o] < TOP && 0 < |h.free[h.live[o]]|
    requires h.free[h.live[o]][0] == BuddyOf(o, h.live[o])
    ensures var k := h.live[o]; var l := h.free[k];
      l[0] / 16 < |cells| && Linked(start, heads[k := cells[l[0] / 16]], cells, Merge(h, o))
  {
    var k := h.live[o];
    SpellsPop(start, heads[k], cells, h.free[k]);
  }

  lemma LinkedMergeInner(start: nat, heads: seq<nat>, cells: seq<nat>, h: Heap, o: nat, i: nat)
    requires Inv(h) && Linked(start, heads, cells, h) && |cells| == UNITS
    requires o in h.live && h.live[o] < TOP && 0 < i < |h.free[h.live[o]]|
    requires h.free[h.live[o]][i] == BuddyOf(o, h.live[o])
    ensures var l := h.free[h.live[o]];
      && l[i - 1] / 16 < |cells| && l[i] / 16 < |cells|
      && Linked(start, heads, cells[l[i - 1] / 16 := cells[l[i] / 16]], Merge(h, o))
  {
    var k := h.live[o];
    var l := h.free[k];
    WithoutAt(l, l[i], i);
    ListUnits(h, k);
    var p := l[i - 1];
    SpellsUnlink(start, heads[k], cells, l, i);
    assert IsFree(h, p, k);
    forall j | 0 <= j < ORDERS && j != k
      ensures Spells(start, heads[j], cells[p / 16 := cells[l[i] / 16]], h.free[j])
    {
      OneOrder(h, p, k, j);
      BlockAvoided(h, p, k, j);
      SpellsFrame(start, heads[j], cells, h.free[j], p / 16, cells[l[i] / 16]);
    }
  }

  lemma HeadedFreeWord(cells: seq<nat>, h: Heap, o: nat, k: nat, hole: int, v: nat)
    requires Shaped(h) && Disjoint(h) && IsFree(h, o, k) && Headed(cells, h, hole) && |cells| == UNITS
    ensures o / 16 < UNITS && Headed(cells[o / 16 := v], h, hole)
  {
    LiveDistinct(h, o, k);
    DistinctUnits(h, o, k, o, k);
  }

  // ----- memory as a whole

  /** Memory represents the heap `h`; the block at `hole`, if any, is held by a
      call under way and its header byte is not written yet. */
  ghost predicate Memory(start: nat, heads: seq<nat>, cells: seq<nat>, h: Heap, hole: int) {
    && 0 < start && start + HEAP_BYTES <= WORD
    && |heads| == ORDERS && |cells| == UNITS
    && Inv(h) && Linked(start, heads, cells, h) && Headed(cells, h, hole)
  }

  lemma LiveWord(start: nat, heads: seq<nat>, cells: seq<nat>, h: Heap, hole: int, o: nat)
    requires Memory(start, heads, cells, h, hole) && o in h.live
    ensures o / 16 < |cells| == UNITS && o < HEAP_BYTES && h.live[o] < ORDERS
    ensures o != hole ==> cells[o / 16] % 256 == h.live[o]
  {
    assert IsLive(h, o, h.live[o]);
    AlignedUnit(o, h.live[o]);
  }

  lemma FreeList(start: nat, heads: seq<nat>, cells: seq<nat>, h: Heap, hole: int, k: nat)
    requires Memory(start, heads, cells, h, hole) && k < ORDERS
    ensures |heads| == ORDERS && |cells| == UNITS && |h.free| == ORDERS && start > 0
    ensures Spells(start, heads[k], cells, h.free[k])
  {
  }

  lemma MemoryTake(start: nat, heads: seq<nat>, cells: seq<nat>, h: Heap, k: nat)
    requires Memory(start, heads, cells, h, -1) && k < ORDERS && h.free[k] != []
    ensures |heads| == ORDERS
    ensures var o := h.free[k][0];
      && heads[k] == start + o && o / 16 < UNITS && o in Take(h, k).live
      && Memory(start, heads[k := cells[o / 16]], cells, Take(h, k), o)
  {
    LinkedTake(start, heads, cells, h, k);
    TakeKeeps(h, k);
  }

  lemma MemorySplit(start: nat, heads: seq<nat>, cells: seq<nat>, h: Heap, o: nat, j: nat)
    requires Memory(start, heads, cells, h, o) && o in h.live && h.live[o] == j + 1
    ensures var u := o + SizeOf(j);
      u / 16 < UNITS &&
      Memory(start, heads[j := start + u], cells[u / 16 := heads[j]], Split(h, o), o)
  {
    HeadedSplit(cells, h, o, heads[j]);
    LinkedSplit(start, heads, cells, h, o, j, o + SizeOf(j));
    SplitKeeps(h, o);
  }

  lemma MemoryPut(start: nat, heads: seq<nat>, cells: seq<nat>, h: Heap, o: nat)
    requires Memory(start, heads, cells, h, o) && o in h.live && !BuddyFree(h, o)
    ensures var k := h.live[o];
      o / 16 < UNITS &&
      Memory(start, heads[k := start + o], cells[o / 16 := heads[k]], Put(h, o), -1)
  {
    LinkedPut(start, heads, cells, h, o);
    PutKeeps(h, o);
  }

  lemma MemoryMergeHead(start: nat, heads: seq<nat>, cells: seq<nat>, h: Heap, o: nat)
    requires Memory(start, heads, cells, h, o) && o in h.live && h.live[o] < TOP
    requires h.free[h.live[o]] != [] && h.free[h.live[o]][0] == BuddyOf(o, h.live[o])
    ensures var k := h.live[o]; var b := BuddyOf(o, k);
      b / 16 < UNITS && BuddyFree(h, o) &&
      Memory(start, heads[k := cells[b / 16]], cells, Merge(h, o), Lower(o, k))
  {
    LinkedMergeHead(start, heads, cells, h, o);
    HeadedMerge(cells, h, o);
    MergeKeeps(h, o);
  }

  lemma MemoryMergeInner(start: nat, heads: seq<nat>, cells: seq<nat>, h: Heap, o: nat, i: nat)
    requires Memory(start, heads, cells, h, o) && o in h.live && h.live[o] < TOP
    requires 0 < i < |h.free[h.live[o]]| && h.free[h.live[o]][i] == BuddyOf(o, h.live[o])
    ensures var k := h.live[o]; var b := BuddyOf(o, k); var p := h.free[k][i - 1];
      b / 16 < UNITS && p / 16 < UNITS && BuddyFree(h, o) &&
      Memory(start, heads, cells[p / 16 := cells[b / 16]], Merge(h, o), Lower(o, k))
  {
    var k := h.live[o];
    var p := h.free[k][i - 1];
    LinkedMergeInner(start, heads, cells, h, o, i);
    assert IsFree(h, p, k);
    HeadedFreeWord(cells, h, p, k, o, cells[h.free[k][i] / 16]);
    HeadedMerge(cells[p / 16 := cells[h.free[k][i] / 16]], h, o);
    MergeKeeps(h, o);
  }

  /** Whoever holds a block may write its first word: no list passes through it
      and no other block's header lies in it. */
  lemma MemoryOwnWord(start: nat, heads: seq<nat>, cells: seq<nat>, h: Heap, o: nat, v: nat)
    requires Memory(start, heads, cells, h, o) || Memory(start, heads, cells, h, -1)
    requires o in h.live
    ensures o / 16 < UNITS == |cells| && Memory(start, heads, cells[o / 16 := v], h, o)
    ensures v % 256 == h.live[o] ==> Memory(start, heads, cells[o / 16 := v], h, -1)
  {
    var k := h.live[o];
    assert IsLive(h, o, k);
    DistinctUnits(h, o, k, o, k);
    forall j | 0 <= j < ORDERS ensures Avoids(h.free[j], o / 16) {
      assert !IsFree(h, o, j);
      BlockAvoided(h, o, k, j);
    }
    LiveDistinct(h, o, k);
    LinkedFrame(start, heads, cells, h, o / 16, v);
  }

  /** No other block starts in a unit of memory inside a block. */
  lemma UnitInside(h: Heap, o: nat, k: nat, p: nat, j: nat, u: nat)
    requires Shaped(h) && Disjoint(h) && IsBlock(h, o, k) && IsBlock(h, p, j) && o < 16 * u < o + SizeOf(k)
    ensures u < UNITS && p / 16 != u
  {
    hide SizeOf, HasIndex;
    assert Aligned(o, k) && Aligned(p, j);
    AlignedUnit(p, j);
    assert p / 16 == u ==> p == 16 * u && !Apart(o, k, p, j);
  }

  /** Whoever holds a block may write every word of it but for the header byte. */
  lemma MemoryOwnUnit(start: nat, heads: seq<nat>, cells: seq<nat>, h: Heap, o: nat, u: nat, v: nat)
    requires Memory(start, heads, cells, h, -1) && o in h.live && o <= 16 * u < o + SizeOf(h.live[o])
    requires 16 * u == o ==> v % 256 == h.live[o]
    ensures u < UNITS == |cells| && Memory(start, heads, cells[u := v], h, -1)
  {
    var k := h.live[o];
    assert IsLive(h, o, k);
    if 16 * u == o {
      MemoryOwnWord(start, heads, cells, h, o, v);
    } else {
      UnitInside(h, o, k, o, k, u);
      forall j | 0 <= j < ORDERS ensures Avoids(h.free[j], u) {
        forall i | 0 <= i < |h.free[j]| ensures h.free[j][i] / 16 != u {
          assert IsFree(h, h.free[j][i], j);
          UnitInside(h, o, k, h.free[j][i], j, u);
        }
      }
      forall p | p in h.live ensures p / 16 != u {
        assert IsLive(h, p, h.live[p]);
        UnitInside(h, o, k, p, h.live[p], u);
      }
      LinkedFrame(start, heads, cells, h, u, v);
    }
  }

  /** A block handed out is taken back: from here on its header no longer counts. */
  lemma MemoryHold(start: nat, heads: seq<nat>, cells: seq<nat>, h: Heap, o: nat)
    requires Memory(start, heads, cells, h, -1) && o in h.live
    ensures Memory(start, heads, cells, h, o)
  {
  }

  lemma LinkedFrame(start: nat, heads: seq<nat>, cells: seq<nat>, h: Heap, u: nat, v: nat)
    requires Linked(start, heads, cells, h) && u < |cells|
    requires forall k :: 0 <= k < ORDERS ==> Avoids(h.free[k], u)
    ensures Linked(start, heads, cells[u := v], h)
  {
    forall k | 0 <= k < ORDERS ensures Spells(start, heads[k], cells[u := v], h.free[k]) {
      SpellsFrame(start, heads[k], cells, h.free[k], u, v);
    }
  }

  lemma LowByte(w: nat, b: nat)
    requires b < 256
    ensures w - w % 256 >= 0 && (w - w % 256 + b) % 256 == b
  {
  }

  // ----- the allocator

  lemma NextOrder(size: nat, k: nat)
    requires k <= 27 && SizeOf(k) <= size < 0x8000_0000
    ensures k < 27 && Wrap(SizeOf(k) * 2) == SizeOf(k + 1)
  {
    SizeOf27();
    if k < 27 {
      SizeBelow27(k);
    }
  }

  /** `__order_for_size`. For sizes of 2^31 and more the loop has no end, which
      is what `OrderLoopEnds` says; here the caller stays below. */
  method OrderForSize(size: nat) returns (order: nat)
    requires size < 0x8000_0000
    ensures order == OrderFor(size)
  {
    order := 0;
    var threshold := 16;
    while size >= threshold
      invariant order <= 27 && threshold == SizeOf(order)
      invariant order == 0 || SizeOf(order - 1) <= size
      invariant OrderFrom(size, order) == OrderFor(size)
      decreases 27 - order
    {
      NextOrder(size, order);
      threshold := Wrap(threshold * 2);
      order := order + 1;
    }
  }

  class KernelHeap {
    const start: nat
    const reportedSize: nat
    const heads: array<nat>
    const cells: array<nat>
    ghost var state: Heap

    ghost predicate Represents(hole: int)
      reads this, heads, cells
    {
      && heads != cells && heads.Length == ORDERS && cells.Length == UNITS
      && Ranged(state) && Memory(start, heads[..], cells[..], state, hole)
    }

    ghost predicate Valid()
      reads this, heads, cells
    {
      Represents(-1)
    }

    /** `kheap_init`: one free block of order 18 at the end of the kernel image,
        whatever the size of the usable memory behind it is. */
    constructor (kernelPhysEnd: nat, usableEnd: nat)
      requires kernelPhysEnd <= usableEnd && 0xC000_0000 + kernelPhysEnd + HEAP_BYTES <= WORD
      ensures Valid() && fresh(heads) && fresh(cells)
      ensures state == INITIAL && start == 0xC000_0000 + kernelPhysEnd
      ensures reportedSize == HEAP_BYTES <==> kernelPhysEnd + HEAP_BYTES <= usableEnd
    {
      start := 0xC000_0000 + kernelPhysEnd;
      reportedSize := if usableEnd - kernelPhysEnd < HEAP_BYTES then usableEnd - kernelPhysEnd else HEAP_BYTES;
      heads := new nat[ORDERS];
      cells := new nat[UNITS];
      state := INITIAL;
      new;
      for i := 0 to TOP
        modifies heads
        invariant forall k :: 0 <= k < i ==> heads[k] == 0
      {
        heads[i] := 0;
      }
      cells[0] := 0;
      heads[TOP] := start;
      InitialKeeps();
      assert forall k :: 0 <= k < TOP ==> state.free[k] == [];
      assert state.free[TOP] == [0];
    }

    method Alloc(size: nat) returns (r: Allocation)
      requires Valid() && size < 0x8000_0000
      modifies this`state, heads, cells
      ensures Valid()
      ensures r.Panic? <==> BuddyRuns.Alloc(old(state), size).OutOfMemory?
      ensures r.Panic? ==> state == old(state)
      ensures r.Pointer? ==>
                && start < r.addr <= start + HEAP_BYTES
                && BuddyRuns.Alloc(old(state), size) == Allocated(state, r.addr - 1 - start)
    {
      hide Memory, SplitTo;
      var order := OrderForSize(size);
      var first := FirstList(order);
      if first >= ORDERS {
        return Panic;
      }
      var ptr := Pop(first);
      SplitDown(ptr, first, order);
      LiveWord(start, heads[..], cells[..], state, ptr - start, ptr - start);
      WriteHeader(ptr, order);
      r := Pointer(ptr + 1);
    }

    /** The search for a list that is not empty. */
    method FirstList(order: nat) returns (first: nat)
      requires Valid()
      ensures first == FirstAvailable(state, order)
    {
      hide Memory;
      ghost var h: seq<nat>, c: seq<nat> := heads[..], cells[..];
      first := order;
      while first < ORDERS && heads[first] == 0
        invariant order <= first
        invariant FirstAvailable(state, order) == FirstAvailable(state, first)
        decreases ORDERS - first
        modifies {}
      {
        FreeList(start, h, c, state, -1, first);
        first := first + 1;
      }
      if first < ORDERS {
        FreeList(start, h, c, state, -1, first);
      }
    }

    method Pop(k: nat) returns (ptr: nat)
      requires Valid() && k < ORDERS && state.free[k] != []
      modifies this`state, heads
      ensures ptr == start + old(state.free[k][0])
      ensures state == Take(old(state), k) && Represents(ptr - start)
    {
      hide Memory;
      MemoryTake(start, heads[..], cells[..], state, k);
      ghost var before := heads[..];
      ptr := heads[k];
      heads[k] := cells[(ptr - start) / 16];
      assert heads[..] == before[k := cells[(ptr - start) / 16]];
      state := Take(state, k);
    }

    method SplitDown(ptr: nat, first: nat, order: nat)
      requires ptr >= start && Represents(ptr - start)
      requires order <= first < ORDERS && IsLive(state, ptr - start, first)
      modifies this`state, heads, cells
      ensures Represents(ptr - start) && ptr - start in state.live && state.live[ptr - start] == order
      ensures state == SplitTo(old(state), ptr - start, order)
    {
      hide Memory;
      var i := first;
      while i > order
        invariant order <= i <= first
        invariant Represents(ptr - start) && IsLive(state, ptr - start, i)
        invariant SplitTo(state, ptr - start, order) == SplitTo(old(state), ptr - start, order)
      {
        SplitOnce(ptr, i);
        i := i - 1;
      }
    }

    method SplitOnce(ptr: nat, i: nat)
      requires ptr >= start && Represents(ptr - start)
      requires 0 < i && IsLive(state, ptr - start, i)
      modifies this`state, heads, cells
      ensures Represents(ptr - start) && state == Split(old(state), ptr - start)
    {
      hide Memory;
      MemorySplit(start, heads[..], cells[..], state, ptr - start, i - 1);
      ghost var h: seq<nat>, c: seq<nat> := heads[..], cells[..];
      var buddy := ptr + SizeOf(i - 1);
      var unit := (buddy - start) / 16;
      cells[unit] := heads[i - 1];
      heads[i - 1] := buddy;
      assert heads[..] == h[i - 1 := buddy];
      assert cells[..] == c[unit := h[i - 1] as nat];
      state := Split(state, ptr - start);
    }

    /** The order goes into the low byte of the block's first word. */
    method WriteHeader(ptr: nat, order: nat)
      requires ptr >= start && Represents(ptr - start) && IsLive(state, ptr - start, order)
      modifies cells
      ensures Valid()
    {
      hide Memory;
      LiveWord(start, heads[..], cells[..], state, ptr - start, ptr - start);
      var u := (ptr - start) / 16;
      LowByte(cells[u], order);
      var w := cells[u] - cells[u] % 256 + order;
      MemoryOwnWord(start, heads[..], cells[..], state, ptr - start, w);
      ghost var c: seq<nat> := cells[..];
      cells[u] := w;
      assert cells[..] == c[u := w];
    }

    /** A write by the holder of a block to a word of it, at unit `u` of memory. The
        three bytes above the header are the holder's; the header byte is not. */
    method OwnerWrite(o: nat, u: nat, w: nat)
      requires Valid() && o in state.live && w < WORD && o <= 16 * u < o + SizeOf(state.live[o])
      requires u < cells.Length && (16 * u == o ==> w % 256 == cells[u] % 256)
      modifies cells
      ensures Valid() && cells[..] == old(cells[..])[u := w]
    {
      hide Memory, SizeOf;
      LiveWord(start, heads[..], cells[..], state, -1, o);
      MemoryOwnUnit(start, heads[..], cells[..], state, o, u, w);
      ghost var c: seq<nat> := cells[..];
      cells[u] := w;
      assert cells[..] == c[u := w];
    }

    method Free(ptr: nat)
      requires Valid()
      requires ptr != 0 ==> ptr > start && ptr - 1 - start in state.live
      modifies this`state, heads, cells
      ensures Valid()
      ensures state == if ptr == 0 then old(state) else BuddyRuns.Free(old(state), ptr - 1 - start)
    {
      hide Memory;
      if ptr == 0 {
        return;
      }
      var addr := ptr - 1;
      LiveWord(start, heads[..], cells[..], state, -1, addr - start);
      var order := cells[(addr - start) / 16] % 256;
      MemoryHold(start, heads[..], cells[..], state, addr - start);
      while order < TOP
        invariant start <= addr && Represents(addr - start)
        invariant IsLive(state, addr - start, order)
        invariant BuddyRuns.Free(state, addr - start) == BuddyRuns.Free(old(state), ptr - 1 - start)
        decreases TOP - order
      {
        var buddyOffset := Xor(addr - start, SizeOf(order));
        var found := Unlink(addr - start, order, start + buddyOffset);
        if !found {
          break;
        }
        if start + buddyOffset < addr {
          addr := start + buddyOffset;
        }
        order := order + 1;
      }
      Push(addr, order);
    }

    method Push(addr: nat, order: nat)
      requires addr >= start && Represents(addr - start) && IsLive(state, addr - start, order)
      requires !BuddyFree(state, addr - start)
      modifies this`state, heads, cells
      ensures Valid() && state == Put(old(state), addr - start)
    {
      hide Memory;
      MemoryPut(start, heads[..], cells[..], state, addr - start);
      ghost var h: seq<nat>, c: seq<nat> := heads[..], cells[..];
      cells[(addr - start) / 16] := heads[order];
      heads[order] := addr;
      assert heads[..] == h[order := addr];
      assert cells[..] == c[(addr - start) / 16 := h[order]];
      state := Put(state, addr - start);
    }

    /** Walks the free list of `order` to the buddy; `previous` is the block whose
        link names the block reached, null for the head of the list. */
    method Find(order: nat, buddy: nat, ghost o: int) returns (found: bool, previous: nat, ghost i: nat)
      requires Represents(o) && order < ORDERS && buddy >= start
      ensures start > 0 && (found <==> buddy - start in state.free[order])
      ensures found ==> (buddy - start) / 16 < UNITS
      ensures found ==> i < |state.free[order]| && state.free[order][i] == buddy - start
      ensures found ==> previous == if i == 0 then 0 else start + state.free[order][i - 1]
    {
      hide Memory, Spells;
      ghost var l := state.free[order];
      FreeList(start, heads[..], cells[..], state, o, order);
      SpellsAt(start, heads[order], cells[..], l, 0);
      var current := heads[order];
      found, previous, i := false, 0, 0;
      while current != 0
        invariant i <= |l| && current == LinkTo(start, l, i)
        invariant previous == if i == 0 then 0 else start + l[i - 1]
        invariant forall a :: 0 <= a < i ==> l[a] != buddy - start
        decreases |l| - i
      {
        SpellsAt(start, heads[order], cells[..], l, i);
        if current == buddy {
          found := true;
          return;
        }
        previous := current;
        current := cells[(current - start) / 16];
        i := i + 1;
      }
    }

    /** Takes the buddy out of the free list of `order` if it is there. */
    method Unlink(o: nat, order: nat, buddy: nat) returns (found: bool)
      requires Represents(o) && order < TOP && IsLive(state, o, order)
      requires buddy == start + BuddyOf(o, order)
      modifies this`state, heads, cells
      ensures found == old(BuddyFree(state, o))
      ensures !found ==> state == old(state) && Represents(o)
      ensures found ==> state == Merge(old(state), o) && Represents(Lower(o, order))
    {
      hide Memory, Spells, Merge, BuddyOf, Lower;
      ghost var h: seq<nat>, c: seq<nat> := heads[..], cells[..];
      LiveWord(start, h, c, state, o, o);
      var previous;
      ghost var i;
      found, previous, i := Find(order, buddy, o);
      if found {
        var next := cells[(buddy - start) / 16];
        if previous == 0 {
          MemoryMergeHead(start, h, c, state, o);
          heads[order] := next;
          assert heads[..] == h[order := next];
        } else {
          MemoryMergeInner(start, h, c, state, o, i);
          cells[(previous - start) / 16] := next;
          assert cells[..] == c[(previous - start) / 16 := next];
        }
        state := Merge(state, o);
      }
    }
  }
}
