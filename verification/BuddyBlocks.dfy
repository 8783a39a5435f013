/** The buddy heap as a set of blocks: what `kheap_alloc` and `kheap_free` do to
    the free lists and to the blocks that are handed out, without addresses. */
module BuddyBlocks {
  import opened Bits

  const ORDERS: nat := 19
  const TOP: nat := 18
  const HEAP_BYTES: nat := 4 * 1024 * 1024

  /** `free[k]` lists the offsets of the free blocks of order `k`, head first;
      `live` maps the offset of each block that is handed out to its order. */
  datatype Heap = Heap(free: seq<seq<nat>>, live: map<nat, nat>)

  function SizeOf(k: nat): (r: nat)
    ensures r >= 16
  {
    16 * Pow2(k)
  }

  function BuddyOf(o: nat, k: nat): nat {
    Xor(o, SizeOf(k))
  }

  /** The address of the block that `o` and its buddy make up. */
  function Lower(o: nat, k: nat): nat {
    if BuddyOf(o, k) < o then BuddyOf(o, k) else o
  }

  predicate IsFree(h: Heap, o: nat, k: nat) {
    k < ORDERS && k < |h.free| && o in h.free[k]
  }

  predicate IsLive(h: Heap, o: nat, k: nat) {
    k < ORDERS && o in h.live && h.live[o] == k
  }

  predicate IsBlock(h: Heap, o: nat, k: nat) {
    IsFree(h, o, k) || IsLive(h, o, k)
  }

  predicate Index(o: nat, k: nat, q: nat) {
    o == q * SizeOf(k)
  }

  ghost predicate HasIndex(o: nat, k: nat) {
    exists q: nat :: Index(o, k, q)
  }

  /** The offset is a multiple of the block's size, and the block ends in the heap. */
  ghost predicate Aligned(o: nat, k: nat) {
    HasIndex(o, k) && o + SizeOf(k) <= HEAP_BYTES
  }

  predicate Apart(o: nat, k: nat, p: nat, j: nat) {
    o + SizeOf(k) <= p || p + SizeOf(j) <= o
  }

  predicate NoDup(s: seq<nat>) {
    forall i, j :: 0 <= i < j < |s| ==> s[i] != s[j]
  }

  predicate Ranged(h: Heap) {
    |h.free| == ORDERS && forall o :: o in h.live ==> h.live[o] < ORDERS
  }

  ghost predicate Shaped(h: Heap) {
    && Ranged(h)
    && (forall k :: 0 <= k < ORDERS ==> NoDup(h.free[k]))
    && (forall o: nat, k: nat :: IsFree(h, o, k) ==> o !in h.live)
    && (forall o: nat, k: nat :: IsBlock(h, o, k) ==> Aligned(o, k))
  }

  /** No two blocks overlap. */
  ghost predicate Disjoint(h: Heap) {
    forall o: nat, k: nat, p: nat, j: nat :: IsBlock(h, o, k) && IsBlock(h, p, j) && (o != p || k != j)
        ==> Apart(o, k, p, j)
  }

  predicate Covers(h: Heap, o: nat, k: nat, x: nat) {
    IsBlock(h, o, k) && o <= x < o + SizeOf(k)
  }

  ghost predicate Covered(h: Heap, x: nat) {
    exists o: nat, k: nat :: Covers(h, o, k, x)
  }

  /** No gap: every byte of the heap belongs to a block. */
  ghost predicate Full(h: Heap) {
    forall x: nat :: x < HEAP_BYTES ==> Covered(h, x)
  }

  /** No two buddies are both free. */
  ghost predicate Canonical(h: Heap) {
    forall o: nat, k: nat :: IsFree(h, o, k) && k < TOP ==> !IsFree(h, BuddyOf(o, k), k)
  }

  ghost predicate Inv(h: Heap) {
    Shaped(h) && Disjoint(h) && Full(h) && Canonical(h)
  }

  // ----- elementary steps

  function Without(s: seq<nat>, x: nat): (r: seq<nat>)
    ensures NoDup(s) ==> NoDup(r) && x !in r
    ensures forall y :: y != x ==> (y in r <==> y in s)
    ensures forall y :: y in r ==> y in s
  {
    if s == [] then []
    else if s[0] == x then s[1..]
    else
      var r := Without(s[1..], x);
      assert NoDup(s) ==> NoDup(s[1..]) && s[0] !in s[1..];
      [s[0]] + r
  }

  /** The head of a free list is handed out. */
  function Take(h: Heap, k: nat): (t: Heap)
    requires Ranged(h) && k < ORDERS && h.free[k] != []
    ensures Ranged(t)
  {
    Heap(h.free[k := h.free[k][1..]], h.live[h.free[k][0] := k])
  }

  /** The upper half of the block handed out at `o` goes to the free list below. */
  function Split(h: Heap, o: nat): (t: Heap)
    requires Ranged(h) && o in h.live && 0 < h.live[o]
    ensures Ranged(t)
  {
    var j := h.live[o] - 1;
    Heap(h.free[j := [o + SizeOf(j)] + h.free[j]], h.live[o := j])
  }

  /** The block handed out at `o` absorbs its free buddy. */
  function Merge(h: Heap, o: nat): (t: Heap)
    requires Ranged(h) && o in h.live && h.live[o] < TOP
    ensures Ranged(t)
  {
    var k := h.live[o];
    Heap(h.free[k := Without(h.free[k], BuddyOf(o, k))], (h.live - {o})[Lower(o, k) := k + 1])
  }

  /** The block handed out at `o` goes back to its free list. */
  function Put(h: Heap, o: nat): (t: Heap)
    requires Ranged(h) && o in h.live
    ensures Ranged(t)
  {
    var k := h.live[o];
    Heap(h.free[k := [o] + h.free[k]], h.live - {o})
  }

  // ----- alignment

  lemma SizeDoubles(k: nat)
    ensures SizeOf(k + 1) == 2 * SizeOf(k)
  {
  }

  lemma SizeIsPow2(k: nat)
    ensures SizeOf(k) == Pow2(4 + k)
  {
    Pow2Add(4, k);
    assert Pow2(4) == 16;
  }

  lemma SizeFactor(k: nat, j: nat)
    requires k <= j
    ensures SizeOf(j) == Pow2(j - k) * SizeOf(k)
  {
    Pow2Add(j - k, k);
    MulSwap(16, Pow2(j - k), Pow2(k));
  }

  lemma MulSwap(a: int, b: int, c: int)
    ensures a * (b * c) == b * (a * c)
  {
  }

  lemma MulAssoc(a: int, b: int, c: int)
    ensures a * (b * c) == (a * b) * c
  {
  }

  lemma MulStep(q: int, s: int)
    ensures (q + 1) * s == q * s + s && (q - 1) * s == q * s - s
  {
  }

  lemma MulSum(a: int, b: int, s: int)
    ensures (a + b) * s == a * s + b * s
  {
  }

  lemma MulLess(a: int, b: int, s: int)
    requires a < b && s > 0
    ensures a * s + s <= b * s
    decreases b - a
  {
    MulStep(a, s);
    if a + 1 < b {
      MulLess(a + 1, b, s);
    }
  }

  lemma BuddyIs(o: nat, k: nat, q: nat)
    requires Index(o, k, q)
    ensures BuddyOf(o, k) == if q % 2 == 0 then o + SizeOf(k) else o - SizeOf(k)
  {
    SizeIsPow2(k);
    XorPow2(q, 4 + k);
    MulStep(q, SizeOf(k));
  }

  lemma Between(q: int, a: int, m: int, s: int)
    requires s > 0 && m > 0
    ensures q * s + s <= a * s || a * s + m * s <= q * s || (a * s <= q * s && q * s + s <= a * s + m * s)
  {
    MulSum(a, m, s);
    if q < a {
      MulLess(q, a, s);
    } else if q >= a + m {
      if q > a + m { MulLess(a + m, q, s); }
    } else {
      if q > a { MulLess(a, q, s); }
      MulLess(q, a + m, s);
    }
  }

  /** Two aligned blocks are nested or disjoint; a smaller one fits in a larger. */
  lemma Laminar(o: nat, k: nat, p: nat, j: nat)
    requires Aligned(o, k) && Aligned(p, j) && k <= j
    ensures Apart(o, k, p, j) || (p <= o && o + SizeOf(k) <= p + SizeOf(j))
  {
    var q: nat :| Index(o, k, q);
    var r: nat :| Index(p, j, r);
    SizeFactor(k, j);
    MulAssoc(r, Pow2(j - k), SizeOf(k));
    Between(q, r * Pow2(j - k), Pow2(j - k), SizeOf(k));
  }

  lemma HalfIndex(o: nat, j: nat, q: nat)
    requires Index(o, j + 1, q)
    ensures Index(o, j, 2 * q) && Index(o + SizeOf(j), j, 2 * q + 1)
  {
    SizeDoubles(j);
    MulAssoc(q, 2, SizeOf(j));
    MulStep(2 * q, SizeOf(j));
  }

  lemma PairIndex(o: nat, k: nat, q: nat)
    requires Index(o, k, q)
    ensures q % 2 == 0 ==> Index(o, k + 1, q / 2)
    ensures q % 2 == 1 ==> o >= SizeOf(k) && Index(o - SizeOf(k), k + 1, q / 2)
  {
    SizeDoubles(k);
    MulAssoc(q / 2, 2, SizeOf(k));
    MulStep(q, SizeOf(k));
    if q % 2 == 1 {
      MulLess(0, q, SizeOf(k));
    }
  }

  /** The buddy relation is symmetric, and joins exactly the two halves of an
      aligned block of the next order. */
  lemma BuddySymmetric(o: nat, k: nat)
    requires Aligned(o, k)
    ensures BuddyOf(BuddyOf(o, k), k) == o
    ensures BuddyOf(o, k) == o + SizeOf(k) || BuddyOf(o, k) == o - SizeOf(k)
    ensures HasIndex(Lower(o, k), k + 1)
  {
    hide BuddyOf, SizeOf;
    var q: nat :| Index(o, k, q);
    BuddyIs(o, k, q);
    PairIndex(o, k, q);
    var b := BuddyOf(o, k);
    MulStep(q, SizeOf(k));
    if q % 2 == 0 {
      assert Index(b, k, q + 1);
      BuddyIs(b, k, q + 1);
      assert Index(o, k + 1, q / 2);
    } else {
      assert Index(b, k, q - 1);
      BuddyIs(b, k, q - 1);
      assert Index(b, k + 1, q / 2);
    }
  }

  lemma OneOrder(h: Heap, o: nat, k: nat, j: nat)
    requires Disjoint(h) && IsBlock(h, o, k)
    ensures IsBlock(h, o, j) ==> k == j
  {
  }

  // ----- each step keeps the invariant

  lemma TakeKeeps(h: Heap, k: nat)
    requires Inv(h) && k < ORDERS && h.free[k] != []
    ensures Inv(Take(h, k))
  {
    var t := Take(h, k);
    var o := h.free[k][0];
    assert h.free[k] == [o] + h.free[k][1..];
    assert IsFree(h, o, k);
    forall x: nat, j: nat
      ensures IsFree(t, x, j) <==> IsFree(h, x, j) && !(x == o && j == k)
      ensures IsLive(t, x, j) <==> IsLive(h, x, j) || (x == o && j == k)
    {
    }
    BlocksSame(h, t);
    forall x: nat, j: nat | IsFree(t, x, j) ensures x !in t.live {
      OneOrder(h, o, k, j);
    }
    assert Shaped(t);
  }

  /** Coverage and disjointness speak of blocks only, free or handed out. */
  lemma BlocksSame(h: Heap, t: Heap)
    requires Disjoint(h) && Full(h)
    requires forall x: nat, j: nat :: IsBlock(t, x, j) <==> IsBlock(h, x, j)
    ensures Disjoint(t) && Full(t)
  {
    forall x: nat | x < HEAP_BYTES ensures Covered(t, x) {
      assert Covered(h, x);
      var o: nat, k: nat :| Covers(h, o, k, x);
      assert Covers(t, o, k, x);
    }
  }

  /** `t` is `h` with the block (m, k + 1) cut into its two halves. */
  ghost predicate Halved(h: Heap, t: Heap, m: nat, k: nat) {
    && IsBlock(h, m, k + 1) && !IsBlock(h, m, k) && !IsBlock(h, m + SizeOf(k), k)
    && forall x: nat, j: nat :: IsBlock(t, x, j) <==>
         (IsBlock(h, x, j) && !(x == m && j == k + 1)) || (x == m && j == k) || (x == m + SizeOf(k) && j == k)
  }

  lemma HalvedDown(h: Heap, t: Heap, m: nat, k: nat)
    requires Disjoint(h) && Full(h) && Halved(h, t, m, k)
    ensures Disjoint(t) && Full(t)
  {
    SizeDoubles(k);
    forall x: nat, j: nat, y: nat, i: nat | IsBlock(t, x, j) && IsBlock(t, y, i) && (x != y || j != i)
      ensures Apart(x, j, y, i)
    {
      if IsBlock(h, x, j) && !(x == m && j == k + 1) { assert Apart(x, j, m, k + 1); }
      if IsBlock(h, y, i) && !(y == m && i == k + 1) { assert Apart(y, i, m, k + 1); }
    }
    forall x: nat | x < HEAP_BYTES ensures Covered(t, x) {
      assert Covered(h, x);
      var o: nat, j: nat :| Covers(h, o, j, x);
      if o == m && j == k + 1 {
        assert Covers(t, m, k, x) || Covers(t, m + SizeOf(k), k, x);
      } else {
        assert Covers(t, o, j, x);
      }
    }
  }

  lemma HalvedUp(h: Heap, t: Heap, m: nat, k: nat)
    requires Disjoint(t) && Full(t) && Halved(h, t, m, k)
    ensures Disjoint(h) && Full(h)
  {
    SizeDoubles(k);
    forall x: nat, j: nat, y: nat, i: nat | IsBlock(h, x, j) && IsBlock(h, y, i) && (x != y || j != i)
      ensures Apart(x, j, y, i)
    {
      if !(x == m && j == k + 1) { assert Apart(x, j, m, k) && Apart(x, j, m + SizeOf(k), k); }
      if !(y == m && i == k + 1) { assert Apart(y, i, m, k) && Apart(y, i, m + SizeOf(k), k); }
    }
    forall x: nat | x < HEAP_BYTES ensures Covered(h, x) {
      assert Covered(t, x);
      var o: nat, j: nat :| Covers(t, o, j, x);
      if j == k && (o == m || o == m + SizeOf(k)) {
        assert Covers(h, m, k + 1, x);
      } else {
        assert Covers(h, o, j, x);
      }
    }
  }

  lemma SplitMembers(h: Heap, o: nat, j: nat, u: nat)
    requires Shaped(h) && Disjoint(h) && o in h.live && h.live[o] == j + 1 && u == o + SizeOf(j)
    ensures var t := Split(h, o);
      && (forall x: nat, i: nat :: IsFree(t, x, i) <==> IsFree(h, x, i) || (x == u && i == j))
      && (forall x: nat, i: nat :: IsLive(t, x, i) <==> (IsLive(h, x, i) && x != o) || (x == o && i == j))
    ensures forall x: nat, i: nat :: IsBlock(h, x, i) && !(x == o && i == j + 1) ==> x != o && x != u
  {
    SizeDoubles(j);
    assert IsLive(h, o, j + 1);
    forall x: nat, i: nat | IsBlock(h, x, i) && !(x == o && i == j + 1) ensures x != o && x != u {
      assert Apart(x, i, o, j + 1);
    }
  }

  lemma LiveAligned(h: Heap, o: nat)
    requires Shaped(h) && o in h.live
    ensures Aligned(o, h.live[o])
  {
    hide Aligned;
    assert IsLive(h, o, h.live[o]);
  }

  /** The halves of an aligned block are aligned and each other's buddies. */
  lemma Halves(o: nat, j: nat)
    requires Aligned(o, j + 1)
    ensures var u := o + SizeOf(j); Aligned(o, j) && Aligned(u, j) && BuddyOf(o, j) == u && BuddyOf(u, j) == o
  {
    hide SizeOf, BuddyOf, Index;
    SizeDoubles(j);
    var q: nat :| Index(o, j + 1, q);
    HalfIndex(o, j, q);
    BuddyIs(o, j, 2 * q);
    BuddyIs(o + SizeOf(j), j, 2 * q + 1);
  }

  /** No block starts in the middle of one that is handed out. */
  lemma UpperUnused(h: Heap, o: nat, j: nat, u: nat)
    requires Ranged(h) && Disjoint(h) && o in h.live && h.live[o] == j + 1 && u == o + SizeOf(j)
    ensures u !in h.live && forall i: nat :: !IsBlock(h, u, i)
  {
    hide SizeOf;
    SizeDoubles(j);
    assert IsBlock(h, o, j + 1);
    forall i: nat ensures !IsBlock(h, u, i) {
      assert !Apart(o, j + 1, u, i);
    }
    assert u in h.live ==> IsBlock(h, u, h.live[u]);
  }

  lemma SplitShaped(h: Heap, o: nat, j: nat, u: nat)
    requires Shaped(h) && Disjoint(h) && o in h.live && h.live[o] == j + 1 && u == o + SizeOf(j)
    ensures Shaped(Split(h, o)) && Aligned(o, j) && Aligned(u, j) && BuddyOf(u, j) == o
  {
    hide SizeOf, BuddyOf, Aligned, Disjoint;
    LiveAligned(h, o);
    Halves(o, j);
    UpperUnused(h, o, j, u);
    SplitMembers(h, o, j, u);
    var t := Split(h, o);
    assert forall k: nat :: k < ORDERS ==> NoDup(t.free[k]) by {
      assert !IsBlock(h, u, j);
    }
  }

  lemma SplitKeeps(h: Heap, o: nat)
    requires Inv(h) && o in h.live && h.live[o] > 0
    ensures Inv(Split(h, o))
  {
    var t := Split(h, o);
    var j := h.live[o] - 1;
    var u := o + SizeOf(j);
    SplitMembers(h, o, j, u);
    SplitShaped(h, o, j, u);
    assert IsLive(h, o, j + 1);
    assert Halved(h, t, o, j);
    HalvedDown(h, t, o, j);
    SplitCanonical(h, o, j, u);
  }

  lemma SplitCanonical(h: Heap, o: nat, j: nat, u: nat)
    requires Shaped(h) && Disjoint(h) && Canonical(h)
    requires o in h.live && h.live[o] == j + 1 && u == o + SizeOf(j)
    ensures Canonical(Split(h, o))
  {
    var t := Split(h, o);
    SplitMembers(h, o, j, u);
    SplitShaped(h, o, j, u);
    forall x: nat, i: nat | IsFree(t, x, i) && i < TOP ensures !IsFree(t, BuddyOf(x, i), i) {
      BuddySymmetric(x, i);
    }
  }

  lemma MergeMembers(h: Heap, o: nat)
    requires Shaped(h) && Disjoint(h) && o in h.live && h.live[o] < TOP
    requires IsFree(h, BuddyOf(o, h.live[o]), h.live[o])
    ensures var t, k, b := Merge(h, o), h.live[o], BuddyOf(o, h.live[o]);
      && (forall x: nat, i: nat :: IsFree(t, x, i) <==> IsFree(h, x, i) && !(x == b && i == k))
      && (forall x: nat, i: nat :: IsLive(t, x, i) <==> (IsLive(h, x, i) && x != o) || (x == Lower(o, k) && i == k + 1))
  {
    var t, k, b := Merge(h, o), h.live[o], BuddyOf(o, h.live[o]);
    forall x: nat, i: nat
      ensures IsFree(t, x, i) <==> IsFree(h, x, i) && !(x == b && i == k)
    {
    }
    forall x: nat, i: nat
      ensures IsLive(t, x, i) <==> (IsLive(h, x, i) && x != o) || (x == Lower(o, k) && i == k + 1)
    {
    }
  }

  lemma MergeShaped(h: Heap, o: nat)
    requires Shaped(h) && Disjoint(h) && o in h.live && h.live[o] < TOP
    requires var k := h.live[o];
      IsFree(h, BuddyOf(o, k), k) && Aligned(Lower(o, k), k + 1)
    ensures Shaped(Merge(h, o))
  {
    var t, k, b := Merge(h, o), h.live[o], BuddyOf(o, h.live[o]);
    MergeMembers(h, o);
    forall x: nat, i: nat | IsFree(t, x, i) ensures x !in t.live {
      OneOrder(h, b, k, i);
    }
  }

  lemma MergeKeeps(h: Heap, o: nat)
    requires Inv(h) && o in h.live && h.live[o] < TOP && IsFree(h, BuddyOf(o, h.live[o]), h.live[o])
    ensures Inv(Merge(h, o))
  {
    var t, k, b := Merge(h, o), h.live[o], BuddyOf(o, h.live[o]);
    var m := Lower(o, k);
    SizeDoubles(k);
    assert IsLive(h, o, k);
    assert Aligned(o, k) && Aligned(b, k);
    BuddySymmetric(o, k);
    MergeMembers(h, o);
    assert Aligned(m, k + 1);
    MergeShaped(h, o);
    OneOrder(h, o, k, k + 1);
    OneOrder(h, b, k, k + 1);
    assert Halved(t, h, m, k) by {
      forall x: nat, i: nat ensures IsBlock(h, x, i) <==>
         (IsBlock(t, x, i) && !(x == m && i == k + 1)) || (x == m && i == k) || (x == m + SizeOf(k) && i == k)
      {
        OneOrder(h, o, k, i);
      }
    }
    HalvedUp(t, h, m, k);
  }

  lemma PutKeeps(h: Heap, o: nat)
    requires Inv(h) && o in h.live
    requires h.live[o] < TOP ==> !IsFree(h, BuddyOf(o, h.live[o]), h.live[o])
    ensures Inv(Put(h, o))
  {
    var t := Put(h, o);
    var k := h.live[o];
    assert IsLive(h, o, k);
    forall x: nat, i: nat | IsBlock(h, x, i) && !(x == o && i == k) ensures x != o {
      assert Apart(x, i, o, k);
    }
    forall x: nat, i: nat
      ensures IsFree(t, x, i) <==> IsFree(h, x, i) || (x == o && i == k)
      ensures IsLive(t, x, i) <==> IsLive(h, x, i) && x != o
    {
    }
    assert o !in h.free[k] by { assert !IsFree(h, o, k); }
    assert Shaped(t);
    BlocksSame(h, t);
    BuddySymmetric(o, k);
    forall x: nat, i: nat | IsFree(t, x, i) && i < TOP ensures !IsFree(t, BuddyOf(x, i), i) {
      BuddySymmetric(x, i);
    }
  }
}
