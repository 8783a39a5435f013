/** sbrk, mmap and munmap: the program break, the mapping regions and the pages
    behind them. */
module MemoryCalls {
  import opened Bits
  import opened Frames
  import opened Options
  import opened AddressSpaces
  import opened ProcessLives

  function Mapped(k: Kernel, p: nat, v: nat): Option<nat>
    requires p in k.procs
  {
    Translate(k.mem, k.procs[p].pd, TableIndex(v), EntryIndex(v))
  }

  predicate IsMapped(k: Kernel, p: nat, v: nat)
    requires p in k.procs
  {
    Mapped(k, p, v).Some?
  }

  /** `(x + 0xFFF) & ~0xFFF` in 32 bits. */
  function RoundUp(x: nat): (r: nat)
    ensures r % PAGE == 0
    ensures x + 0xFFF < WORD ==> x <= r < x + PAGE
  {
    Wrap(x + 0xFFF) / PAGE * PAGE
  }

  // ----- ranges of pages

  function MapRange(k: Kernel, p: nat, v: nat, n: nat): (r: Option<Kernel>)
    requires Shaped(k) && p in k.procs && v + n <= USER_PAGES
    ensures r.Some? ==> Shaped(r.value) && r.value.procs == k.procs && |r.value.mem| == |k.mem|
    decreases n
  {
    if n == 0 then Some(k)
    else
      match MapFresh(k, p, TableIndex(v), EntryIndex(v))
      case None => None
      case Some(k1) => MapRange(k1, p, v + 1, n - 1)
  }

  function UnmapRange(k: Kernel, p: nat, v: nat, n: nat): (r: Kernel)
    requires Shaped(k) && p in k.procs && v + n <= USER_PAGES
    ensures Shaped(r) && r.procs == k.procs && |r.mem| == |k.mem|
    decreases n
  {
    if n == 0 then k else UnmapRange(UnmapPage(k, p, TableIndex(v), EntryIndex(v)), p, v + 1, n - 1)
  }

  /** The guard of `MapPage` at every page of the range, each in the state it is
      reached in: a table that has to be added gets a frame without stale entries. */
  predicate RangeReady(k: Kernel, p: nat, v: nat, n: nat)
    requires Shaped(k) && p in k.procs && v + n <= USER_PAGES
    decreases n
  {
    n == 0 ||
    (Allowed(k, MapPage(p, v)) &&
     match MapFresh(k, p, TableIndex(v), EntryIndex(v))
     case None => true
     case Some(k1) => RangeReady(k1, p, v + 1, n - 1))
  }

  predicate NoneMapped(k: Kernel, p: nat, v: nat, n: nat)
    requires p in k.procs
  {
    forall w: nat :: v <= w < v + n ==> !IsMapped(k, p, w)
  }

  /** The frames behind pages of the range that are mapped already. */
  function LostRange(k: Kernel, p: nat, v: nat, n: nat): set<nat>
    requires p in k.procs
  {
    set w: nat | v <= w < v + n && IsMapped(k, p, w) :: FrameOf(Mapped(k, p, w).value)
  }

  function OwnersAfterMapRange(k: Kernel, own: Owners, p: nat, v: nat, n: nat): Owners
    requires Shaped(k) && p in k.procs && v + n <= USER_PAGES && MapRange(k, p, v, n).Some?
    decreases n
  {
    if n == 0 then own
    else
      OwnersAfterMapRange(MapFresh(k, p, TableIndex(v), EntryIndex(v)).value,
                          OwnersAfterMap(k, own, p, TableIndex(v), EntryIndex(v)), p, v + 1, n - 1)
  }

  function OwnersAfterUnmapRange(k: Kernel, own: Owners, p: nat, v: nat, n: nat): Owners
    requires Shaped(k) && p in k.procs && v + n <= USER_PAGES
    decreases n
  {
    if n == 0 then own
    else
      OwnersAfterUnmapRange(UnmapPage(k, p, TableIndex(v), EntryIndex(v)),
                            OwnersAfterUnmap(k, own, p, TableIndex(v), EntryIndex(v)), p, v + 1, n - 1)
  }

  // ----- what a range does to the translations

  /** Translations of all processes agree outside pages v .. v + n - 1 of `p`. */
  ghost predicate AgreeOutside(k: Kernel, k': Kernel, p: nat, v: nat, n: nat) {
    && k'.procs == k.procs
    && forall q, w: nat :: q in k.procs && w < USER_PAGES && !(q == p && v <= w < v + n) ==>
         Mapped(k', q, w) == Mapped(k, q, w)
  }

  /** Directory entries once set stay. */
  ghost predicate DirectoriesGrow(k: Kernel, k': Kernel)
    requires Shaped(k) && Shaped(k')
  {
    && k'.procs == k.procs
    && forall q, i: nat :: q in k.procs && i < USER_ENTRIES && k.mem[k.procs[q].pd][i] != 0 ==>
         k'.mem[k.procs[q].pd][i] == k.mem[k.procs[q].pd][i]
  }

  lemma PageNumber(i: nat, j: nat, v: nat)
    requires j < ENTRIES
    ensures i == TableIndex(v) && j == EntryIndex(v) <==> v == i * ENTRIES + j
    ensures v < USER_PAGES ==> TableIndex(v) < USER_ENTRIES
  {
  }

  lemma PagesInTables()
    ensures forall v: nat :: v < USER_PAGES ==> TableIndex(v) < USER_ENTRIES
  {
  }

  lemma MapOneEffect(k: Kernel, own: Owners, sys: set<nat>, p: nat, v: nat)
    requires Owned(k, own, sys) && p in k.procs && v < USER_PAGES
    requires MapFresh(k, p, TableIndex(v), EntryIndex(v)).Some? && Allowed(k, MapPage(p, v))
    ensures var k' := MapFresh(k, p, TableIndex(v), EntryIndex(v)).value;
      AgreeOutside(k, k', p, v, 1) && IsMapped(k', p, v) && DirectoriesGrow(k, k') && k'.kernelPd == k.kernelPd
  {
    var i, j := TableIndex(v), EntryIndex(v);
    var k' := MapFresh(k, p, i, j).value;
    var g := TakeFrame(k).value.1;
    MapFreshRefines(k, own, sys, p, i, j);
    MapDirectories(k, own, sys, p, i, j);
    hide Owned, MapFresh, TableReady, Translate;
    forall q, w: nat | q in k.procs && w < USER_PAGES && !(q == p && w == v)
      ensures Mapped(k', q, w) == Mapped(k, q, w)
    {
      PageNumber(i, j, w);
    }
  }

  lemma MapDirectories(k: Kernel, own: Owners, sys: set<nat>, p: nat, i: nat, j: nat)
    requires Owned(k, own, sys) && p in k.procs && i < USER_ENTRIES && j < ENTRIES
    requires MapFresh(k, p, i, j).Some?
    ensures var k' := MapFresh(k, p, i, j).value;
      k'.procs == k.procs && DirectoriesGrow(k, k') && k'.kernelPd == k.kernelPd && k'.mem[k.procs[p].pd][i] != 0
    ensures k.mem[k.procs[p].pd][i] != 0 ==> forall q :: q in k.procs ==>
              MapFresh(k, p, i, j).value.mem[k.procs[q].pd] == k.mem[k.procs[q].pd]
  {
    hide TablesUp, PagesDown, PagesUp;
    var e := k.mem[k.procs[p].pd][i];
    if e == 0 {
      TableAdded(k, own, sys, p, i, j);
    } else {
      assert Names(own, e, Table(p, i));
      DirectoriesKept(k, MapFresh(k, p, i, j).value, own, FrameOf(e));
    }
  }

  lemma TableAdded(k: Kernel, own: Owners, sys: set<nat>, p: nat, i: nat, j: nat)
    requires Owned(k, own, sys) && p in k.procs && i < USER_ENTRIES && j < ENTRIES
    requires MapFresh(k, p, i, j).Some? && k.mem[k.procs[p].pd][i] == 0
    ensures var k' := MapFresh(k, p, i, j).value;
      k'.procs == k.procs && DirectoriesGrow(k, k') && k'.kernelPd == k.kernelPd && k'.mem[k.procs[p].pd][i] != 0
  {
    hide TablesDown, TablesUp, PagesDown, PagesUp;
    var g, t := TakeFrame(k).value.1, TableFrame(k).value;
    TwoPokes(k, own, sys, p, i, j, g, t);
    TableFrames(k, own, sys, p, i, t, k.mem[t][j := 0]);
    var k2 := WithTable(k, p, i, t, k.mem[t][j := 0]);
    RootsNotFresh(k, own, sys, t);
    assert forall q :: q in k.procs ==> WithPage(k2, t, j, g).mem[k.procs[q].pd] == k2.mem[k.procs[q].pd];
  }

  lemma RootsNotFresh(k: Kernel, own: Owners, sys: set<nat>, t: nat)
    requires Owned(k, own, sys) && t !in own
    ensures forall q :: q in k.procs ==> k.procs[q].pd != t
  {
  }

  ghost predicate SameDirectories(k: Kernel, k': Kernel)
    requires Shaped(k) && Shaped(k')
  {
    k'.procs == k.procs && forall q :: q in k.procs ==> k'.mem[k.procs[q].pd] == k.mem[k.procs[q].pd]
  }

  lemma UnmapOneEffect(k: Kernel, own: Owners, sys: set<nat>, p: nat, v: nat)
    requires Owned(k, own, sys) && p in k.procs && v < USER_PAGES
    ensures var k' := UnmapPage(k, p, TableIndex(v), EntryIndex(v));
      AgreeOutside(k, k', p, v, 1) && !IsMapped(k', p, v) && SameDirectories(k, k') && k'.kernelPd == k.kernelPd
  {
    var i, j := TableIndex(v), EntryIndex(v);
    var k' := UnmapPage(k, p, i, j);
    var e := k.mem[k.procs[p].pd][i];
    assert e == 0 || Names(own, e, Table(p, i));
    if e != 0 {
      var t := FrameOf(e);
      assert forall f :: 0 <= f < |k.mem| && f != t ==> k'.mem[f] == k.mem[f];
      DirectoriesKept(k, k', own, t);
      forall q, w: nat | q in k.procs && w < USER_PAGES && !(q == p && w == v)
        ensures Mapped(k', q, w) == Mapped(k, q, w)
      {
        PageNumber(i, j, w);
        OtherEntryKept(k, own, sys, p, i, j, t, k', q, TableIndex(w), EntryIndex(w));
      }
    }
  }

  lemma OtherEntryKept(k: Kernel, own: Owners, sys: set<nat>, p: nat, i: nat, j: nat, t: nat, k': Kernel, q: nat,
      x: nat, y: nat)
    requires Owned(k, own, sys) && p in k.procs && q in k.procs && x < USER_ENTRIES && y < ENTRIES
    requires i < USER_ENTRIES && t in own && own[t] == Table(p, i) && t < |k.mem| && Shaped(k') && |k'.mem| == |k.mem|
    requires k'.mem[k.procs[q].pd] == k.mem[k.procs[q].pd]
    requires forall f :: 0 <= f < |k.mem| && f != t ==> k'.mem[f] == k.mem[f]
    requires forall z :: 0 <= z < ENTRIES && z != j ==> k'.mem[t][z] == k.mem[t][z]
    requires !(q == p && x == i && y == j)
    ensures Translate(k'.mem, k.procs[q].pd, x, y) == Translate(k.mem, k.procs[q].pd, x, y)
  {
    var f := k.mem[k.procs[q].pd][x];
    assert f == 0 || Names(own, f, Table(q, x));
  }

  /** What mapping a range does, apart from ownership. */
  ghost predicate RangeMapped(k: Kernel, k': Kernel, p: nat, v: nat, n: nat)
    requires Shaped(k) && Shaped(k') && p in k'.procs
  {
    && AgreeOutside(k, k', p, v, n) && DirectoriesGrow(k, k')
    && (forall w: nat :: v <= w < v + n ==> IsMapped(k', p, w))
    && k'.current == k.current && k'.esp0 == k.esp0
  }

  /** Mapping a range maps its pages and no other, of this process or another one;
      every frame in use keeps its one owner but those behind pages of the range
      that were mapped already, which nothing names any more. */
  lemma {:induction false} MapRangeEffect(k: Kernel, own: Owners, sys: set<nat>, p: nat, v: nat, n: nat)
    requires Owned(k, own, sys) && p in k.procs && v + n <= USER_PAGES
    requires MapRange(k, p, v, n).Some? && RangeReady(k, p, v, n)
    ensures Owned(MapRange(k, p, v, n).value, OwnersAfterMapRange(k, own, p, v, n), sys + LostRange(k, p, v, n))
    ensures RangeMapped(k, MapRange(k, p, v, n).value, p, v, n)
    decreases n
  {
    hide Owned, Shaped, MapFresh, Allowed, RangeMapped, OwnersAfterMap, TableIndex, EntryIndex, LostRange;
    ShapedKnown(k, own, sys);
    PagesInTables();
    if n == 0 {
      NothingMapped(k, p, v);
      assert sys + LostRange(k, p, v, n) == sys;
    } else {
      MapOneOwned(k, own, sys, p, v);
      var k1 := MapFresh(k, p, TableIndex(v), EntryIndex(v)).value;
      var own1 := OwnersAfterMap(k, own, p, TableIndex(v), EntryIndex(v));
      MapRangeEffect(k1, own1, sys + LostRange(k, p, v, 1), p, v + 1, n - 1);
      LostSplits(k, k1, p, v, n);
      assert sys + LostRange(k, p, v, 1) + LostRange(k1, p, v + 1, n - 1) == sys + LostRange(k, p, v, n);
      RangeCompose(k, k1, MapRange(k1, p, v + 1, n - 1).value, p, v, n);
    }
  }

  lemma MapOneOwned(k: Kernel, own: Owners, sys: set<nat>, p: nat, v: nat)
    requires Owned(k, own, sys) && p in k.procs && v < USER_PAGES
    requires MapFresh(k, p, TableIndex(v), EntryIndex(v)).Some? && Allowed(k, MapPage(p, v))
    ensures var k' := MapFresh(k, p, TableIndex(v), EntryIndex(v)).value;
      && k'.procs == k.procs && RangeMapped(k, k', p, v, 1)
      && Owned(k', OwnersAfterMap(k, own, p, TableIndex(v), EntryIndex(v)), sys + LostRange(k, p, v, 1))
  {
    MapFreshOwned(k, own, sys, p, TableIndex(v), EntryIndex(v));
    LostOne(k, p, v);
    MapOneEffect(k, own, sys, p, v);
    MapKeepsCpu(k, p, TableIndex(v), EntryIndex(v));
    hide Owned, MapFresh, Mapped, TableReady, OwnersAfterMap, DirectoriesGrow, AgreeOutside;
  }

  lemma NothingMapped(k: Kernel, p: nat, v: nat)
    requires Shaped(k) && p in k.procs
    ensures RangeMapped(k, k, p, v, 0) && RangeUnmapped(k, k, p, v, 0) && LostRange(k, p, v, 0) == {}
  {
  }

  lemma LostOne(k: Kernel, p: nat, v: nat)
    requires Shaped(k) && p in k.procs
    ensures LostRange(k, p, v, 1) == LostFrames(k, p, TableIndex(v), EntryIndex(v))
  {
    hide Translate;
    assert IsMapped(k, p, v) ==> FrameOf(Mapped(k, p, v).value) in LostRange(k, p, v, 1);
    forall f | f in LostRange(k, p, v, 1) ensures IsMapped(k, p, v) && f == FrameOf(Mapped(k, p, v).value) {
      var w: nat :| v <= w < v + 1 && IsMapped(k, p, w) && f == FrameOf(Mapped(k, p, w).value);
    }
  }

  lemma LostSplits(k: Kernel, k1: Kernel, p: nat, v: nat, n: nat)
    requires Shaped(k) && Shaped(k1) && p in k.procs && n > 0 && v + n <= USER_PAGES
    requires p in k1.procs && RangeMapped(k, k1, p, v, 1)
    ensures LostRange(k, p, v, n) == LostRange(k, p, v, 1) + LostRange(k1, p, v + 1, n - 1)
  {
    forall w: nat | v + 1 <= w < v + n ensures Mapped(k1, p, w) == Mapped(k, p, w) {
    }
    hide Mapped, RangeMapped;
    forall f: nat ensures f in LostRange(k, p, v, n) <==> f in LostRange(k, p, v, 1) + LostRange(k1, p, v + 1, n - 1) {
      LostFrom(k, k1, p, v, n, f);
    }
  }

  lemma LostFrom(k: Kernel, k1: Kernel, p: nat, v: nat, n: nat, f: nat)
    requires p in k.procs && p in k1.procs && n > 0
    requires forall w: nat :: v + 1 <= w < v + n ==> Mapped(k1, p, w) == Mapped(k, p, w)
    ensures f in LostRange(k, p, v, n) <==> f in LostRange(k, p, v, 1) || f in LostRange(k1, p, v + 1, n - 1)
  {
    hide Mapped;
    if f in LostRange(k, p, v, n) {
      var w: nat :| v <= w < v + n && IsMapped(k, p, w) && FrameOf(Mapped(k, p, w).value) == f;
      if w > v { assert Mapped(k1, p, w) == Mapped(k, p, w) && IsMapped(k1, p, w); }
    }
    if f in LostRange(k1, p, v + 1, n - 1) {
      var w: nat :| v + 1 <= w < v + n && IsMapped(k1, p, w) && FrameOf(Mapped(k1, p, w).value) == f;
      assert Mapped(k1, p, w) == Mapped(k, p, w) && IsMapped(k, p, w);
    }
  }

  lemma RangeCompose(k: Kernel, k1: Kernel, k': Kernel, p: nat, v: nat, n: nat)
    requires Shaped(k) && Shaped(k1) && Shaped(k') && p in k.procs && n > 0 && v + n <= USER_PAGES
    requires p in k1.procs && RangeMapped(k, k1, p, v, 1)
    requires p in k'.procs && RangeMapped(k1, k', p, v + 1, n - 1)
    ensures RangeMapped(k, k', p, v, n)
  {
    hide Mapped, DirectoriesGrow;
    assert IsMapped(k1, p, v);
    AgreeCompose(k, k1, k', p, v, n);
    GrowCompose(k, k1, k');
  }

  lemma AgreeCompose(k: Kernel, k1: Kernel, k': Kernel, p: nat, v: nat, n: nat)
    requires p in k.procs && n > 0 && v + n <= USER_PAGES
    requires AgreeOutside(k, k1, p, v, 1) && AgreeOutside(k1, k', p, v + 1, n - 1)
    ensures AgreeOutside(k, k', p, v, n) && Mapped(k', p, v) == Mapped(k1, p, v)
  {
    hide Mapped;
  }

  lemma GrowCompose(k: Kernel, k1: Kernel, k': Kernel)
    requires Shaped(k) && Shaped(k1) && Shaped(k')
    requires DirectoriesGrow(k, k1) && DirectoriesGrow(k1, k')
    ensures DirectoriesGrow(k, k')
  {
  }

  lemma MapKeepsCpu(k: Kernel, p: nat, i: nat, j: nat)
    requires Shaped(k) && p in k.procs && i < ENTRIES && j < ENTRIES && MapFresh(k, p, i, j).Some?
    ensures var k' := MapFresh(k, p, i, j).value; k'.current == k.current && k'.esp0 == k.esp0
  {
  }

  ghost predicate RangeUnmapped(k: Kernel, k': Kernel, p: nat, v: nat, n: nat)
    requires Shaped(k) && Shaped(k') && p in k'.procs
  {
    && AgreeOutside(k, k', p, v, n) && SameDirectories(k, k')
    && (forall w: nat :: v <= w < v + n ==> !IsMapped(k', p, w))
    && k'.current == k.current && k'.esp0 == k.esp0
  }

  lemma {:induction false} UnmapRangeEffect(k: Kernel, own: Owners, sys: set<nat>, p: nat, v: nat, n: nat)
    requires Owned(k, own, sys) && p in k.procs && v + n <= USER_PAGES
    ensures Owned(UnmapRange(k, p, v, n), OwnersAfterUnmapRange(k, own, p, v, n), sys)
    ensures RangeUnmapped(k, UnmapRange(k, p, v, n), p, v, n)
    decreases n
  {
    hide Owned, Shaped, UnmapPage, RangeUnmapped, OwnersAfterUnmap, TableIndex, EntryIndex;
    ShapedKnown(k, own, sys);
    PagesInTables();
    if n == 0 {
      NothingMapped(k, p, v);
    } else {
      UnmapOneOwned(k, own, sys, p, v);
      var k1 := UnmapPage(k, p, TableIndex(v), EntryIndex(v));
      var own1 := OwnersAfterUnmap(k, own, p, TableIndex(v), EntryIndex(v));
      UnmapRangeEffect(k1, own1, sys, p, v + 1, n - 1);
      UnrangeCompose(k, k1, UnmapRange(k1, p, v + 1, n - 1), p, v, n);
    }
  }

  lemma UnmapOneOwned(k: Kernel, own: Owners, sys: set<nat>, p: nat, v: nat)
    requires Owned(k, own, sys) && p in k.procs && v < USER_PAGES
    ensures var k' := UnmapPage(k, p, TableIndex(v), EntryIndex(v));
      && RangeUnmapped(k, k', p, v, 1)
      && Owned(k', OwnersAfterUnmap(k, own, p, TableIndex(v), EntryIndex(v)), sys)
  {
    UnmapOwned(k, own, sys, p, TableIndex(v), EntryIndex(v));
    UnmapOneEffect(k, own, sys, p, v);
    UnmapKeepsCpu(k, p, TableIndex(v), EntryIndex(v));
    hide Owned, UnmapPage, Mapped, OwnersAfterUnmap, SameDirectories, AgreeOutside;
  }

  lemma UnrangeCompose(k: Kernel, k1: Kernel, k': Kernel, p: nat, v: nat, n: nat)
    requires Shaped(k) && Shaped(k1) && Shaped(k') && p in k.procs && n > 0 && v + n <= USER_PAGES
    requires p in k1.procs && RangeUnmapped(k, k1, p, v, 1)
    requires p in k'.procs && RangeUnmapped(k1, k', p, v + 1, n - 1)
    ensures RangeUnmapped(k, k', p, v, n)
  {
    hide Mapped;
    assert !IsMapped(k1, p, v);
    AgreeCompose(k, k1, k', p, v, n);
  }

  lemma UnmapKeepsCpu(k: Kernel, p: nat, i: nat, j: nat)
    requires Shaped(k) && p in k.procs && i < ENTRIES && j < ENTRIES
    ensures var k' := UnmapPage(k, p, i, j); k'.current == k.current && k'.esp0 == k.esp0
  {
  }

  // ----- sbrk

  /** `increment` is a value of int32_t. */
  function NewBreak(before: nat, increment: int): nat
    requires before < WORD && -0x8000_0000 <= increment < 0x8000_0000
  {
    if increment < 0 then (if -increment > before then 0 else before + increment) else Wrap(before + increment)
  }

  function SetProgramBreak(k: Kernel, p: nat, b: nat): (r: Kernel)
    requires Shaped(k) && p in k.procs
    ensures Shaped(r)
  {
    k.(procs := k.procs[p := k.procs[p].(programBreak := b)])
  }

  /** The pages sbrk moves over: the first one and how many. */
  function LowPage(before: nat, after: nat): nat {
    (if RoundUp(after) < RoundUp(before) then RoundUp(after) else RoundUp(before)) / PAGE
  }

  function PageCount(before: nat, after: nat): nat {
    var (a, b) := (RoundUp(before), RoundUp(after));
    (if b < a then a - b else b - a) / PAGE
  }

  predicate InUserHalf(before: nat, after: nat) {
    LowPage(before, after) + PageCount(before, after) <= USER_PAGES
  }

  function Sbrk(k: Kernel, p: nat, increment: int): (r: Option<Kernel>)
    requires Shaped(k) && p in k.procs && k.procs[p].programBreak < WORD
    requires -0x8000_0000 <= increment < 0x8000_0000
    requires InUserHalf(k.procs[p].programBreak, NewBreak(k.procs[p].programBreak, increment))
    ensures r.Some? ==> Shaped(r.value) && p in r.value.procs
  {
    var before := k.procs[p].programBreak;
    var after := NewBreak(before, increment);
    var v, n := LowPage(before, after), PageCount(before, after);
    if RoundUp(after) > RoundUp(before) then
      match MapRange(k, p, v, n)
      case None => None
      case Some(k1) => Some(SetProgramBreak(k1, p, after))
    else Some(SetProgramBreak(UnmapRange(k, p, v, n), p, after))
  }

  /** A growing call gets clear frames for tables; a shrinking call has no guard. */
  predicate SbrkReady(k: Kernel, p: nat, increment: int)
    requires Shaped(k) && p in k.procs && k.procs[p].programBreak < WORD
    requires -0x8000_0000 <= increment < 0x8000_0000
  {
    var before := k.procs[p].programBreak;
    var after := NewBreak(before, increment);
    InUserHalf(before, after) &&
    (RoundUp(after) > RoundUp(before) ==> RangeReady(k, p, LowPage(before, after), PageCount(before, after)))
  }

  /** The frames behind pages that a growing call maps over. */
  function LostBySbrk(k: Kernel, p: nat, increment: int): set<nat>
    requires p in k.procs && k.procs[p].programBreak < WORD && -0x8000_0000 <= increment < 0x8000_0000
  {
    var before := k.procs[p].programBreak;
    var after := NewBreak(before, increment);
    if RoundUp(after) > RoundUp(before) then LostRange(k, p, LowPage(before, after), PageCount(before, after)) else {}
  }

  /** After sbrk a page of the process is mapped exactly when it lies between the
      old and the new rounded break on the growing side, or was mapped before and
      is not between them on the shrinking side; the others name the frames they did.
      Nothing protects the pages below
      the image end: a break moved below it unmaps them. */
  ghost predicate BreakMoved(k: Kernel, k': Kernel, p: nat, before: nat, after: nat) {
    && p in k.procs && p in k'.procs
    && (forall w: nat :: w < USER_PAGES ==>
         (IsMapped(k', p, w) <==>
            if Between(before, after, w) then true
            else if Between(after, before, w) then false
            else IsMapped(k, p, w)))
    && (forall w: nat :: w < USER_PAGES && !Between(before, after, w) && !Between(after, before, w) ==>
         Mapped(k', p, w) == Mapped(k, p, w))
  }

  predicate Between(low: nat, high: nat, w: nat) {
    RoundUp(low) / PAGE <= w < RoundUp(high) / PAGE
  }

  /** The pages of all other processes are as they were. */
  ghost predicate OthersSame(k: Kernel, k': Kernel, p: nat) {
    && k'.procs.Keys == k.procs.Keys
    && forall q, w: nat :: q in k.procs && q != p && w < USER_PAGES ==> Mapped(k', q, w) == Mapped(k, q, w)
  }

  /** The state with the pages moved and the break not yet written. */
  function SbrkPages(k: Kernel, p: nat, before: nat, after: nat): (r: Option<Kernel>)
    requires Shaped(k) && p in k.procs && InUserHalf(before, after)
  {
    if RoundUp(after) > RoundUp(before) then MapRange(k, p, LowPage(before, after), PageCount(before, after))
    else Some(UnmapRange(k, p, LowPage(before, after), PageCount(before, after)))
  }

  lemma SbrkMoves(k: Kernel, own: Owners, sys: set<nat>, p: nat, before: nat, after: nat) returns (own1: Owners)
    requires Owned(k, own, sys) && p in k.procs && InUserHalf(before, after)
    requires SbrkPages(k, p, before, after).Some?
    requires RoundUp(after) > RoundUp(before) ==> RangeReady(k, p, LowPage(before, after), PageCount(before, after))
    ensures var k1 := SbrkPages(k, p, before, after).value;
      var v := LowPage(before, after); var n := PageCount(before, after);
      && Shaped(k1) && k1.procs == k.procs && AgreeOutside(k, k1, p, v, n)
      && k1.current == k.current && k1.esp0 == k.esp0
      && (forall w: nat :: v <= w < v + n ==> (IsMapped(k1, p, w) <==> RoundUp(after) > RoundUp(before)))
      && Owned(k1, own1, sys + if RoundUp(after) > RoundUp(before) then LostRange(k, p, v, n) else {})
  {
    hide Owned, IsMapped, RangeReady, RoundUp, LostRange, AgreeOutside, LowPage, PageCount, DirectoriesGrow;
    ShapedKnown(k, own, sys);
    var v, n := LowPage(before, after), PageCount(before, after);
    if RoundUp(after) > RoundUp(before) {
      own1 := OwnersAfterMapRange(k, own, p, v, n);
      MapRangeEffect(k, own, sys, p, v, n);
    } else {
      own1 := OwnersAfterUnmapRange(k, own, p, v, n);
      UnmapRangeEffect(k, own, sys, p, v, n);
      assert sys + {} == sys;
    }
  }

  lemma SbrkIs(k: Kernel, p: nat, increment: int)
    requires Shaped(k) && p in k.procs && k.procs[p].programBreak < WORD
    requires -0x8000_0000 <= increment < 0x8000_0000
    requires InUserHalf(k.procs[p].programBreak, NewBreak(k.procs[p].programBreak, increment))
    ensures var before := k.procs[p].programBreak; var after := NewBreak(before, increment);
      && (Sbrk(k, p, increment).Some? <==> SbrkPages(k, p, before, after).Some?)
      && (Sbrk(k, p, increment).Some? ==>
            var k1 := SbrkPages(k, p, before, after).value;
            Shaped(k1) && p in k1.procs && Sbrk(k, p, increment).value == SetProgramBreak(k1, p, after))
  {
    hide RoundUp, Shaped;
  }

  /** The new break in numbers: upwards modulo 2^32, downwards not below 0. */
  lemma NewBreakIs(before: nat, increment: int)
    requires before < WORD && -0x8000_0000 <= increment < 0x8000_0000
    ensures NewBreak(before, increment)
            == if increment >= 0 then (before + increment) % 0x1_0000_0000
               else if before + increment < 0 then 0 else before + increment
  {
  }

  lemma SbrkEffect(k: Kernel, own: Owners, sys: set<nat>, p: nat, increment: int) returns (own': Owners)
    requires Owned(k, own, sys) && p in k.procs && k.procs[p].programBreak < WORD
    requires -0x8000_0000 <= increment < 0x8000_0000
    requires SbrkReady(k, p, increment) && Sbrk(k, p, increment).Some?
    ensures var before := k.procs[p].programBreak; var after := NewBreak(before, increment);
      var k' := Sbrk(k, p, increment).value;
      && after == (if increment >= 0 then (before + increment) % 0x1_0000_0000
                   else if before + increment < 0 then 0 else before + increment)
      && Owned(k', own', sys + LostBySbrk(k, p, increment))
      && k'.procs == k.procs[p := k.procs[p].(programBreak := after)]
      && k'.current == k.current && k'.esp0 == k.esp0
      && BreakMoved(k, k', p, before, after) && OthersSame(k, k', p)
  {
    hide Owned, Mapped, RangeReady, RoundUp, LostRange, Sbrk, SbrkPages, LowPage, PageCount, BreakMoved, NewBreak;
    ShapedKnown(k, own, sys);
    var before := k.procs[p].programBreak;
    var after := NewBreak(before, increment);
    var lost := LostBySbrk(k, p, increment);
    NewBreakIs(before, increment);
    SbrkIs(k, p, increment);
    own' := SbrkMoves(k, own, sys, p, before, after);
    var k1 := SbrkPages(k, p, before, after).value;
    var k' := Sbrk(k, p, increment).value;
    RecordOwned(k1, own', sys + lost, p, k1.procs[p].(programBreak := after));
    RecordMapped(k1, p, after);
    BreakFromRange(k, k1, k', p, before, after);
  }

  lemma BreakFromRange(k: Kernel, k1: Kernel, k': Kernel, p: nat, before: nat, after: nat)
    requires p in k.procs && p in k1.procs && p in k'.procs
    requires InUserHalf(before, after)
    requires AgreeOutside(k, k1, p, LowPage(before, after), PageCount(before, after))
    requires forall w: nat :: LowPage(before, after) <= w < LowPage(before, after) + PageCount(before, after) ==>
               (IsMapped(k1, p, w) <==> RoundUp(after) > RoundUp(before))
    requires forall w: nat :: Mapped(k', p, w) == Mapped(k1, p, w)
    ensures BreakMoved(k, k', p, before, after)
  {
    RoundUpPages(before);
    RoundUpPages(after);
    hide Mapped, RoundUp;
    var a, b := RoundUp(before) / PAGE, RoundUp(after) / PAGE;
    assert LowPage(before, after) == if b < a then b else a;
    assert PageCount(before, after) == if b < a then a - b else b - a;
    forall w: nat | w < USER_PAGES
      ensures IsMapped(k', p, w) <==> if a <= w < b then true else if b <= w < a then false else IsMapped(k, p, w)
    {
      assert Mapped(k', p, w) == Mapped(k1, p, w);
      assert IsMapped(k', p, w) <==> IsMapped(k1, p, w);
    }
  }

  lemma RoundUpPages(x: nat)
    ensures RoundUp(x) / PAGE * PAGE == RoundUp(x)
  {
  }

  lemma RecordMapped(k: Kernel, p: nat, b: nat)
    requires Shaped(k) && p in k.procs
    ensures forall q, w: nat :: q in k.procs ==> Mapped(SetProgramBreak(k, p, b), q, w) == Mapped(k, q, w)
  {
  }

  // ----- growing and shrinking again

  /** From `k` to `k2` the pages of a range of `p` were mapped and unmapped again. */
  ghost predicate MappedAndBack(k: Kernel, own: Owners, k2: Kernel, own2: Owners, sys: set<nat>,
                                p: nat, v: nat, m: nat)
  {
    && Owned(k, own, sys) && p in k.procs && Owned(k2, own2, sys + LostRange(k, p, v, m))
    && DirectoriesGrow(k, k2) && AgreeOutside(k, k2, p, v, m) && NoneMapped(k2, p, v, m)
  }

  /** A frame that was no table is none afterwards. */
  lemma RoleStays(k: Kernel, own: Owners, k2: Kernel, own2: Owners, sys: set<nat>, p: nat, v: nat, m: nat, f: nat)
    requires MappedAndBack(k, own, k2, own2, sys, p, v, m) && f in own && !own[f].Table?
    ensures f in own2 && !own2[f].Table?
  {
    if own[f].Page? {
      PageStays(k, own, k2, own2, sys, p, v, m, f);
    } else {
      RootStays(k, own, k2, own2, sys + LostRange(k, p, v, m), sys, f);
    }
  }

  lemma RootStays(k: Kernel, own: Owners, k2: Kernel, own2: Owners, sys2: set<nat>, sys: set<nat>, f: nat)
    requires Owned(k, own, sys) && Owned(k2, own2, sys2) && sys <= sys2 && DirectoriesGrow(k, k2)
    requires f in own && !own[f].Table? && !own[f].Page?
    ensures f in own2 && !own2[f].Table?
  {
    hide TablesDown, TablesUp, PagesDown, PagesUp;
  }

  lemma PageStays(k: Kernel, own: Owners, k2: Kernel, own2: Owners, sys: set<nat>, p: nat, v: nat, m: nat, f: nat)
    requires MappedAndBack(k, own, k2, own2, sys, p, v, m) && f in own && own[f].Page?
    ensures f in own2 && !own2[f].Table?
  {
    hide Roots;
    var Page(q, i, j) := own[f];
    var w := i * ENTRIES + j;
    PageNumber(i, j, w);
    assert Mapped(k, q, w) == Some(EntryFor(f, USER_FLAGS));
    if q == p && v <= w < v + m {
      assert IsMapped(k, p, w) && f in LostRange(k, p, v, m);
    } else {
      assert Mapped(k2, q, w) == Some(EntryFor(f, USER_FLAGS));
      var e := k2.mem[k2.procs[q].pd][i];
      assert e == 0 || Names(own2, e, Table(q, i));
    }
  }

  lemma FrameWasUsed(k: Kernel, own: Owners, k2: Kernel, own2: Owners, sys: set<nat>, p: nat, v: nat, m: nat, f: nat)
    requires MappedAndBack(k, own, k2, own2, sys, p, v, m) && v + m <= USER_PAGES && f in own2 && !own2[f].Table?
    ensures f in own
  {
    if own2[f].Page? {
      PageWasUsed(k, own, k2, own2, sys, p, v, m, f);
    } else {
      LostWasOwned(k, own, sys, p, v, m);
      RootWasUsed(k, own, k2, own2, sys + LostRange(k, p, v, m), sys, f);
    }
  }

  lemma RootWasUsed(k: Kernel, own: Owners, k2: Kernel, own2: Owners, sys2: set<nat>, sys: set<nat>, f: nat)
    requires Owned(k, own, sys) && Owned(k2, own2, sys2) && sys2 <= own.Keys && DirectoriesGrow(k, k2)
    requires f in own2 && !own2[f].Table? && !own2[f].Page?
    ensures f in own
  {
    hide TablesDown, TablesUp, PagesDown, PagesUp;
  }

  lemma PageWasUsed(k: Kernel, own: Owners, k2: Kernel, own2: Owners, sys: set<nat>, p: nat, v: nat, m: nat, f: nat)
    requires MappedAndBack(k, own, k2, own2, sys, p, v, m) && f in own2 && own2[f].Page?
    ensures f in own
  {
    hide Roots, LostRange;
    var Page(q, i, j) := own2[f];
    var w := i * ENTRIES + j;
    PageNumber(i, j, w);
    assert Mapped(k2, q, w) == Some(EntryFor(f, USER_FLAGS)) && IsMapped(k2, q, w);
    assert Mapped(k, q, w) == Some(EntryFor(f, USER_FLAGS));
    var e := k.mem[k.procs[q].pd][i];
    assert e == 0 || Names(own, e, Table(q, i));
  }

  lemma LostWasOwned(k: Kernel, own: Owners, sys: set<nat>, p: nat, v: nat, m: nat)
    requires Owned(k, own, sys) && p in k.procs && v + m <= USER_PAGES
    ensures sys + LostRange(k, p, v, m) <= own.Keys
    ensures LostRange(k, p, v, m) !! sys
  {
    forall f | f in LostRange(k, p, v, m) ensures f in own && own[f].Page? {
      var w: nat :| v <= w < v + m && IsMapped(k, p, w) && FrameOf(Mapped(k, p, w).value) == f;
      UnmapOwned(k, own, sys, p, TableIndex(w), EntryIndex(w));
    }
  }

  lemma TablesKept(k: Kernel, own: Owners, k2: Kernel, own2: Owners, sys: set<nat>, sys2: set<nat>, f: nat)
    requires Owned(k, own, sys) && Owned(k2, own2, sys2) && DirectoriesGrow(k, k2)
    requires f in own && own[f].Table?
    ensures f in own2 && own2[f] == own[f]
  {
    var r := own[f];
    assert k.mem[k.procs[r.p].pd][r.i] == EntryFor(f, USER_FLAGS);
    assert k2.mem[k2.procs[r.p].pd][r.i] == EntryFor(f, USER_FLAGS);
    assert Names(own2, k2.mem[k2.procs[r.p].pd][r.i], Table(r.p, r.i));
  }

  /** No directory entry was added. */
  ghost predicate NoTableAdded(k: Kernel, k2: Kernel)
    requires Shaped(k) && Shaped(k2) && k2.procs == k.procs
  {
    forall q, i: nat :: q in k.procs && i < USER_ENTRIES && k.mem[k.procs[q].pd][i] == 0
        ==> k2.mem[k.procs[q].pd][i] == 0
  }

  lemma FramesDiffer(k: Kernel, own: Owners, k2: Kernel, own2: Owners, sys: set<nat>, p: nat, v: nat, m: nat)
    requires MappedAndBack(k, own, k2, own2, sys, p, v, m) && v + m <= USER_PAGES
    ensures k.used <= k2.used && (k2.used == k.used <==> NoTableAdded(k, k2))
  {
    hide Owned, Mapped, LostRange, NoneMapped, IsMapped;
    var sys2 := sys + LostRange(k, p, v, m);
    ShapedKnown(k, own, sys);
    ShapedKnown(k2, own2, sys2);
    forall f | f in own ensures f in own2 {
      if own[f].Table? { TablesKept(k, own, k2, own2, sys, sys2, f); }
      else { RoleStays(k, own, k2, own2, sys, p, v, m, f); }
    }
    if NoTableAdded(k, k2) {
      forall f | f in own2 ensures f in own {
        if own2[f].Table? { TableFromBefore(k, own, k2, own2, sys, sys2, f); }
        else { FrameWasUsed(k, own, k2, own2, sys, p, v, m, f); }
      }
    } else {
      var q, i: nat :| q in k.procs && i < USER_ENTRIES && k.mem[k.procs[q].pd][i] == 0
          && k2.mem[k.procs[q].pd][i] != 0;
      NewTableIsNew(k, own, k2, own2, sys, p, v, m, q, i);
    }
  }

  lemma TableFromBefore(k: Kernel, own: Owners, k2: Kernel, own2: Owners, sys: set<nat>, sys2: set<nat>, f: nat)
    requires Owned(k, own, sys) && Owned(k2, own2, sys2) && DirectoriesGrow(k, k2) && NoTableAdded(k, k2)
    requires f in own2 && own2[f].Table?
    ensures f in own
  {
    var r := own2[f];
    assert k2.mem[k2.procs[r.p].pd][r.i] == EntryFor(f, USER_FLAGS);
    assert Names(own, k.mem[k.procs[r.p].pd][r.i], Table(r.p, r.i));
  }

  lemma NewTableIsNew(k: Kernel, own: Owners, k2: Kernel, own2: Owners, sys: set<nat>, p: nat, v: nat, m: nat, q: nat,
      i: nat)
    requires MappedAndBack(k, own, k2, own2, sys, p, v, m) && v + m <= USER_PAGES
    requires q in k.procs && i < USER_ENTRIES && k.mem[k.procs[q].pd][i] == 0 && k2.mem[k.procs[q].pd][i] != 0
    ensures var t := FrameOf(k2.mem[k.procs[q].pd][i]); t in k2.used && t !in k.used
  {
    var t := FrameOf(k2.mem[k.procs[q].pd][i]);
    assert Names(own2, k2.mem[k2.procs[q].pd][i], Table(q, i));
    if t in own {
      if own[t].Table? { TablesKept(k, own, k2, own2, sys, sys + LostRange(k, p, v, m), t); }
      else { RoleStays(k, own, k2, own2, sys, p, v, m, t); }
    }
  }

  // ----- when growing adds no table

  /** Every page of the range lies in a table that is there already. */
  predicate TablesThere(k: Kernel, p: nat, v: nat, m: nat)
    requires Shaped(k) && p in k.procs && v + m <= USER_PAGES
  {
    forall w: nat :: v <= w < v + m ==> k.mem[k.procs[p].pd][TableIndex(w)] != 0
  }

  lemma {:induction false} ThereAddsNone(k: Kernel, own: Owners, sys: set<nat>, p: nat, v: nat, m: nat)
    requires Owned(k, own, sys) && p in k.procs && v + m <= USER_PAGES
    requires MapRange(k, p, v, m).Some? && RangeReady(k, p, v, m) && TablesThere(k, p, v, m)
    ensures SameDirectories(k, MapRange(k, p, v, m).value)
    decreases m
  {
    hide Owned, Shaped, MapFresh, Allowed, OwnersAfterMap, TableIndex, EntryIndex, LostRange, RangeMapped;
    ShapedKnown(k, own, sys);
    PagesInTables();
    if m > 0 {
      MapOneOwned(k, own, sys, p, v);
      MapDirectories(k, own, sys, p, TableIndex(v), EntryIndex(v));
      var k1 := MapFresh(k, p, TableIndex(v), EntryIndex(v)).value;
      assert k.mem[k.procs[p].pd][TableIndex(v)] != 0;
      assert k1.mem[k1.procs[p].pd] == k.mem[k.procs[p].pd];
      var own1 := OwnersAfterMap(k, own, p, TableIndex(v), EntryIndex(v));
      ThereAddsNone(k1, own1, sys + LostRange(k, p, v, 1), p, v + 1, m - 1);
    }
  }

  /** The directory has an entry for every mapped page. */
  lemma MappedHasTable(k: Kernel, p: nat, w: nat)
    requires Shaped(k) && p in k.procs && w < USER_PAGES && IsMapped(k, p, w)
    ensures k.mem[k.procs[p].pd][TableIndex(w)] != 0
  {
  }

  lemma TableAddedExactly(k: Kernel, own: Owners, sys: set<nat>, k1: Kernel, k2: Kernel, p: nat, v: nat, m: nat)
    requires Owned(k, own, sys) && p in k.procs && v + m <= USER_PAGES && Shaped(k2)
    requires MapRange(k, p, v, m) == Some(k1) && RangeReady(k, p, v, m) && RangeMapped(k, k1, p, v, m)
    requires k2.procs == k.procs && forall q :: q in k.procs ==> k2.mem[k.procs[q].pd] == k1.mem[k.procs[q].pd]
    ensures NoTableAdded(k, k2) <==> TablesThere(k, p, v, m)
  {
    hide Owned, Mapped, RangeReady, MapRange;
    ShapedKnown(k, own, sys);
    PagesInTables();
    if TablesThere(k, p, v, m) {
      ThereAddsNone(k, own, sys, p, v, m);
    } else {
      var w: nat :| v <= w < v + m && k.mem[k.procs[p].pd][TableIndex(w)] == 0;
      MappedHasTable(k1, p, w);
      assert k2.mem[k.procs[p].pd][TableIndex(w)] != 0;
    }
  }

  lemma BreakMoves(b: nat, c: nat, n: nat)
    requires c == b + n && c + 0xFFF < WORD && n < 0x8000_0000
    ensures NewBreak(b, n) == c && NewBreak(c, 0 - n) == b
    ensures RoundUp(b) <= RoundUp(c)
    ensures LowPage(c, b) == LowPage(b, c) && PageCount(c, b) == PageCount(b, c)
    ensures RoundUp(b) == RoundUp(c) ==> PageCount(b, c) == 0
  {
    RoundUpMonotone(b, c);
    hide RoundUp;
  }

  lemma NoPages(k: Kernel, p: nat, v: nat)
    requires Shaped(k) && p in k.procs && v <= USER_PAGES
    ensures MapRange(k, p, v, 0) == Some(k) && UnmapRange(k, p, v, 0) == k && RangeReady(k, p, v, 0)
  {
  }

  lemma GrowOrStay(k: Kernel, p: nat, c: nat, n: nat)
    requires Shaped(k) && p in k.procs && c == k.procs[p].programBreak + n && c + 0xFFF < WORD && n < 0x8000_0000
    requires SbrkReady(k, p, n) && Sbrk(k, p, n).Some?
    ensures var b := k.procs[p].programBreak;
      var v := LowPage(b, c); var m := PageCount(b, c);
      && v + m <= USER_PAGES
      && MapRange(k, p, v, m).Some? && RangeReady(k, p, v, m)
      && Sbrk(k, p, n) == Some(SetProgramBreak(MapRange(k, p, v, m).value, p, c))
  {
    hide Shaped, MapRange, UnmapRange, RangeReady, RoundUp, NewBreak, LowPage, PageCount, SetProgramBreak;
    var b := k.procs[p].programBreak;
    BreakMoves(b, c, n);
    NoPages(k, p, LowPage(b, c));
  }

  lemma ShrinkOrStay(k: Kernel, p: nat, b: nat, c: nat, n: nat)
    requires Shaped(k) && p in k.procs && k.procs[p].programBreak == c == b + n && c + 0xFFF < WORD && n < 0x8000_0000
    requires InUserHalf(b, c)
    ensures SbrkReady(k, p, 0 - n)
    ensures Sbrk(k, p, 0 - n) == Some(SetProgramBreak(UnmapRange(k, p, LowPage(b, c), PageCount(b, c)), p, b))
  {
    hide Shaped, MapRange, UnmapRange, RangeReady, RoundUp, NewBreak, LowPage, PageCount, SetProgramBreak;
    BreakMoves(b, c, n);
  }

  lemma RoundTripPages(k: Kernel, own: Owners, sys: set<nat>, kg: Kernel, ku: Kernel, k2: Kernel,
                       p: nat, v: nat, m: nat, b: nat, c: nat)
    requires Owned(k, own, sys) && Shaped(kg) && Shaped(ku) && p in k.procs && v + m <= USER_PAGES
    requires MapRange(k, p, v, m) == Some(kg) && RangeMapped(k, kg, p, v, m)
    requires p in ku.procs && RangeUnmapped(SetProgramBreak(kg, p, c), ku, p, v, m)
    requires k2 == SetProgramBreak(ku, p, b) && k2.procs == k.procs
    ensures DirectoriesGrow(k, k2) && AgreeOutside(k, k2, p, v, m) && NoneMapped(k2, p, v, m)
    ensures forall q :: q in k.procs ==> k2.mem[k.procs[q].pd] == kg.mem[k.procs[q].pd]
  {
    hide Owned, MapRange, Translate;
    ShapedKnown(k, own, sys);
    RecordMapped(kg, p, c);
    RecordMapped(ku, p, b);
    forall w: nat | v <= w < v + m ensures !IsMapped(k2, p, w) {
      assert !IsMapped(ku, p, w);
    }
  }

  lemma PagesBackExactly(k: Kernel, k2: Kernel, p: nat, v: nat, m: nat)
    requires p in k.procs && p in k2.procs && v + m <= USER_PAGES
    requires AgreeOutside(k, k2, p, v, m) && NoneMapped(k2, p, v, m)
    ensures (forall q, w: nat :: q in k.procs && w < USER_PAGES ==> Mapped(k2, q, w) == Mapped(k, q, w))
            <==> NoneMapped(k, p, v, m)
  {
    hide Mapped;
    if NoneMapped(k, p, v, m) {
      forall q, w: nat | q in k.procs && w < USER_PAGES ensures Mapped(k2, q, w) == Mapped(k, q, w) {
        if q == p && v <= w < v + m { assert !IsMapped(k2, p, w) && !IsMapped(k, p, w); }
      }
    } else {
      var w: nat :| v <= w < v + m && IsMapped(k, p, w);
      assert !IsMapped(k2, p, w) && Mapped(k2, p, w) != Mapped(k, p, w);
    }
  }

  /** sbrk(n) and then sbrk(-n) gives back the break, and every translation of every
      process exactly when no page it maps was mapped before. The frames in use come
      back exactly when every page it maps lies in a table that is there before the
      calls: tables are not given back. */
  lemma SbrkRoundTrip(k: Kernel, own: Owners, sys: set<nat>, p: nat, n: nat)
    requires Owned(k, own, sys) && p in k.procs && k.procs[p].programBreak + n + 0xFFF < WORD && n < 0x8000_0000
    requires SbrkReady(k, p, n) && Sbrk(k, p, n).Some?
    ensures var k1 := Sbrk(k, p, n).value;
      && k1.procs[p].programBreak == k.procs[p].programBreak + n
      && SbrkReady(k1, p, 0 - n) && Sbrk(k1, p, 0 - n).Some?
      && var k2 := Sbrk(k1, p, 0 - n).value;
         var v := LowPage(k.procs[p].programBreak, k.procs[p].programBreak + n);
         var m := PageCount(k.procs[p].programBreak, k.procs[p].programBreak + n);
         && k2.procs == k.procs && v + m <= USER_PAGES
         && ((forall q, w: nat :: q in k.procs && w < USER_PAGES ==> Mapped(k2, q, w) == Mapped(k, q, w))
             <==> NoneMapped(k, p, v, m))
         && k.used <= k2.used && (k2.used == k.used <==> TablesThere(k, p, v, m))
  {
    hide Owned, Mapped, RangeReady, RoundUp, MapRange, UnmapRange, RangeMapped, RangeUnmapped, DirectoriesGrow,
         SbrkReady, Sbrk, NoTableAdded, OwnersAfterMapRange, OwnersAfterUnmapRange, LostRange, TablesThere,
         NoneMapped, AgreeOutside;
    ShapedKnown(k, own, sys);
    var b := k.procs[p].programBreak;
    var c := b + n;
    var v, m := LowPage(b, c), PageCount(b, c);
    GrowOrStay(k, p, c, n);
    var kg := MapRange(k, p, v, m).value;
    var og := OwnersAfterMapRange(k, own, p, v, m);
    var lost := LostRange(k, p, v, m);
    MapRangeEffect(k, own, sys, p, v, m);
    var k1 := SetProgramBreak(kg, p, c);
    RecordOwned(kg, og, sys + lost, p, kg.procs[p].(programBreak := c));
    ShrinkOrStay(k1, p, b, c, n);
    var ku := UnmapRange(k1, p, v, m);
    var ou := OwnersAfterUnmapRange(k1, og, p, v, m);
    UnmapRangeEffect(k1, og, sys + lost, p, v, m);
    var k2 := SetProgramBreak(ku, p, b);
    RecordOwned(ku, ou, sys + lost, p, ku.procs[p].(programBreak := b));
    assert k2.procs == k.procs;
    RoundTripPages(k, own, sys, kg, ku, k2, p, v, m, b, c);
    PagesBackExactly(k, k2, p, v, m);
    TableAddedExactly(k, own, sys, kg, k2, p, v, m);
    FramesDiffer(k, own, k2, ou, sys, p, v, m);
  }

  lemma RoundUpMonotone(x: nat, y: nat)
    requires x <= y && y + 0xFFF < WORD
    ensures RoundUp(x) <= RoundUp(y)
  {
  }
}
