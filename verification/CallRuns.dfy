/** The memory calls, process creation and the program loader as runs of single
    steps, so that what every run keeps holds of them. */
module CallRuns {
  import opened AddressMap
  import opened Bits
  import opened Frames
  import opened Options
  import opened AddressSpaces
  import opened ProcessLives
  import opened MemoryCalls
  import opened MappingRegions
  import opened ProcessCreation
  import opened ElfImage
  import opened Sequences

  // ----- runs one behind the other

  lemma {:induction false} RunsJoin(k: Kernel, a: seq<Op>, m: Kernel, b: seq<Op>, t: Kernel)
    requires Shaped(k) && Runs(k, a, m) && Shaped(m) && Runs(m, b, t)
    ensures Runs(k, a + b, t)
    decreases |a|
  {
    hide Allowed, Step, Shaped;
    if a == [] {
      assert a + b == b;
    } else {
      assert (a + b)[0] == a[0] && (a + b)[1..] == a[1..] + b;
      RunsJoin(Step(k, a[0]).value, a[1..], m, b, t);
    }
  }

  lemma OneStep(k: Kernel, op: Op, t: Kernel)
    requires Shaped(k) && Allowed(k, op) && Step(k, op) == Some(t)
    ensures Runs(k, [op], t)
  {
    hide Allowed, Step, Shaped;
    assert [op][1..] == [];
  }

  /** A frame that a run loses was no frame of the kernel's. */
  lemma {:induction false} LostApart(k: Kernel, own: Owners, sys: set<nat>, ops: seq<Op>, t: Kernel)
    requires Owned(k, own, sys) && Esp0Current(k) && Runs(k, ops, t)
    ensures LostRun(k, ops, t) !! sys
    decreases |ops|
  {
    hide Owned, Allowed, Step, OwnersAfter, LostBy;
    ShapedKnown(k, own, sys);
    if ops != [] {
      LostByApart(k, own, sys, ops[0]);
      StepOwned(k, own, sys, ops[0]);
      LostApart(Step(k, ops[0]).value, OwnersAfter(k, own, ops[0]), sys + LostBy(k, ops[0]), ops[1..], t);
    }
  }

  lemma LostByApart(k: Kernel, own: Owners, sys: set<nat>, op: Op)
    requires Owned(k, own, sys) && Shaped(k) && Allowed(k, op)
    ensures LostBy(k, op) !! sys
  {
    hide Owned, TableReady;
    match op
    case MapPage(p, v) =>
      PagesInTables();
      UnmapOwned(k, own, sys, p, TableIndex(v), EntryIndex(v));
      forall f | f in LostBy(k, op) ensures f !in sys {
        SystemIs(k, own, sys, f);
      }
    case _ =>
  }

  // ----- ranges of pages

  function MapOps(p: nat, v: nat, n: nat): (ops: seq<Op>)
    ensures |ops| == n
    decreases n
  {
    if n == 0 then [] else [MapPage(p, v)] + MapOps(p, v + 1, n - 1)
  }

  function UnmapOps(p: nat, v: nat, n: nat): (ops: seq<Op>)
    ensures |ops| == n
    decreases n
  {
    if n == 0 then [] else [Unmap(p, v)] + UnmapOps(p, v + 1, n - 1)
  }

  lemma {:induction false} MapRuns(k: Kernel, p: nat, v: nat, n: nat)
    requires Shaped(k) && p in k.procs && v + n <= USER_PAGES && RangeReady(k, p, v, n) && MapRange(k, p, v, n).Some?
    ensures Runs(k, MapOps(p, v, n), MapRange(k, p, v, n).value)
    decreases n
  {
    hide MapFresh, Shaped, Allowed;
    if n > 0 {
      var k1 := MapFresh(k, p, TableIndex(v), EntryIndex(v)).value;
      assert Step(k, MapPage(p, v)) == Some(k1) by { SameProcs(k, p, v); }
      SameProcs(k, p, v);
      MapRuns(k1, p, v + 1, n - 1);
      OneStep(k, MapPage(p, v), k1);
      RunsJoin(k, [MapPage(p, v)], k1, MapOps(p, v + 1, n - 1), MapRange(k1, p, v + 1, n - 1).value);
    }
  }

  lemma SameProcs(k: Kernel, p: nat, v: nat)
    requires Shaped(k) && p in k.procs && v < USER_PAGES && MapFresh(k, p, TableIndex(v), EntryIndex(v)).Some?
    ensures MapFresh(k, p, TableIndex(v), EntryIndex(v)).value.procs == k.procs
  {
  }

  lemma {:induction false} UnmapRuns(k: Kernel, p: nat, v: nat, n: nat)
    requires Shaped(k) && p in k.procs && v + n <= USER_PAGES
    ensures Runs(k, UnmapOps(p, v, n), UnmapRange(k, p, v, n))
    decreases n
  {
    hide UnmapPage, Shaped;
    if n > 0 {
      var k1 := UnmapPage(k, p, TableIndex(v), EntryIndex(v));
      UnmapRuns(k1, p, v + 1, n - 1);
      OneStep(k, Unmap(p, v), k1);
      RunsJoin(k, [Unmap(p, v)], k1, UnmapOps(p, v + 1, n - 1), UnmapRange(k1, p, v + 1, n - 1));
    }
  }

  /** Every step is one of process `p`, none creates or destroys it. */
  predicate AllAbout(ops: seq<Op>, p: nat) {
    forall op :: op in ops ==> OpAbout(op, p)
  }

  lemma {:induction false} RangesAbout(p: nat, v: nat, n: nat)
    ensures AllAbout(MapOps(p, v, n), p) && AllAbout(UnmapOps(p, v, n), p)
    decreases n
  {
    if n > 0 { RangesAbout(p, v + 1, n - 1); }
  }

  // ----- the calls

  function SbrkOps(before: nat, p: nat, after: nat): seq<Op> {
    (if RoundUp(after) > RoundUp(before) then MapOps(p, LowPage(before, after), PageCount(before, after))
     else UnmapOps(p, LowPage(before, after), PageCount(before, after))) + [SetBreak(p, after)]
  }

  lemma SbrkRuns(k: Kernel, p: nat, increment: int)
    requires Shaped(k) && p in k.procs && k.procs[p].programBreak < WORD && -0x8000_0000 <= increment < 0x8000_0000
    requires SbrkReady(k, p, increment) && Sbrk(k, p, increment).Some?
    ensures var before := k.procs[p].programBreak; var ops := SbrkOps(before, p, NewBreak(before, increment));
      Runs(k, ops, Sbrk(k, p, increment).value) && AllAbout(ops, p)
  {
    hide Shaped, RangeReady, NewBreak, Runs, LowPage, PageCount, RoundUp, MapRange, UnmapRange;
    var before := k.procs[p].programBreak;
    var after := NewBreak(before, increment);
    var v, n := LowPage(before, after), PageCount(before, after);
    SbrkIs(k, p, increment);
    var k1 := SbrkPages(k, p, before, after).value;
    RangesAbout(p, v, n);
    var ops := if RoundUp(after) > RoundUp(before) then MapOps(p, v, n) else UnmapOps(p, v, n);
    if RoundUp(after) > RoundUp(before) { MapRuns(k, p, v, n); } else { UnmapRuns(k, p, v, n); }
    var t := SetProgramBreak(k1, p, after);
    OneStep(k1, SetBreak(p, after), t);
    RunsJoin(k, ops, k1, [SetBreak(p, after)], t);
  }

  function MmapOps(p: nat, r: Process, n: nat): seq<Op> {
    MapOps(p, r.mmapNext / PAGE, n) + [SetRegions(p, r.mmapNext + n * PAGE, r.regions + [Region(r.mmapNext, n * PAGE)])]
  }

  lemma MmapRuns(k: Kernel, p: nat, size: nat)
    requires Shaped(k) && p in k.procs && k.procs[p].mmapNext / PAGE + PagesFor(size) <= USER_PAGES
    requires RangeReady(k, p, k.procs[p].mmapNext / PAGE, PagesFor(size)) && Mmap(k, p, size).Some?
    ensures var ops := MmapOps(p, k.procs[p], PagesFor(size));
      Runs(k, ops, Mmap(k, p, size).value) && AllAbout(ops, p)
  {
    hide Shaped, RangeReady, MapRange, PagesFor, Runs;
    var r, n := k.procs[p], PagesFor(size);
    MapAndSet(k, p, r.mmapNext / PAGE, n, r.mmapNext + n * PAGE, r.regions + [Region(r.mmapNext, n * PAGE)]);
  }

  lemma MapAndSet(k: Kernel, p: nat, v: nat, n: nat, next: nat, regions: seq<Region>)
    requires Shaped(k) && p in k.procs && v + n <= USER_PAGES && RangeReady(k, p, v, n) && MapRange(k, p, v, n).Some?
    ensures var ops := MapOps(p, v, n) + [SetRegions(p, next, regions)];
      Runs(k, ops, WithRegions(MapRange(k, p, v, n).value, p, next, regions)) && AllAbout(ops, p)
  {
    hide Shaped, MapRange, RangeReady, Runs;
    RangesAbout(p, v, n);
    MapRuns(k, p, v, n);
    var k1 := MapRange(k, p, v, n).value;
    var t := WithRegions(k1, p, next, regions);
    OneStep(k1, SetRegions(p, next, regions), t);
    RunsJoin(k, MapOps(p, v, n), k1, [SetRegions(p, next, regions)], t);
  }

  function MunmapOps(p: nat, r: Process, addr: nat): seq<Op> {
    var i := RegionAt(r.regions, addr);
    if i == |r.regions| then []
    else UnmapOps(p, addr / PAGE, r.regions[i].len / PAGE) + [SetRegions(p, r.mmapNext, Dropped(r.regions, i))]
  }

  lemma MunmapRuns(k: Kernel, p: nat, addr: nat)
    requires Shaped(k) && p in k.procs && MunmapInRange(k.procs[p], addr)
    ensures var ops := MunmapOps(p, k.procs[p], addr); var r := Munmap(k, p, addr);
      Runs(k, ops, if r.Some? then r.value else k) && AllAbout(ops, p)
  {
    hide Shaped, UnmapRange, Runs, RegionAt, Dropped;
    var r := k.procs[p];
    var i := RegionAt(r.regions, addr);
    if i == |r.regions| {
      NoSteps(k);
    } else {
      UnmapAndSet(k, p, addr / PAGE, r.regions[i].len / PAGE, r.mmapNext, Dropped(r.regions, i));
    }
  }

  lemma UnmapAndSet(k: Kernel, p: nat, v: nat, n: nat, next: nat, regions: seq<Region>)
    requires Shaped(k) && p in k.procs && v + n <= USER_PAGES
    ensures var ops := UnmapOps(p, v, n) + [SetRegions(p, next, regions)];
      Runs(k, ops, WithRegions(UnmapRange(k, p, v, n), p, next, regions)) && AllAbout(ops, p)
  {
    hide Shaped, UnmapRange, Runs;
    RangesAbout(p, v, n);
    UnmapRuns(k, p, v, n);
    var k1 := UnmapRange(k, p, v, n);
    var t := WithRegions(k1, p, next, regions);
    OneStep(k1, SetRegions(p, next, regions), t);
    RunsJoin(k, UnmapOps(p, v, n), k1, [SetRegions(p, next, regions)], t);
  }

  lemma NoSteps(k: Kernel)
    requires Shaped(k)
    ensures Runs(k, [], k)
  {
  }

  // ----- creating and loading

  function StackOps(p: nat, n: nat): seq<Op>
    requires n <= STACK_PAGES
    decreases STACK_PAGES - n
  {
    if n == STACK_PAGES then [] else [MapPage(p, StackPage(n))] + StackOps(p, n + 1)
  }

  lemma {:induction false} StackRuns(k: Kernel, p: nat, n: nat)
    requires Shaped(k) && p in k.procs && n <= STACK_PAGES && StackReady(k, p, n) && StackPages(k, p, n).Some?
    ensures Runs(k, StackOps(p, n), StackPages(k, p, n).value) && AllAbout(StackOps(p, n), p)
    decreases STACK_PAGES - n
  {
    hide MapFresh, Shaped, Allowed, StackPage;
    if n < STACK_PAGES {
      var v := StackPage(n);
      var k1 := MapFresh(k, p, TableIndex(v), EntryIndex(v)).value;
      SameProcs(k, p, v);
      StackRuns(k1, p, n + 1);
      OneStep(k, MapPage(p, v), k1);
      RunsJoin(k, [MapPage(p, v)], k1, StackOps(p, n + 1), StackPages(k1, p, n + 1).value);
    }
  }

  function LoadOps(p: nat, pages: seq<PageLoad>): seq<Op> {
    if pages == [] then [] else [MapPage(p, pages[0].v), Fill(p, pages[0].v, pages[0].row)] + LoadOps(p, pages[1..])
  }

  /** The loader writes the frame it took by its physical address; that is the frame
      the tables name at the page. */
  lemma LoadPageRuns(k: Kernel, own: Owners, sys: set<nat>, p: nat, v: nat, row: seq<nat>)
    requires Owned(k, own, sys) && p in k.procs && v < USER_PAGES && |row| == ENTRIES
    requires TableReady(k, p, TableIndex(v), EntryIndex(v)) && LoadPage(k, p, v, row).Some?
    ensures Shaped(k) && Runs(k, [MapPage(p, v), Fill(p, v, row)], LoadPage(k, p, v, row).value)
  {
    hide Owned, MapFresh, TableReady, TableIndex, EntryIndex, LostRange, Runs;
    ShapedKnown(k, own, sys);
    PagesInTables();
    ReadyAllowed(k, p, v);
    MapOneOwned(k, own, sys, p, v);
    FrameTaken(k, own, sys, p, v);
    var k1 := MapFresh(k, p, TableIndex(v), EntryIndex(v)).value;
    var own1 := OwnersAfterMap(k, own, p, TableIndex(v), EntryIndex(v));
    var g := TakeFrame(k).value.1;
    OutsideAgrees(k, k1, p, v);
    FrameOfNew(k1, own1, sys + LostRange(k, p, v, 1), p, v, g);
    OneStep(k, MapPage(p, v), k1);
    OneStep(k1, Fill(p, v, row), LoadPage(k, p, v, row).value);
    RunsJoin(k, [MapPage(p, v)], k1, [Fill(p, v, row)], LoadPage(k, p, v, row).value);
    assert [MapPage(p, v)] + [Fill(p, v, row)] == [MapPage(p, v), Fill(p, v, row)];
  }

  lemma {:induction false} LoadRuns(k: Kernel, own: Owners, sys: set<nat>, p: nat, pages: seq<PageLoad>)
    requires Owned(k, own, sys) && p in k.procs && PagesOk(pages)
    requires TablesClear(k, p, pages) && LoadAll(k, p, pages).Some?
    ensures Shaped(k) && Runs(k, LoadOps(p, pages), LoadAll(k, p, pages).value) && AllAbout(LoadOps(p, pages), p)
    decreases |pages|
  {
    hide Owned, LoadPage, TableReady, TableIndex, EntryIndex, Shaped, PageLoaded, LostRange, Runs;
    ShapedKnown(k, own, sys);
    if pages == [] {
      NoSteps(k);
    } else {
      var v, row := pages[0].v, pages[0].row;
      var own1 := LoadPageEffect(k, own, sys, p, v, row);
      var k1 := LoadPage(k, p, v, row).value;
      LoadPageRuns(k, own, sys, p, v, row);
      LoadRuns(k1, own1, sys + LostRange(k, p, v, 1), p, pages[1..]);
      RunsJoin(k, [MapPage(p, v), Fill(p, v, row)], k1, LoadOps(p, pages[1..]), LoadAll(k1, p, pages[1..]).value);
    }
  }
}
