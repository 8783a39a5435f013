/** From a machine with blank memory: programs that can be started, and the calls
    and files for which the promises fail. */
module ProgramExamples {
  import opened AddressMap
  import opened Options
  import opened Frames
  import opened AddressSpaces
  import opened ProcessLives
  import opened PageGuards
  import opened MemoryCalls
  import opened MappingRegions
  import opened ProcessCreation
  import opened ElfImage
  import opened ProcessLayouts
  import opened CallRuns
  import opened ProgramRuns
  import opened ProgramLives
  import opened BlankMemory

  /** At least `n` frames are free. */
  predicate Room(k: Kernel, n: nat) {
    |k.used| + n <= |k.mem|
  }

  /** At most `n` frames more are in use. */
  predicate Takes(k: Kernel, t: Kernel, n: nat) {
    |t.mem| == |k.mem| && |t.used| <= |k.used| + n
  }

  // ----- counting

  function Below(n: nat): (r: set<nat>)
    ensures |r| == n && forall x: nat :: x in r <==> x < n
  {
    if n == 0 then {} else Below(n - 1) + {n - 1}
  }

  lemma {:induction false} SubsetSize(a: set<nat>, b: set<nat>)
    requires a <= b
    ensures |a| <= |b|
    decreases |a|
  {
    if a != {} {
      var x :| x in a;
      SubsetSize(a - {x}, b - {x});
    }
  }

  lemma RoomTakes(k: Kernel)
    requires Room(k, 1)
    ensures TakeFrame(k).Some?
    ensures var (k1, g) := TakeFrame(k).value; k1 == k.(used := k.used + {g}) && g !in k.used && g < |k.mem|
    ensures Takes(k, TakeFrame(k).value.0, 1)
  {
    if TakeFrame(k).None? {
      assert Below(|k.mem|) <= k.used;
      SubsetSize(Below(|k.mem|), k.used);
    }
  }

  // ----- mapping from blank memory

  lemma MapCan(k: Kernel, own: Owners, sys: set<nat>, p: nat, v: nat)
    requires Owned(k, own, sys) && p in k.procs && v < USER_PAGES && Blank(k) && Room(k, 2)
    ensures Shaped(k) && Allowed(k, MapPage(p, v)) && TableReady(k, p, TableIndex(v), EntryIndex(v))
    ensures var r := MapFresh(k, p, TableIndex(v), EntryIndex(v));
      r.Some? && Blank(r.value) && Takes(k, r.value, 2)
  {
    var e := k.mem[k.procs[p].pd][TableIndex(v)];
    assert e == 0 || Names(own, e, Table(p, TableIndex(v)));
    hide Owned, Roots, Known, TablesDown, TablesUp, PagesDown, PagesUp, Blank, TableReady;
    MapBlank(k, own, sys, p, v);
    RoomTakes(k);
    RoomTakes(TakeFrame(k).value.0);
  }

  lemma {:induction false} MapRangeCan(k: Kernel, own: Owners, sys: set<nat>, p: nat, v: nat, n: nat)
    requires Owned(k, own, sys) && p in k.procs && v + n <= USER_PAGES && Blank(k) && Room(k, 2 * n)
    ensures Shaped(k) && RangeReady(k, p, v, n) && MapRange(k, p, v, n).Some? && Blank(MapRange(k, p, v, n).value)
    ensures Takes(k, MapRange(k, p, v, n).value, 2 * n)
    decreases n
  {
    hide Owned, MapFresh, Allowed, OwnersAfterMap, LostRange, RangeMapped, TableReady, TableIndex, EntryIndex,
         Blank;
    RangeReadyIfBlank(k, own, sys, p, v, n);
    PagesInTables();
    if n > 0 {
      MapCan(k, own, sys, p, v);
      MapOneOwned(k, own, sys, p, v);
      var k1 := MapFresh(k, p, TableIndex(v), EntryIndex(v)).value;
      var own1 := OwnersAfterMap(k, own, p, TableIndex(v), EntryIndex(v));
      MapRangeCan(k1, own1, sys + LostRange(k, p, v, 1), p, v + 1, n - 1);
    }
  }

  lemma {:induction false} StackCan(k: Kernel, own: Owners, sys: set<nat>, p: nat, n: nat)
    requires Owned(k, own, sys) && p in k.procs && n <= STACK_PAGES && Blank(k) && Room(k, 2 * (STACK_PAGES - n))
    ensures Shaped(k) && StackPages(k, p, n).Some? && Takes(k, StackPages(k, p, n).value, 2 * (STACK_PAGES - n))
    decreases STACK_PAGES - n
  {
    hide Owned, MapFresh, Allowed, OwnersAfterMap, LostRange, RangeMapped, TableReady, TableIndex, EntryIndex,
         Blank;
    ShapedKnown(k, own, sys);
    PagesInTables();
    if n < STACK_PAGES {
      var v := StackPage(n);
      MapCan(k, own, sys, p, v);
      MapOneOwned(k, own, sys, p, v);
      var k1 := MapFresh(k, p, TableIndex(v), EntryIndex(v)).value;
      StackCan(k1, OwnersAfterMap(k, own, p, TableIndex(v), EntryIndex(v)), sys + LostRange(k, p, v, 1), p, n + 1);
    }
  }

  lemma NewCan(k: Kernel, p: nat, context: seq<nat>)
    requires Shaped(k) && Room(k, 2) && |context| == CONTEXT / 4
    ensures NewProcess(k, p, context).Some? && Takes(k, NewProcess(k, p, context).value, 2)
  {
    RoomTakes(k);
    RoomTakes(TakeFrame(k).value.0);
    hide TakeFrame, Present;
  }

  lemma CreateCan(k: Kernel, own: Owners, sys: set<nat>, p: nat, context: seq<nat>)
    requires Owned(k, own, sys) && p !in k.procs && |context| == CONTEXT / 4 && Blank(k) && Room(k, 10)
    ensures Shaped(k) && CreateProcess(k, p, context).Some? && Takes(k, CreateProcess(k, p, context).value, 10)
  {
    hide Owned, NewProcess, StackPages, StackReady, Blank;
    ShapedKnown(k, own, sys);
    NewCan(k, p, context);
    NewBlank(k, p, context);
    NewTakes(k, p, context);
    NewProcessOwned(k, own, sys, p, context);
    StackCan(NewProcess(k, p, context).value, OwnersAfterNew(k, own, p), sys, p, 0);
  }

  lemma LoadPageCan(k: Kernel, own: Owners, sys: set<nat>, p: nat, v: nat, row: seq<nat>)
    requires Owned(k, own, sys) && p in k.procs && v < USER_PAGES && |row| == ENTRIES && Blank(k) && Room(k, 2)
    ensures Shaped(k) && LoadPage(k, p, v, row).Some? && Takes(k, LoadPage(k, p, v, row).value, 2)
  {
    hide Owned, TableReady, MapFresh, TableIndex, EntryIndex, Present;
    PagesInTables();
    ShapedKnown(k, own, sys);
    MapCan(k, own, sys, p, v);
    RoomTakes(k);
  }

  lemma {:induction false} LoadAllCan(k: Kernel, own: Owners, sys: set<nat>, p: nat, pages: seq<PageLoad>)
    requires Owned(k, own, sys) && p in k.procs && PagesOk(pages) && Blank(k) && Room(k, 2 * |pages|)
    ensures Shaped(k) && LoadAll(k, p, pages).Some? && Takes(k, LoadAll(k, p, pages).value, 2 * |pages|)
    decreases |pages|
  {
    hide Owned, LoadPage, TableReady, TableIndex, EntryIndex, PageLoaded, LostRange, Blank;
    ShapedKnown(k, own, sys);
    if pages != [] {
      var v, row := pages[0].v, pages[0].row;
      LoadPageCan(k, own, sys, p, v, row);
      LoadPageBlank(k, own, sys, p, v, row);
      var own1 := LoadPageEffect(k, own, sys, p, v, row);
      var k1 := LoadPage(k, p, v, row).value;
      LoadAllCan(k1, own1, sys + LostRange(k, p, v, 1), p, pages[1..]);
    }
  }

  /** With blank memory and room a program starts. */
  lemma StartCan(k: Kernel, own: Owners, sys: set<nat>, p: nat, context: seq<nat>, file: seq<nat>, segs: seq<Segment>)
    requires Owned(k, own, sys) && p !in k.procs && |context| == CONTEXT / 4
    requires InFile(file, segs) && PagesOk(ImagePages(file, segs))
    requires Blank(k) && Room(k, 10 + 2 * |ImagePages(file, segs)|)
    ensures Shaped(k) && StartReady(k, p, context, file, segs) && Start(k, p, context, file, segs).Some?
    ensures Blank(Start(k, p, context, file, segs).value)
    ensures Takes(k, Start(k, p, context, file, segs).value, 10 + 2 * |ImagePages(file, segs)|)
  {
    hide Owned, CreateProcess, CreateReady, TablesClear, LoadAll, PagesOk, InFile, ImagePages, RoundUp, Blank,
         IsMapped, InStack, Mapped;
    StartReadyIfBlank(k, own, sys, p, context, file, segs);
    CreateReadyIfBlank(k, own, sys, p, context);
    CreateCan(k, own, sys, p, context);
    var own1 := CreateEffect(k, own, sys, p, context);
    LoadAllCan(CreateProcess(k, p, context).value, own1, sys, p, ImagePages(file, segs));
  }

  // ----- a machine

  function Boot(n: nat): (k: Kernel)
    requires n > 0
    ensures Shaped(k) && |k.mem| == n && k.used == {0} && k.procs == map[]
  {
    Kernel(seq(n, _ => seq(ENTRIES, _ => 0)), {0}, 0, map[], None, 0)
  }

  function NoContext(): (c: seq<nat>)
    ensures |c| == CONTEXT / 4
  {
    seq(CONTEXT / 4, _ => 0)
  }

  lemma BootIsBlank(n: nat)
    requires n > 0
    ensures Blank(Boot(n)) && Room(Boot(n), n - 1)
    ensures World(Boot(n), map[0 := System], {0}, map[])
  {
    BootLaidOut(Boot(n));
    assert (map f | f in Boot(n).used :: System) == map[0 := System];
    hide World;
  }

  // ----- a program of one page

  const FILE: seq<nat> := [1, 2, 3, 4, 5, 6, 7, 8]

  /** Eight bytes of file at address `vaddr`. */
  function OneSegment(vaddr: nat): seq<Segment> {
    [Segment(true, vaddr, 0, 8, 8)]
  }

  lemma OnePage(vaddr: nat)
    requires 0x1000 <= vaddr < 0x1FF0
    ensures var segs := OneSegment(vaddr);
      && IsBytes(FILE) && InFile(FILE, segs) && |ImagePages(FILE, segs)| == 1 && PagesOk(ImagePages(FILE, segs))
      && NoPageTwice(ImagePages(FILE, segs)) && Fits(FILE, segs)
      && ImageOf(FILE, segs) == Image({1}, 0x2000)
  {
    hide RowOf, PageBytes;
    var segs := OneSegment(vaddr);
    assert segs[..0] == [] && segs[0] == Segment(true, vaddr, 0, 8, 8);
    assert PageCountOf(segs[0]) == 1;
    assert ImagePages(FILE, segs[..0]) == [];
    assert ImagePages(FILE, segs) == SegmentPages(FILE, segs[0], 1);
    assert ImageEnd(segs[..0]) == 0 && ImageEnd(segs) == vaddr + 8;
    assert ImagePages(FILE, segs)[0].v == 1;
    assert (set i | 0 <= i < 1 :: ImagePages(FILE, segs)[i].v) == {1};
  }

  /** The program loaded on a machine of `n` frames. */
  lemma FirstProgram(n: nat, vaddr: nat) returns (t: Kernel, own: Owners)
    requires n >= 13 && 0x1000 <= vaddr < 0x1FF0
    ensures var segs := OneSegment(vaddr);
      && IsBytes(FILE) && InFile(FILE, segs) && PagesOk(ImagePages(FILE, segs))
      && StartReady(Boot(n), 1, NoContext(), FILE, segs)
      && Start(Boot(n), 1, NoContext(), FILE, segs) == Some(t)
    ensures Shaped(t) && World(t, own, {0}, map[1 := Image({1}, 0x2000)]) && Blank(t) && Takes(Boot(n), t, 12)
    ensures t.procs.Keys == {1} && t.procs[1].programBreak == 0x2000 && t.procs[1].mmapNext == MMAP_BASE
    ensures t.procs[1].regions == []
  {
    hide Owned, Layout, StartReady, Start, ImagePages, InFile, PagesOk, Fits, ImageOf, Boot, NoContext, IsBytes,
         Blank;
    var segs := OneSegment(vaddr);
    var k, own0 := Boot(n), map[0 := System];
    BootIsBlank(n);
    OnePage(vaddr);
    StartCan(k, own0, {0}, 1, NoContext(), FILE, segs);
    t := Start(k, 1, NoContext(), FILE, segs).value;
    own := LoadKeeps(k, own0, {0}, map[], Load(1, NoContext(), FILE, segs));
    StartRecord(k, own0, {0}, FILE, segs, t);
  }

  lemma StartRecord(k: Kernel, own: Owners, sys: set<nat>, file: seq<nat>, segs: seq<Segment>, t: Kernel)
    requires Owned(k, own, sys) && 1 !in k.procs && Shaped(k) && InFile(file, segs) && PagesOk(ImagePages(file, segs))
    requires StartReady(k, 1, NoContext(), file, segs) && Start(k, 1, NoContext(), file, segs) == Some(t)
    ensures 1 in t.procs && t.procs[1].programBreak == ImageOf(file, segs).end && t.procs[1].mmapNext == MMAP_BASE
    ensures t.procs[1].regions == []
  {
    hide Owned, CreateProcess, CreateReady, TablesClear, LoadAll, ImagePages, RoundUp, InFile, PagesOk, IsMapped,
         InStack, Mapped;
    var own1 := CreateEffect(k, own, sys, 1, NoContext());
  }

  /** sbrk(-4096) of a program just loaded takes its image away. */
  lemma SbrkTakesImage(n: nat) returns (t: Kernel)
    requires n >= 13
    ensures InFile(FILE, OneSegment(0x1000)) && PagesOk(ImagePages(FILE, OneSegment(0x1000)))
    ensures Start(Boot(n), 1, NoContext(), FILE, OneSegment(0x1000)) == Some(t) && 1 in t.procs
    ensures IsMapped(t, 1, 1)
    ensures t.procs[1].programBreak == 0x2000 && InUserHalf(0x2000, NewBreak(0x2000, -4096))
    ensures var r := Sbrk(t, 1, -4096); r.Some? && !IsMapped(r.value, 1, 1)
  {
    hide Owned, StartReady, Start, ImagePages, InFile, PagesOk, Boot, NoContext, IsBytes, Blank, Sbrk, IsMapped,
         BreakMoved, Bounded;
    var own;
    t, own := FirstProgram(n, 0x1000);
    var img := Image({1}, 0x2000);
    assert Layout(t, 1, img);
    assert Covers(t.procs[1], img, 1);
    SbrkDefined(t, 1, img, -4096);
    BackOnePage(t);
    ImageStaysExactly(t, own, {0}, 1, img, -4096);
  }

  lemma BackOnePage(t: Kernel)
    requires Shaped(t) && 1 in t.procs && t.procs[1].programBreak == 0x2000
    ensures NewBreak(0x2000, -4096) == 0x1000 && RoundUp(0x1000) == 0x1000 && RoundUp(0x2000) == 0x2000
    ensures SbrkReady(t, 1, -4096) && Sbrk(t, 1, -4096).Some?
  {
    hide UnmapRange, MapRange;
  }

  /** Mappings of 16 MB in all, whether unmapped since or not, lead mmap to the user
      stack: the next page goes over the stack's lowest, whose frame is lost. */
  lemma MmapTakesStack() returns (t: Kernel, t1: Kernel)
    ensures InFile(FILE, OneSegment(0x1000)) && PagesOk(ImagePages(FILE, OneSegment(0x1000)))
    ensures Start(Boot(16384), 1, NoContext(), FILE, OneSegment(0x1000)) == Some(t)
    ensures 1 in t.procs && t.procs[1].mmapNext / PAGE + PagesFor(0xFF_C000) <= USER_PAGES
    ensures Mmap(t, 1, 0xFF_C000) == Some(t1)
    ensures 1 in t1.procs && t1.procs[1].mmapNext / PAGE + PagesFor(4096) <= USER_PAGES && Shaped(t1)
    ensures var r := Mmap(t1, 1, 4096); r.Some? && !Accounted(r.value, {0})
  {
    hide Owned, StartReady, Start, ImagePages, InFile, PagesOk, Boot, NoContext, IsBytes, Blank, Mmap, Layout,
         RangeReady, MapRange;
    var own;
    t, own := FirstProgram(16384, 0x1000);
    var img := Image({1}, 0x2000);
    assert PagesFor(0xFF_C000) == 0xFFC && PagesFor(4096) == 1;
    hide PagesFor;
    MapRangeCan(t, own, {0}, 1, MMAP_BASE / PAGE, 0xFFC);
    t1 := Mmap(t, 1, 0xFF_C000).value;
    var own1 := MmapKeepsLayoutExactly(t, own, {0}, 1, img, 0xFF_C000);
    LayoutRegions(t, 1, img);
    MappedMore(t, t1, own, own1, img);
    MapRangeCan(t1, own1, {0}, 1, 0x7FFC, 1);
    var own2 := MmapKeepsLayoutExactly(t1, own1, {0}, 1, img, 4096);
  }

  lemma MappedMore(t: Kernel, t1: Kernel, own: Owners, own1: Owners, img: Image)
    requires Owned(t, own, {0}) && 1 in t.procs && RegionsOk(t.procs[1]) && t.procs[1].mmapNext == MMAP_BASE
    requires PagesFor(0xFF_C000) == 0xFFC && Mmap(t, 1, 0xFF_C000) == Some(t1)
    requires MapRange(t, 1, MMAP_BASE / PAGE, 0xFFC).Some?
    requires Blank(MapRange(t, 1, MMAP_BASE / PAGE, 0xFFC).value)
    requires Takes(t, MapRange(t, 1, MMAP_BASE / PAGE, 0xFFC).value, 0x1FF8)
    requires Owned(t1, own1, {0})
    ensures Shaped(t1) && 1 in t1.procs && t1.procs[1].mmapNext == STACK_BOTTOM && Blank(t1) && Takes(t, t1, 0x1FF8)
  {
    hide Owned, MapRange, PagesFor, RegionsOk;
    ShapedKnown(t1, own1, {0});
  }

  /** A mapping of no bytes and one of a page get the same address, and unmapping that
      address takes the empty region away: the page stays mapped. */
  lemma EmptyRegionHidesPage() returns (t: Kernel, t1: Kernel, t2: Kernel, t3: Kernel)
    ensures InFile(FILE, OneSegment(0x1000)) && PagesOk(ImagePages(FILE, OneSegment(0x1000)))
    ensures Start(Boot(16), 1, NoContext(), FILE, OneSegment(0x1000)) == Some(t)
    ensures 1 in t.procs && t.procs[1].mmapNext / PAGE + PagesFor(0) <= USER_PAGES && Mmap(t, 1, 0) == Some(t1)
    ensures 1 in t1.procs && t1.procs[1].mmapNext / PAGE + PagesFor(4096) <= USER_PAGES && Shaped(t1)
    ensures Mmap(t1, 1, 4096) == Some(t2)
    ensures 1 in t2.procs && Shaped(t2) && MunmapInRange(t2.procs[1], MMAP_BASE) && Munmap(t2, 1, MMAP_BASE) == Some(t3)
    ensures 1 in t3.procs && IsMapped(t3, 1, MMAP_BASE / PAGE)
  {
    hide Owned, StartReady, Start, ImagePages, InFile, PagesOk, Boot, NoContext, IsBytes, Blank, Layout,
         MapRange, RangeReady, RangeMapped, IsMapped;
    var own;
    t, own := FirstProgram(16, 0x1000);
    LayoutRegions(t, 1, Image({1}, 0x2000));
    PagesOfSizes();
    hide PagesFor;
    NoPages(t, 1, MMAP_BASE / PAGE);
    MmapEffect(t, own, {0}, 1, 0);
    t1 := Mmap(t, 1, 0).value;
    var own1 := OwnersAfterMapRange(t, own, 1, MMAP_BASE / PAGE, 0);
    assert {0} + LostRange(t, 1, MMAP_BASE / PAGE, 0) == {0};
    ShapedKnown(t1, own1, {0});
    RecordBlank(t, t1);
    MapRangeCan(t1, own1, {0}, 1, MMAP_BASE / PAGE, 1);
    MmapKeepsRegions(t, 1, 0);
    MmapEffect(t1, own1, {0}, 1, 4096);
    t2 := Mmap(t1, 1, 4096).value;
    MmapKeepsRegions(t1, 1, 4096);
    var own2 := OwnersAfterMapRange(t1, own1, 1, MMAP_BASE / PAGE, 1);
    ShapedKnown(t2, own2, {0} + LostRange(t1, 1, MMAP_BASE / PAGE, 1));
    var rs := t2.procs[1].regions;
    assert rs == [Region(MMAP_BASE, 0), Region(MMAP_BASE, PAGE)];
    FirstEmpty(t2, 1);
    MunmapEffect(t2, own2, {0} + LostRange(t1, 1, MMAP_BASE / PAGE, 1), 1, MMAP_BASE);
    t3 := Munmap(t2, 1, MMAP_BASE).value;
    assert InRegion(Region(MMAP_BASE, PAGE), MMAP_BASE / PAGE) && !InRegion(rs[0], MMAP_BASE / PAGE);
    assert 1 in t2.procs && 1 in t3.procs && MMAP_BASE / PAGE < USER_PAGES;
    SameMapped(t2, t3, 1, MMAP_BASE / PAGE);
  }

  lemma NoPages(k: Kernel, p: nat, v: nat)
    requires Shaped(k) && p in k.procs && v <= USER_PAGES
    ensures RangeReady(k, p, v, 0) && MapRange(k, p, v, 0) == Some(k)
  {
  }

  lemma SameMapped(k: Kernel, t: Kernel, p: nat, w: nat)
    requires p in k.procs && p in t.procs && Mapped(t, p, w) == Mapped(k, p, w)
    ensures IsMapped(t, p, w) == IsMapped(k, p, w)
  {
  }

  lemma FirstEmpty(t: Kernel, p: nat)
    requires p in t.procs && t.procs[p].regions == [Region(MMAP_BASE, 0), Region(MMAP_BASE, PAGE)]
    ensures RegionAt(t.procs[p].regions, MMAP_BASE) == 0 && MunmapInRange(t.procs[p], MMAP_BASE)
  {
  }

  lemma PagesOfSizes()
    ensures PagesFor(0) == 0 && PagesFor(4096) == 1
  {
  }

  // ----- two segments in one page

  /** Four bytes at 0x1000, four bytes at 0x1800. */
  const TWO_SEGMENTS: seq<Segment> := [Segment(true, 0x1000, 0, 4, 4), Segment(true, 0x1800, 4, 4, 4)]

  lemma TwoPages()
    ensures var pages := ImagePages(FILE, TWO_SEGMENTS);
      && IsBytes(FILE) && InFile(FILE, TWO_SEGMENTS) && |pages| == 2 && PagesOk(pages) && !NoPageTwice(pages)
  {
    hide RowOf, PageBytes;
    var segs := TWO_SEGMENTS;
    assert segs[..1] == [segs[0]] && segs[..1][..0] == [];
    assert ImagePages(FILE, segs[..1][..0]) == [];
    assert ImagePages(FILE, segs[..1]) == SegmentPages(FILE, segs[0], 1);
    assert ImagePages(FILE, segs) == ImagePages(FILE, segs[..1]) + SegmentPages(FILE, segs[1], 1);
    assert ImagePages(FILE, segs)[0].v == 1 && ImagePages(FILE, segs)[1].v == 1;
  }

  /** A file whose two segments share a page costs a frame. */
  lemma SharedPageCostsFrame() returns (t: Kernel)
    ensures InFile(FILE, TWO_SEGMENTS) && PagesOk(ImagePages(FILE, TWO_SEGMENTS))
    ensures Start(Boot(16), 1, NoContext(), FILE, TWO_SEGMENTS) == Some(t) && !Accounted(t, {0})
  {
    hide Owned, StartReady, Start, ImagePages, InFile, PagesOk, Boot, NoContext, IsBytes, Blank, Accounted, World,
         NoPageTwice;
    var k, own := Boot(16), map[0 := System];
    BootIsBlank(16);
    WorldParts(k, own, {0}, map[]);
    TwoPages();
    StartCan(k, own, {0}, 1, NoContext(), FILE, TWO_SEGMENTS);
    StartAccountsExactly(k, own, {0}, 1, NoContext(), FILE, TWO_SEGMENTS);
    t := Start(k, 1, NoContext(), FILE, TWO_SEGMENTS).value;
  }

  /** A segment that does not begin on a page is not read where it was linked: the
      program finds the fifth byte of its file where it expects the first. */
  lemma UnalignedReadsWrongly(n: nat) returns (t: Kernel)
    requires n >= 13
    ensures InFile(FILE, OneSegment(0x1004)) && PagesOk(ImagePages(FILE, OneSegment(0x1004)))
    ensures Start(Boot(n), 1, NoContext(), FILE, OneSegment(0x1004)) == Some(t)
    ensures 1 in t.procs && ReadByte(t, 1, 0x1004) == Some(5) && FILE[0] == 1
  {
    hide Owned, Start, ImagePages, InFile, PagesOk, Boot, NoContext, IsBytes, Blank, ReadByte, CreateProcess, World,
         TablesClear, Layout;
    var own;
    t, own := FirstProgram(n, 0x1004);
    BootIsBlank(n);
    var segs := OneSegment(0x1004);
    WorldParts(Boot(n), map[0 := System], {0}, map[]);
    OnePage(0x1004);
    StartCan(Boot(n), map[0 := System], {0}, 1, NoContext(), FILE, segs);
    StartReads(Boot(n), map[0 := System], {0}, segs, t);
    ReadsShifted(t, 1, FILE, segs[0], 0);
  }

  /** A segment of one header reads as it was copied. */
  lemma StartReads(k: Kernel, own: Owners, sys: set<nat>, segs: seq<Segment>, t: Kernel)
    requires Owned(k, own, sys) && 1 !in k.procs && Shaped(k)
    requires IsBytes(FILE) && InFile(FILE, segs) && PagesOk(ImagePages(FILE, segs)) && |segs| == 1 && segs[0].load
    requires StartReady(k, 1, NoContext(), FILE, segs) && Start(k, 1, NoContext(), FILE, segs) == Some(t)
    ensures 1 in t.procs && segs[0].offset + segs[0].filesz <= |FILE|
    ensures forall y: nat :: y < PageCountOf(segs[0]) * PAGE ==> ReadsAs(t, 1, FILE, segs[0], y)
  {
    hide Owned, CreateProcess, CreateReady, TablesClear, LoadImage, PagesOk, ImagePages, IsMapped, Mapped, InStack,
         LostByLoad, ReadsAs, LoadedAgain, PageAt, IsBytes;
    var k1 := CreateProcess(k, 1, NoContext()).value;
    var own1 := CreateEffect(k, own, sys, 1, NoContext());
    var own2 := ImageLoaded(k1, own1, sys, 1, FILE, segs);
    forall y: nat | y < PageCountOf(segs[0]) * PAGE ensures ReadsAs(t, 1, FILE, segs[0], y) {
      OneHeader(segs, PageNumberOf(segs[0], y / PAGE));
      assert Kept(segs, 0, y);
    }
  }

  lemma OneHeader(segs: seq<Segment>, v: nat)
    requires |segs| == 1
    ensures !LoadedAgain(segs, 0, v)
  {
  }

  // ----- a table in a frame used before

  lemma LowestIs(used: set<nat>, n: nat, f: nat)
    requires f < n && f !in used && forall g: nat :: g < f ==> g in used
    ensures LowestFree(used, n, 0) == Some(f)
  {
    hide LowestFree;
    assert LowestFree(used, n, 0).Some?;
  }

  /** The first process of a machine: its directory is frame 1, its stack frame 2. */
  lemma FirstCreated(k: Kernel, p: nat)
    requires Shaped(k) && k.used == {0} && |k.mem| >= 8
    ensures var r := NewProcess(k, p, NoContext());
      && r.Some? && r.value.used == {0, 1, 2} && |r.value.mem| == |k.mem| && r.value.procs[p].pd == 1
      && r.value.mem[1][0] == 0 && (forall f: nat :: 3 <= f < |k.mem| ==> r.value.mem[f] == k.mem[f])
      && r.value.procs.Keys == k.procs.Keys + {p} && r.value.current == k.current
  {
    LowestIs({0}, |k.mem|, 1);
    LowestIs({0, 1}, |k.mem|, 2);
    assert {0} + {1} == {0, 1} && {0, 1} + {2} == {0, 1, 2};
  }

  /** Its first page is frame 3, in a table in frame 4. */
  lemma FirstMapped(k: Kernel, p: nat)
    requires Shaped(k) && k.used == {0, 1, 2} && |k.mem| >= 8 && p in k.procs && k.procs[p].pd == 1 && k.mem[1][0] == 0
    ensures TableFrame(k) == Some(4)
    ensures var r := MapFresh(k, p, 0, 0);
      && r.Some? && |r.value.mem| == |k.mem| && r.value.mem[4][0] == EntryFor(3, USER_FLAGS)
      && r.value.procs == k.procs && r.value.current == k.current
  {
    LowestIs({0, 1, 2}, |k.mem|, 3);
    LowestIs({0, 1, 2, 3}, |k.mem|, 4);
    assert {0, 1, 2} + {3} == {0, 1, 2, 3} && {0, 1, 2, 3} + {4} == {0, 1, 2, 3, 4};
    hide LowestFree;
  }

  /** The first process is made and maps a page. */
  lemma FirstLifeBegins() returns (k2: Kernel, own2: Owners)
    ensures Runs(Boot(8), [Create(1, NoContext()), MapPage(1, 0)], k2) && Shaped(k2) && Owned(k2, own2, {0})
    ensures k2.procs.Keys == {1} && k2.current == None && |k2.mem| == 8 && k2.mem[4][0] == EntryFor(3, USER_FLAGS)
  {
    hide Owned, NewProcess, MapFresh, TableReady, Runs, NoContext, World;
    var k0, own0 := Boot(8), map[0 := System];
    BootIsBlank(8);
    assert k0.current == None;
    hide Boot;
    WorldParts(k0, own0, {0}, map[]);
    FirstCreated(k0, 1);
    var k1 := NewProcess(k0, 1, NoContext()).value;
    OneStep(k0, Create(1, NoContext()), k1);
    NewTakes(k0, 1, NoContext());
    NewProcessOwned(k0, own0, {0}, 1, NoContext());
    BlankTable(k0, k1);
    FirstMapped(k1, 1);
    k2 := MapFresh(k1, 1, 0, 0).value;
    OneStep(k1, MapPage(1, 0), k2);
    RunsJoin(k0, [Create(1, NoContext())], k1, [MapPage(1, 0)], k2);
    assert [Create(1, NoContext())] + [MapPage(1, 0)] == [Create(1, NoContext()), MapPage(1, 0)];
    own2 := MappedFirst(k1, OwnersAfterNew(k0, own0, 1), k2);
  }

  /** The first process is destroyed and the second made. */
  lemma SecondLifeBegins(k2: Kernel, own2: Owners) returns (t: Kernel, own: Owners)
    requires Owned(k2, own2, {0}) && Shaped(k2) && k2.procs.Keys == {1} && k2.current == None && |k2.mem| == 8
    requires k2.mem[4][0] == EntryFor(3, USER_FLAGS)
    ensures Runs(k2, [Kill(1), Create(2, NoContext())], t) && Shaped(t) && Owned(t, own, {0})
    ensures t.used == {0, 1, 2} && |t.mem| == 8 && t.procs.Keys == {2} && t.procs[2].pd == 1
    ensures t.mem[1][0] == 0 && t.mem[4][0] == EntryFor(3, USER_FLAGS)
  {
    hide Owned, NewProcess, Runs, NoContext, Destroy;
    var k3 := Destroy(k2, 1);
    OneStep(k2, Kill(1), k3);
    Destroyed(k2, own2, k3);
    FirstCreated(k3, 2);
    t := NewProcess(k3, 2, NoContext()).value;
    OneStep(k3, Create(2, NoContext()), t);
    RunsJoin(k2, [Kill(1)], k3, [Create(2, NoContext())], t);
    assert [Kill(1)] + [Create(2, NoContext())] == [Kill(1), Create(2, NoContext())];
    NewTakes(k3, 2, NoContext());
    NewProcessOwned(k3, Others(own2, 1), {0}, 2, NoContext());
    own := OwnersAfterNew(k3, Others(own2, 1), 2);
  }

  /** A run of four steps after which mapping a page breaks the account: a process is
      made, maps a page and is destroyed; its page table keeps what was written, and
      the first table of the next process gets that frame. */
  lemma StaleTableHappens() returns (t: Kernel)
    ensures Runs(Boot(8), [Create(1, NoContext()), MapPage(1, 0), Kill(1), Create(2, NoContext())], t)
    ensures Shaped(t) && 2 in t.procs && MapFresh(t, 2, 0, 1).Some? && !TableReady(t, 2, 0, 1)
    ensures forall own :: !Owned(MapFresh(t, 2, 0, 1).value, own, {0})
  {
    hide Owned, MapFresh, TableReady, Runs, Boot, NoContext;
    var k2, own2 := FirstLifeBegins();
    var own;
    t, own := SecondLifeBegins(k2, own2);
    var a := [Create(1, NoContext()), MapPage(1, 0)];
    var b := [Kill(1), Create(2, NoContext())];
    RunsJoin(Boot(8), a, k2, b, t);
    assert a + b == [Create(1, NoContext()), MapPage(1, 0), Kill(1), Create(2, NoContext())];
    StaleNow(t, own);
  }

  lemma BlankTable(k0: Kernel, k1: Kernel)
    requires Blank(k0) && Shaped(k0) && Shaped(k1) && |k1.mem| == |k0.mem| >= 8 && k0.used == {0}
    requires forall f: nat :: 3 <= f < |k0.mem| ==> k1.mem[f] == k0.mem[f]
    requires k1.used == {0, 1, 2} && 1 in k1.procs && k1.procs[1].pd == 1 && k1.mem[1][0] == 0
    ensures TableReady(k1, 1, 0, 0) && Allowed(k1, MapPage(1, 0)) && TableIndex(0) == 0 && EntryIndex(0) == 0
  {
    FirstMapped(k1, 1);
    hide TableFrame, MapFresh;
    assert ClearBut(k1.mem[4], 0);
  }

  lemma MappedFirst(k1: Kernel, own1: Owners, k2: Kernel) returns (own2: Owners)
    requires Owned(k1, own1, {0}) && 1 in k1.procs && k1.procs[1].pd == 1 && Shaped(k1) && |k1.mem| >= 8
    requires k1.mem[1][0] == 0 && TableReady(k1, 1, 0, 0) && MapFresh(k1, 1, 0, 0) == Some(k2)
    ensures Owned(k2, own2, {0})
  {
    own2 := OwnersAfterMap(k1, own1, 1, 0, 0);
    hide Owned, MapFresh, TableReady;
    MapFreshOwned(k1, own1, {0}, 1, 0, 0);
    assert LostFrames(k1, 1, 0, 0) == {};
    assert {0} + {} == {0};
  }

  lemma Destroyed(k2: Kernel, own2: Owners, k3: Kernel)
    requires Owned(k2, own2, {0}) && k2.procs.Keys == {1} && Shaped(k2) && k3 == Destroy(k2, 1)
    ensures Owned(k3, Others(own2, 1), {0}) && k3.used == {0} && k3.procs == map[] && k3.mem == k2.mem
  {
    hide Owned, Frees;
    DestroyOwned(k2, own2, {0}, 1);
    forall f | f in k3.used ensures f == 0 {
      if f !in {0} { OwnerLives(k3, Others(own2, 1), {0}, f); }
    }
    ShapedKnown(k3, Others(own2, 1), {0});
  }

  lemma StaleNow(t: Kernel, own: Owners)
    requires Owned(t, own, {0}) && Shaped(t) && t.used == {0, 1, 2} && |t.mem| >= 8 && 2 in t.procs
    requires t.procs[2].pd == 1 && t.mem[1][0] == 0 && t.mem[4][0] == EntryFor(3, USER_FLAGS)
    ensures MapFresh(t, 2, 0, 1).Some? && !TableReady(t, 2, 0, 1)
    ensures forall own' :: !Owned(MapFresh(t, 2, 0, 1).value, own', {0})
  {
    FirstMapped(t, 2);
    hide Owned;
    assert TakeFrame(t).Some?;
    assert Present(t.mem[4][0]);
    assert !ClearBut(t.mem[4], 1);
    hide MapFresh;
    forall own' ensures !Owned(MapFresh(t, 2, 0, 1).value, own', {0}) {
      StaleTableBreaks(t, own, {0}, 2, 0, 1, own');
    }
  }
}
