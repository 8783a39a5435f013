/** When no free frame holds a present entry, every table that a call adds is clear:
    the guard of the calls, seen in the state before. */
module BlankMemory {
  import opened AddressMap
  import opened Bits
  import opened Frames
  import opened AddressSpaces
  import opened ProcessLives
  import opened MemoryCalls
  import opened MappingRegions
  import opened ProcessCreation
  import opened ElfImage
  import opened ProgramRuns
  import opened ProgramLives

  /** No free frame holds a present entry. */
  ghost predicate Blank(k: Kernel) {
    forall f: nat, x: nat :: f < |k.mem| && f !in k.used && x < |k.mem[f]| ==> !Present(k.mem[f][x])
  }

  lemma MapBlank(k: Kernel, own: Owners, sys: set<nat>, p: nat, v: nat)
    requires Owned(k, own, sys) && p in k.procs && v < USER_PAGES && Blank(k)
    ensures Shaped(k) && Allowed(k, MapPage(p, v)) && TableReady(k, p, TableIndex(v), EntryIndex(v))
    ensures var r := MapFresh(k, p, TableIndex(v), EntryIndex(v)); r.Some? ==> Blank(r.value)
  {
    var i, j := TableIndex(v), EntryIndex(v);
    var e := k.mem[k.procs[p].pd][i];
    assert e == 0 || Names(own, e, Table(p, i));
    hide Owned, Roots, Known, TablesDown, TablesUp, PagesDown, PagesUp;
  }

  /** Mapping a range: clear tables all along. */
  lemma {:induction false} RangeReadyIfBlank(k: Kernel, own: Owners, sys: set<nat>, p: nat, v: nat, n: nat)
    requires Owned(k, own, sys) && p in k.procs && v + n <= USER_PAGES && Blank(k)
    ensures Shaped(k) && RangeReady(k, p, v, n)
    ensures MapRange(k, p, v, n).Some? ==> Blank(MapRange(k, p, v, n).value)
    decreases n
  {
    hide Owned, MapFresh, Allowed, OwnersAfterMap, LostRange, RangeMapped, TableReady, TableIndex, EntryIndex, Blank;
    ShapedKnown(k, own, sys);
    PagesInTables();
    if n > 0 {
      MapBlank(k, own, sys, p, v);
      var r := MapFresh(k, p, TableIndex(v), EntryIndex(v));
      if r.Some? {
        MapOneOwned(k, own, sys, p, v);
        var own1 := OwnersAfterMap(k, own, p, TableIndex(v), EntryIndex(v));
        RangeReadyIfBlank(r.value, own1, sys + LostRange(k, p, v, 1), p, v + 1, n - 1);
      }
    }
  }

  lemma {:induction false} StackReadyIfBlank(k: Kernel, own: Owners, sys: set<nat>, p: nat, n: nat)
    requires Owned(k, own, sys) && p in k.procs && n <= STACK_PAGES && Blank(k)
    ensures Shaped(k) && StackReady(k, p, n)
    ensures StackPages(k, p, n).Some? ==> Blank(StackPages(k, p, n).value)
    decreases STACK_PAGES - n
  {
    hide Owned, MapFresh, Allowed, OwnersAfterMap, LostRange, RangeMapped, TableReady, TableIndex, EntryIndex, Blank;
    ShapedKnown(k, own, sys);
    PagesInTables();
    if n < STACK_PAGES {
      var v := StackPage(n);
      MapBlank(k, own, sys, p, v);
      var r := MapFresh(k, p, TableIndex(v), EntryIndex(v));
      if r.Some? {
        MapOneOwned(k, own, sys, p, v);
        var own1 := OwnersAfterMap(k, own, p, TableIndex(v), EntryIndex(v));
        StackReadyIfBlank(r.value, own1, sys + LostRange(k, p, v, 1), p, n + 1);
      }
    }
  }

  lemma NewBlank(k: Kernel, p: nat, context: seq<nat>)
    requires Shaped(k) && Blank(k) && |context| == CONTEXT / 4
    ensures NewProcess(k, p, context).Some? ==> Blank(NewProcess(k, p, context).value)
  {
    hide Present;
  }

  lemma CreateReadyIfBlank(k: Kernel, own: Owners, sys: set<nat>, p: nat, context: seq<nat>)
    requires Owned(k, own, sys) && p !in k.procs && |context| == CONTEXT / 4 && Blank(k)
    ensures Shaped(k) && CreateReady(k, p, context)
    ensures CreateProcess(k, p, context).Some? ==> Blank(CreateProcess(k, p, context).value)
  {
    hide Owned, NewProcess, StackPages, StackReady, Blank;
    ShapedKnown(k, own, sys);
    NewBlank(k, p, context);
    if NewProcess(k, p, context).Some? {
      NewTakes(k, p, context);
      NewProcessOwned(k, own, sys, p, context);
      StackReadyIfBlank(NewProcess(k, p, context).value, OwnersAfterNew(k, own, p), sys, p, 0);
    }
  }

  lemma MapTakesPage(k: Kernel, p: nat, i: nat, j: nat)
    requires Shaped(k) && p in k.procs && i < ENTRIES && j < ENTRIES && MapFresh(k, p, i, j).Some?
    ensures TakeFrame(k).Some? && TakeFrame(k).value.1 in MapFresh(k, p, i, j).value.used
  {
  }

  lemma LoadPageBlank(k: Kernel, own: Owners, sys: set<nat>, p: nat, v: nat, row: seq<nat>)
    requires Owned(k, own, sys) && p in k.procs && v < USER_PAGES && |row| == ENTRIES && Blank(k)
    ensures Shaped(k) && TableReady(k, p, TableIndex(v), EntryIndex(v))
    ensures var r := LoadPage(k, p, v, row); r.Some? ==> Blank(r.value)
  {
    hide Owned, TableReady, MapFresh, TableIndex, EntryIndex, Present;
    PagesInTables();
    ShapedKnown(k, own, sys);
    MapBlank(k, own, sys, p, v);
    if LoadPage(k, p, v, row).Some? { MapTakesPage(k, p, TableIndex(v), EntryIndex(v)); }
  }

  lemma {:induction false} TablesClearIfBlank(k: Kernel, own: Owners, sys: set<nat>, p: nat, pages: seq<PageLoad>)
    requires Owned(k, own, sys) && p in k.procs && PagesOk(pages) && Blank(k)
    ensures Shaped(k) && TablesClear(k, p, pages)
    ensures LoadAll(k, p, pages).Some? ==> Blank(LoadAll(k, p, pages).value)
    decreases |pages|
  {
    hide Owned, LoadPage, TableReady, TableIndex, EntryIndex, PageLoaded, LostRange, Blank;
    ShapedKnown(k, own, sys);
    if pages != [] {
      var v, row := pages[0].v, pages[0].row;
      LoadPageBlank(k, own, sys, p, v, row);
      var r := LoadPage(k, p, v, row);
      if r.Some? {
        var own1 := LoadPageEffect(k, own, sys, p, v, row);
        TablesClearIfBlank(r.value, own1, sys + LostRange(k, p, v, 1), p, pages[1..]);
      }
    }
  }

  lemma StartReadyIfBlank(k: Kernel, own: Owners, sys: set<nat>, p: nat, context: seq<nat>, file: seq<nat>,
      segs: seq<Segment>)
    requires Owned(k, own, sys) && p !in k.procs && |context| == CONTEXT / 4
    requires InFile(file, segs) && PagesOk(ImagePages(file, segs)) && Blank(k)
    ensures Shaped(k) && StartReady(k, p, context, file, segs)
    ensures Start(k, p, context, file, segs).Some? ==> Blank(Start(k, p, context, file, segs).value)
  {
    hide Owned, CreateProcess, CreateReady, TablesClear, LoadAll, PagesOk, InFile, ImagePages, RoundUp, Blank,
         IsMapped, InStack, Mapped;
    ShapedKnown(k, own, sys);
    CreateReadyIfBlank(k, own, sys, p, context);
    var r := CreateProcess(k, p, context);
    if r.Some? {
      var own1 := CreateEffect(k, own, sys, p, context);
      TablesClearIfBlank(r.value, own1, sys, p, ImagePages(file, segs));
      if Start(k, p, context, file, segs).Some? {
        RecordBlank(LoadAll(r.value, p, ImagePages(file, segs)).value, Start(k, p, context, file, segs).value);
      }
    }
  }

  lemma RecordBlank(k: Kernel, t: Kernel)
    requires Blank(k) && t.mem == k.mem && t.used == k.used
    ensures Blank(t)
  {
  }

  /** Every call of a laid-out state finds clear tables when no free frame holds a
      present entry before it. */
  lemma ClearIfBlank(k: Kernel, own: Owners, sys: set<nat>, c: Call)
    requires Owned(k, own, sys) && Shaped(k) && Callable(k, c) && Blank(k)
    ensures Clear(k, c)
  {
    hide Owned, Blank, StartReady, RangeReady, ImagePages, InFile, PagesOk, RoundUp, PagesFor;
    match c
    case Load(p, context, file, segs) => StartReadyIfBlank(k, own, sys, p, context, file, segs);
    case Grow(p, increment) => GrowReadyIfBlank(k, own, sys, p, increment);
    case MapRegion(p, size) => RangeReadyIfBlank(k, own, sys, p, k.procs[p].mmapNext / PAGE, PagesFor(size));
    case UnmapRegion(p, addr) =>
    case Store(p, v, x, w) =>
    case SwitchTo(p) =>
    case Timer =>
    case Reap(p) =>
  }

  lemma GrowReadyIfBlank(k: Kernel, own: Owners, sys: set<nat>, p: nat, increment: int)
    requires Owned(k, own, sys) && p in k.procs && k.procs[p].programBreak < WORD && Blank(k)
    requires -0x8000_0000 <= increment < 0x8000_0000
    requires InUserHalf(k.procs[p].programBreak, NewBreak(k.procs[p].programBreak, increment))
    ensures Shaped(k) && SbrkReady(k, p, increment)
  {
    hide Owned, Blank, RangeReady, RoundUp;
    ShapedKnown(k, own, sys);
    var before, after := k.procs[p].programBreak, NewBreak(k.procs[p].programBreak, increment);
    if RoundUp(after) > RoundUp(before) {
      RangeReadyIfBlank(k, own, sys, p, LowPage(before, after), PageCount(before, after));
    }
  }
}
