/** Every run of the kernel's memory calls by any processes: each address space
    keeps its layout, each frame its one owner, and a program's whole life, from
    loading to reaping, gives every frame back. */
module ProgramLives {
  import opened AddressMap
  import opened Bits
  import opened Options
  import opened Frames
  import opened AddressSpaces
  import opened ProcessLives
  import opened MemoryCalls
  import opened MappingRegions
  import opened ProcessCreation
  import opened ElfImage
  import opened ProcessLayouts
  import opened CallRuns
  import opened ProgramRuns

  type Images = map<nat, Image>

  datatype Call =
    | Load(p: nat, context: seq<nat>, file: seq<nat>, segs: seq<Segment>)
    | Grow(p: nat, increment: int)
    | MapRegion(p: nat, size: nat)
    | UnmapRegion(p: nat, addr: nat)
    | Store(p: nat, v: nat, x: nat, w: nat)
    | SwitchTo(p: nat)
    | Timer
    | Reap(p: nat)

  /** What the call needs to be one at all. */
  predicate Callable(k: Kernel, c: Call)
    requires Shaped(k)
  {
    match c
    case Load(p, context, file, segs) =>
      && p !in k.procs && |context| == CONTEXT / 4 && IsBytes(file)
      && InFile(file, segs) && PagesOk(ImagePages(file, segs))
    case Grow(p, increment) =>
      && p in k.procs && k.procs[p].programBreak < WORD && -0x8000_0000 <= increment < 0x8000_0000
      && InUserHalf(k.procs[p].programBreak, NewBreak(k.procs[p].programBreak, increment))
    case MapRegion(p, size) => p in k.procs && k.procs[p].mmapNext / PAGE + PagesFor(size) <= USER_PAGES
    case UnmapRegion(p, addr) => p in k.procs && MunmapInRange(k.procs[p], addr)
    case Store(p, v, x, w) => p in k.procs && v < USER_PAGES && x < ENTRIES
    case SwitchTo(p) => p in k.procs
    case Timer => true
    case Reap(p) => p in k.procs && k.current != Some(p)
  }

  /** Tables that the call adds get clear frames. */
  predicate Clear(k: Kernel, c: Call)
    requires Shaped(k) && Callable(k, c)
  {
    match c
    case Load(p, context, file, segs) => StartReady(k, p, context, file, segs)
    case Grow(p, increment) => SbrkReady(k, p, increment)
    case MapRegion(p, size) => RangeReady(k, p, k.procs[p].mmapNext / PAGE, PagesFor(size))
    case _ => true
  }

  /** The bounds that the calls do not check. */
  predicate Inside(k: Kernel, images: Images, c: Call)
    requires Shaped(k) && Callable(k, c)
  {
    match c
    case Load(p, context, file, segs) => Fits(file, segs)
    case Grow(p, increment) =>
      p in images && images[p].end <= NewBreak(k.procs[p].programBreak, increment) <= MMAP_BASE
    case MapRegion(p, size) => k.procs[p].mmapNext + PagesFor(size) * PAGE <= STACK_BOTTOM
    case _ => true
  }

  function After(k: Kernel, c: Call): (r: Option<Kernel>)
    requires Shaped(k) && Callable(k, c)
    ensures r.Some? ==> Shaped(r.value)
  {
    match c
    case Load(p, context, file, segs) => Start(k, p, context, file, segs)
    case Grow(p, increment) => Sbrk(k, p, increment)
    case MapRegion(p, size) => Mmap(k, p, size)
    case UnmapRegion(p, addr) =>
      var r := Munmap(k, p, addr);
      if r.Some? then r else Some(k)
    case Store(p, v, x, w) => Some(StoreInto(k, p, v, x, w))
    case SwitchTo(p) => Some(Dispatch(k, p))
    case Timer => Some(Trap(k))
    case Reap(p) => Some(Destroy(k, p))
  }

  function ImagesAfter(images: Images, c: Call): Images {
    match c
    case Load(p, _, file, segs) => if InFile(file, segs) then images[p := ImageOf(file, segs)] else images
    case Reap(p) => images - {p}
    case _ => images
  }

  /** Every frame has one owner, every process its layout. */
  ghost predicate World(k: Kernel, own: Owners, sys: set<nat>, images: Images) {
    && Owned(k, own, sys) && Esp0Current(k)
    && images.Keys == k.procs.Keys
    && forall p :: p in images ==> Layout(k, p, images[p])
  }

  /** Before the first process there is nothing to lay out. */
  lemma BootLaidOut(k: Kernel)
    requires Shaped(k) && k.procs == map[] && k.current == None && forall f :: f in k.used ==> f < |k.mem|
    ensures World(k, map f | f in k.used :: System, k.used, map[])
  {
    hide Owned, Layout;
    BootOwned(k);
  }

  // ----- one call

  /** The processes but one are as they were, that one has its layout. */
  lemma WorldFrom(k: Kernel, own: Owners, sys: set<nat>, images: Images, k': Kernel, own': Owners, p: nat, img: Image)
    requires World(k, own, sys, images) && Owned(k', own', sys) && Esp0Current(k')
    requires k'.procs.Keys == k.procs.Keys + {p} && Layout(k', p, img)
    requires forall q :: q in k.procs && q != p ==> k'.procs[q] == k.procs[q]
    requires forall q, w: nat :: q in k.procs && q != p && w < USER_PAGES ==> IsMapped(k', q, w) == IsMapped(k, q, w)
    ensures World(k', own', sys, images[p := img])
  {
    hide Owned, Layout, IsMapped, Esp0Current;
    var images' := images[p := img];
    forall q | q in images' ensures Layout(k', q, images'[q]) {
      if q != p { OtherLayoutKept(k, k', q, images[q]); }
    }
  }

  lemma SameImage(images: Images, p: nat)
    requires p in images
    ensures images[p := images[p]] == images
  {
  }

  lemma LoadKeeps(k: Kernel, own: Owners, sys: set<nat>, images: Images, c: Call) returns (own': Owners)
    requires World(k, own, sys, images) && c.Load? && Shaped(k) && Callable(k, c) && Clear(k, c)
    requires Inside(k, images, c) && After(k, c).Some?
    ensures World(After(k, c).value, own', sys, ImagesAfter(images, c))
  {
    hide Owned, StartReady, Start, Layout, Fits, IsMapped, IsBytes, InFile, PagesOk, ImageOf;
    own' := StartLaysOutExactly(k, own, sys, c.p, c.context, c.file, c.segs);
    var t := Start(k, c.p, c.context, c.file, c.segs).value;
    WorldFrom(k, own, sys, images, t, own', c.p, ImageOf(c.file, c.segs));
  }

  lemma GrowKeeps(k: Kernel, own: Owners, sys: set<nat>, images: Images, p: nat, increment: int) returns (own': Owners)
    requires World(k, own, sys, images) && Shaped(k) && Callable(k, Grow(p, increment))
    requires Clear(k, Grow(p, increment)) && Inside(k, images, Grow(p, increment))
    requires After(k, Grow(p, increment)).Some?
    ensures World(After(k, Grow(p, increment)).value, own', sys, images)
  {
    hide Owned, SbrkReady, Sbrk, Layout, NewBreak, Mapped, InUserHalf, BreakMoved, LostBySbrk, GrowsInto;
    var img := images[p];
    SbrkKeepsLayoutExactly(k, own, sys, p, img, increment);
    own' := SbrkAccountsExactly(k, own, sys, p, img, increment);
    assert sys + {} == sys;
    var t := Sbrk(k, p, increment).value;
    SameImage(images, p);
    OthersAre(k, t, p);
    WorldFrom(k, own, sys, images, t, own', p, img);
  }

  lemma OthersAre(k: Kernel, k': Kernel, p: nat)
    requires OthersSame(k, k', p)
    ensures forall q, w: nat :: q in k.procs && q != p && w < USER_PAGES ==> IsMapped(k', q, w) == IsMapped(k, q, w)
  {
    hide Mapped;
    forall q, w: nat | q in k.procs && q != p && w < USER_PAGES ensures IsMapped(k', q, w) == IsMapped(k, q, w) {
      assert Mapped(k', q, w) == Mapped(k, q, w);
    }
  }

  lemma MapKeeps(k: Kernel, own: Owners, sys: set<nat>, images: Images, p: nat, size: nat) returns (own': Owners)
    requires World(k, own, sys, images) && Shaped(k) && Callable(k, MapRegion(p, size))
    requires Clear(k, MapRegion(p, size)) && Inside(k, images, MapRegion(p, size)) && After(k, MapRegion(p, size)).Some?
    ensures World(After(k, MapRegion(p, size)).value, own', sys, images)
  {
    hide Owned, RangeReady, Mmap, Layout, Mapped, PagesFor, RegionsOk;
    var img := images[p];
    own' := MmapKeepsLayoutExactly(k, own, sys, p, img, size);
    var t := Mmap(k, p, size).value;
    LayoutRegions(k, p, img);
    MmapOthers(k, own, sys, p, size);
    SameImage(images, p);
    OthersAre(k, t, p);
    WorldFrom(k, own, sys, images, t, own', p, img);
  }

  lemma LayoutRegions(k: Kernel, p: nat, img: Image)
    requires Layout(k, p, img)
    ensures RegionsOk(k.procs[p]) && forall addr: nat :: MunmapInRange(k.procs[p], addr)
  {
    forall addr: nat ensures MunmapInRange(k.procs[p], addr) { RegionsInUserHalf(k.procs[p], img, addr); }
  }

  lemma MmapOthers(k: Kernel, own: Owners, sys: set<nat>, p: nat, size: nat)
    requires Owned(k, own, sys) && p in k.procs && RegionsOk(k.procs[p])
    requires k.procs[p].mmapNext / PAGE + PagesFor(size) <= USER_PAGES && Mmap(k, p, size).Some?
    requires RangeReady(k, p, k.procs[p].mmapNext / PAGE, PagesFor(size))
    ensures var t := Mmap(k, p, size).value;
      && OthersSame(k, t, p)
      && t.current == k.current && t.esp0 == k.esp0 && t.procs == k.procs[p := t.procs[p]]
      && t.procs[p].kernelStack == k.procs[p].kernelStack
  {
    hide Owned, RangeReady, Mmap, Mapped, PagesFor, RegionsOk, OwnersAfterMapRange, LostRange, InRegion, IsMapped;
    MmapEffect(k, own, sys, p, size);
  }

  lemma UnmapKeeps(k: Kernel, own: Owners, sys: set<nat>, images: Images, p: nat, addr: nat) returns (own': Owners)
    requires World(k, own, sys, images) && Shaped(k) && Callable(k, UnmapRegion(p, addr))
    ensures After(k, UnmapRegion(p, addr)).Some? && World(After(k, UnmapRegion(p, addr)).value, own', sys, images)
  {
    hide Owned, Munmap, Layout, Mapped, RegionsOk, MunmapInRange;
    var img := images[p];
    LayoutRegions(k, p, img);
    MunmapKeepsLayout(k, own, sys, p, img, addr);
    if Munmap(k, p, addr).Some? {
      var t := Munmap(k, p, addr).value;
      MunmapOthers(k, own, sys, p, addr);
      own' :| Owned(t, own', sys);
      SameImage(images, p);
      OthersAre(k, t, p);
      WorldFrom(k, own, sys, images, t, own', p, img);
    } else {
      own' := own;
    }
  }

  lemma MunmapOthers(k: Kernel, own: Owners, sys: set<nat>, p: nat, addr: nat)
    requires Owned(k, own, sys) && p in k.procs && RegionsOk(k.procs[p]) && MunmapInRange(k.procs[p], addr)
    requires Munmap(k, p, addr).Some?
    ensures var t := Munmap(k, p, addr).value;
      && OthersSame(k, t, p)
      && t.current == k.current && t.esp0 == k.esp0 && t.procs == k.procs[p := t.procs[p]]
      && t.procs[p].kernelStack == k.procs[p].kernelStack
  {
    hide Owned, Munmap, Mapped, RegionsOk, OwnersAfterUnmapRange, InRegion, IsMapped;
    MunmapEffect(k, own, sys, p, addr);
  }

  /** A state with the same records and the same pages mapped. */
  lemma SamePages(k: Kernel, own: Owners, sys: set<nat>, images: Images, k': Kernel)
    requires World(k, own, sys, images) && Owned(k', own, sys) && Esp0Current(k') && k'.procs == k.procs
    requires forall q, w: nat :: q in k.procs && w < USER_PAGES ==> IsMapped(k', q, w) == IsMapped(k, q, w)
    ensures World(k', own, sys, images)
  {
    hide Owned, Layout, IsMapped, Esp0Current;
    forall q | q in images ensures Layout(k', q, images[q]) {
      OtherLayoutKept(k, k', q, images[q]);
    }
  }

  lemma StoreKeeps(k: Kernel, own: Owners, sys: set<nat>, images: Images, p: nat, v: nat, x: nat, w: nat)
    requires World(k, own, sys, images) && p in k.procs && v < USER_PAGES && x < ENTRIES
    ensures Shaped(k) && World(StoreInto(k, p, v, x, w), own, sys, images)
  {
    hide Owned, Layout, TableIndex, EntryIndex;
    ShapedKnown(k, own, sys);
    var t := StoreInto(k, p, v, x, w);
    PagesInTables();
    StoreOwned(k, own, sys, p, v, x, w);
    match Mapped(k, p, v)
    case None => assert t == k;
    case Some(e) =>
      UnmapOwned(k, own, sys, p, TableIndex(v), EntryIndex(v));
      InMemory(k, own, sys, FrameOf(e));
      var row: seq<nat> := k.mem[FrameOf(e)][x := w];
      PageWritten(k, own, sys, FrameOf(e), row);
      assert t == k.(mem := k.mem[FrameOf(e) := row]);
      SamePages(k, own, sys, images, t);
  }

  lemma InMemory(k: Kernel, own: Owners, sys: set<nat>, f: nat)
    requires Owned(k, own, sys) && f in own
    ensures f < |k.mem| && |k.mem[f]| == ENTRIES
  {
  }

  lemma SwitchKeeps(k: Kernel, own: Owners, sys: set<nat>, images: Images, p: nat)
    requires World(k, own, sys, images) && p in k.procs
    ensures World(Dispatch(k, p), own, sys, images)
  {
    hide Owned, Layout;
    var t := Dispatch(k, p);
    SwitchOwned(k, own, sys, t);
    SamePages(k, own, sys, images, t);
  }

  lemma ReapKeeps(k: Kernel, own: Owners, sys: set<nat>, images: Images, p: nat)
    requires World(k, own, sys, images) && Shaped(k) && p in k.procs && k.current != Some(p)
    ensures World(Destroy(k, p), Others(own, p), sys, images - {p})
  {
    hide Owned, Layout, Frees, Others;
    var t := Destroy(k, p);
    DestroyOwned(k, own, sys, p);
    forall q | q in images - {p} ensures Layout(t, q, images[q]) {
      forall w: nat | w < USER_PAGES ensures IsMapped(t, q, w) == IsMapped(k, q, w) {
      }
      OtherLayoutKept(k, t, q, images[q]);
    }
  }

  /** One call, inside its bounds and with clear tables, keeps the layout of every
      process and the one owner of every frame. */
  lemma CallKeeps(k: Kernel, own: Owners, sys: set<nat>, images: Images, c: Call) returns (own': Owners)
    requires World(k, own, sys, images) && Shaped(k) && Callable(k, c) && Clear(k, c) && Inside(k, images, c)
    requires After(k, c).Some?
    ensures World(After(k, c).value, own', sys, ImagesAfter(images, c))
  {
    hide Owned, Layout, Callable, Clear, Inside, World;
    match c
    case Load(_, _, _, _) => own' := LoadKeeps(k, own, sys, images, c);
    case Grow(p, increment) => own' := GrowKeeps(k, own, sys, images, p, increment);
    case MapRegion(p, size) => own' := MapKeeps(k, own, sys, images, p, size);
    case UnmapRegion(p, addr) => own' := UnmapKeeps(k, own, sys, images, p, addr);
    case Store(p, v, x, w) =>
      CallableParts(k, c);
      StoreKeeps(k, own, sys, images, p, v, x, w);
      own' := own;
    case SwitchTo(p) =>
      CallableParts(k, c);
      SwitchKeeps(k, own, sys, images, p);
      own' := own;
    case Timer =>
      TrapIsSame(k, own, sys, images);
      own' := own;
    case Reap(p) =>
      CallableParts(k, c);
      ReapKeeps(k, own, sys, images, p);
      own' := Others(own, p);
  }

  lemma CallableParts(k: Kernel, c: Call)
    requires Shaped(k) && Callable(k, c)
    ensures c.Store? ==> c.p in k.procs && c.v < USER_PAGES && c.x < ENTRIES
    ensures c.SwitchTo? ==> c.p in k.procs
    ensures c.Reap? ==> c.p in k.procs && k.current != Some(c.p)
  {
  }

  lemma TrapIsSame(k: Kernel, own: Owners, sys: set<nat>, images: Images)
    requires World(k, own, sys, images)
    ensures Trap(k) == k
  {
    SavedStackSame(k);
    hide *;
  }

  // ----- every run

  ghost predicate CallRun(k: Kernel, images: Images, calls: seq<Call>, t: Kernel, images': Images)
    requires Shaped(k)
    decreases |calls|
  {
    if calls == [] then t == k && images' == images
    else
      && Callable(k, calls[0]) && Clear(k, calls[0]) && Inside(k, images, calls[0]) && After(k, calls[0]).Some?
      && CallRun(After(k, calls[0]).value, ImagesAfter(images, calls[0]), calls[1..], t, images')
  }

  /** Over every run of calls by any processes, started from any laid-out state:
      each address space is exactly image, heap, regions and stack, and each frame
      has one owner. Before the first process the state is laid out (`BootOwned`). */
  lemma {:induction false} EveryRunLaidOut(k: Kernel, own: Owners, sys: set<nat>, images: Images, calls: seq<Call>,
      t: Kernel, images': Images) returns (own': Owners)
    requires World(k, own, sys, images) && Shaped(k) && CallRun(k, images, calls, t, images')
    ensures World(t, own', sys, images')
    decreases |calls|
  {
    hide World, Callable, Clear, Inside, After, ImagesAfter;
    if calls == [] {
      own' := own;
    } else {
      var own1 := CallKeeps(k, own, sys, images, calls[0]);
      var k1 := After(k, calls[0]).value;
      own' := EveryRunLaidOut(k1, own1, sys, ImagesAfter(images, calls[0]), calls[1..], t, images');
    }
  }

  // ----- the life of a program

  predicate CallAbout(c: Call, p: nat) {
    match c
    case Load(_, _, _, _) => false
    case Grow(q, _) => q == p
    case MapRegion(q, _) => q == p
    case UnmapRegion(q, _) => q == p
    case Store(q, _, _, _) => q == p
    case SwitchTo(_) => true
    case Timer => true
    case Reap(_) => false
  }

  lemma CallIsRun(k: Kernel, c: Call, p: nat) returns (ops: seq<Op>)
    requires Shaped(k) && Callable(k, c) && Clear(k, c) && After(k, c).Some? && CallAbout(c, p)
    ensures Runs(k, ops, After(k, c).value) && AllAbout(ops, p)
  {
    hide Runs, Shaped, Sbrk, Mmap, Munmap, RangeReady, SbrkReady, InUserHalf, MunmapInRange, SbrkOps, MmapOps,
         MunmapOps, StoreInto;
    match c
    case Grow(_, increment) =>
      SbrkRuns(k, p, increment);
      ops := SbrkOps(k.procs[p].programBreak, p, NewBreak(k.procs[p].programBreak, increment));
    case MapRegion(_, size) =>
      MmapRuns(k, p, size);
      ops := MmapOps(p, k.procs[p], PagesFor(size));
    case UnmapRegion(_, addr) =>
      MunmapRuns(k, p, addr);
      ops := MunmapOps(p, k.procs[p], addr);
    case Store(_, v, x, w) =>
      ops := [UserWrite(p, v, x, w)];
      OneStep(k, ops[0], After(k, c).value);
    case SwitchTo(q) =>
      ops := [Switch(q)];
      OneStep(k, ops[0], After(k, c).value);
    case Timer =>
      ops := [Interrupt];
      OneStep(k, ops[0], After(k, c).value);
  }

  lemma {:induction false} CallsAreRun(k: Kernel, images: Images, p: nat, calls: seq<Call>, t: Kernel, images': Images)
      returns (ops: seq<Op>)
    requires Shaped(k) && CallRun(k, images, calls, t, images') && forall c :: c in calls ==> CallAbout(c, p)
    ensures Runs(k, ops, t) && AllAbout(ops, p)
    decreases |calls|
  {
    hide Callable, Clear, Inside, After, ImagesAfter, Runs, CallAbout, OpAbout, Shaped;
    if calls == [] {
      NoSteps(k);
      ops := [];
    } else {
      var k1 := After(k, calls[0]).value;
      var a := CallIsRun(k, calls[0], p);
      var b := CallsAreRun(k1, ImagesAfter(images, calls[0]), p, calls[1..], t, images');
      RunsJoin(k, a, k1, b, t);
      ops := a + b;
    }
  }

  /** Loading a program is a run behind the making of its directory and stack. */
  lemma StartIsRun(k: Kernel, own: Owners, sys: set<nat>, p: nat, context: seq<nat>, file: seq<nat>,
      segs: seq<Segment>) returns (ops: seq<Op>)
    requires Owned(k, own, sys) && p !in k.procs && |context| == CONTEXT / 4
    requires InFile(file, segs) && PagesOk(ImagePages(file, segs))
    requires StartReady(k, p, context, file, segs) && Start(k, p, context, file, segs).Some?
    ensures Shaped(k) && NewProcess(k, p, context).Some?
    ensures Runs(NewProcess(k, p, context).value, ops, Start(k, p, context, file, segs).value) && AllAbout(ops, p)
  {
    hide Owned, NewProcess, StackPages, StackReady, TablesClear, LoadAll, ImagePages, InFile, PagesOk, RoundUp,
         Runs, StackOps, LoadOps, IsMapped, Mapped, InStack;
    ShapedKnown(k, own, sys);
    var k1 := NewProcess(k, p, context).value;
    var k2 := CreateProcess(k, p, context).value;
    StackRuns(k1, p, 0);
    var own2 := CreateEffect(k, own, sys, p, context);
    var pages := ImagePages(file, segs);
    LoadRuns(k2, own2, sys, p, pages);
    var k3 := LoadAll(k2, p, pages).value;
    var t := Start(k, p, context, file, segs).value;
    var last := RecordRuns(k3, p, RoundUp(ImageEnd(segs)), t);
    RunsJoin(k1, StackOps(p, 0), k2, LoadOps(p, pages), k3);
    RunsJoin(k1, StackOps(p, 0) + LoadOps(p, pages), k3, last, t);
    ops := StackOps(p, 0) + LoadOps(p, pages) + last;
  }

  lemma RecordRuns(k: Kernel, p: nat, b: nat, t: Kernel) returns (ops: seq<Op>)
    requires Shaped(k) && p in k.procs
    requires t == k.(procs := k.procs[p := k.procs[p].(programBreak := b, mmapNext := MMAP_BASE)])
    ensures Runs(k, ops, t) && AllAbout(ops, p)
  {
    hide Shaped, Runs;
    var k1 := SetProgramBreak(k, p, b);
    OneStep(k, SetBreak(p, b), k1);
    assert t.procs == k1.procs[p := k1.procs[p].(mmapNext := MMAP_BASE, regions := k.procs[p].regions)];
    OneStep(k1, SetRegions(p, MMAP_BASE, k.procs[p].regions), t);
    RunsJoin(k, [SetBreak(p, b)], k1, [SetRegions(p, MMAP_BASE, k.procs[p].regions)], t);
    ops := [SetBreak(p, b)] + [SetRegions(p, MMAP_BASE, k.procs[p].regions)];
  }

  /** The whole life of a program conserves frames: loaded, then growing and
      shrinking its heap, mapping and unmapping regions in any mix, interrupted and
      switched, and at last reaped, it leaves the same frames in use, the same other
      processes, and every frame that was in use before as it was; each of its
      frames is freed once. */
  lemma ProgramLifeConserves(k0: Kernel, own0: Owners, sys: set<nat>, images: Images, c: Call, calls: seq<Call>,
      t: Kernel, images': Images)
    requires World(k0, own0, sys, images) && Shaped(k0) && c.Load? && CallRun(k0, images, [c] + calls, t, images')
    requires forall d :: d in calls ==> CallAbout(d, c.p)
    requires t.current != Some(c.p)
    ensures Shaped(t) && c.p in t.procs && FreedOnce(t.used, Frees(t, c.p))
    ensures Destroy(t, c.p).used == k0.used && Destroy(t, c.p).procs == k0.procs
    ensures |t.mem| == |k0.mem| && forall f :: f in k0.used && f < |t.mem| ==> t.mem[f] == k0.mem[f]
  {
    hide *;
    var own' := EveryRunLaidOut(k0, own0, sys, images, [c] + calls, t, images');
    var ops := LifeIsRun(k0, own0, sys, images, c, calls, t, images');
    WorldParts(k0, own0, sys, images);
    WorldParts(t, own', sys, images');
    LifeFrom(k0, own0, sys, c.p, c.context, ops, t, own');
  }

  /** A program that is reaped leaves nothing, whatever the other processes called
      during its life: its frames are freed, each once and no other, every frame that
      stays in use is the kernel's, the same ones as before the run, or belongs to a
      process that still exists, and those are laid out as they were. */
  lemma ReapLeavesNothing(k0: Kernel, own0: Owners, sys: set<nat>, images: Images, calls: seq<Call>, t: Kernel,
      images': Images, p: nat) returns (own': Owners)
    requires World(k0, own0, sys, images) && Shaped(k0) && CallRun(k0, images, calls, t, images')
    requires p in t.procs && t.current != Some(p)
    ensures Shaped(t) && Owned(t, own', sys) && FreedOnce(t.used, Frees(t, p))
    ensures forall f: nat :: f in Frees(t, p) <==> Holds(own', f, p)
    ensures var u := Destroy(t, p);
      && World(u, Others(own', p), sys, images' - {p}) && u.procs == t.procs - {p} && u.mem == t.mem
      && (forall f :: f in u.used <==> f in t.used && f !in Frees(t, p))
      && forall f :: f in u.used - sys ==> exists q :: q in u.procs && Holds(Others(own', p), f, q)
  {
    hide Owned, Layout, World, CallRun, Frees, Others;
    own' := EveryRunLaidOut(k0, own0, sys, images, calls, t, images');
    WorldParts(t, own', sys, images');
    ShapedKnown(t, own', sys);
    DestroyFreesOwned(t, own', sys, p);
    ReapKeeps(t, own', sys, images', p);
    var u := Destroy(t, p);
    WorldParts(u, Others(own', p), sys, images' - {p});
    forall f | f in u.used - sys ensures exists q :: q in u.procs && Holds(Others(own', p), f, q) {
      OwnerLives(u, Others(own', p), sys, f);
    }
  }

  lemma WorldParts(k: Kernel, own: Owners, sys: set<nat>, images: Images)
    requires World(k, own, sys, images)
    ensures Owned(k, own, sys) && Esp0Current(k) && images.Keys == k.procs.Keys
  {
    hide Owned, Layout;
  }

  lemma LifeIsRun(k0: Kernel, own0: Owners, sys: set<nat>, images: Images, c: Call, calls: seq<Call>,
      t: Kernel, images': Images) returns (ops: seq<Op>)
    requires World(k0, own0, sys, images) && Shaped(k0) && c.Load? && CallRun(k0, images, [c] + calls, t, images')
    requires forall d :: d in calls ==> CallAbout(d, c.p)
    ensures c.p !in k0.procs && |c.context| == CONTEXT / 4 && NewProcess(k0, c.p, c.context).Some?
    ensures Runs(NewProcess(k0, c.p, c.context).value, ops, t) && AllAbout(ops, c.p)
  {
    hide Runs, World, Owned, StartReady, Start, NewProcess, Inside, CallAbout, OpAbout, Shaped, ImagesAfter,
         IsBytes, PagesOk, InFile, ImagePages;
    WorldParts(k0, own0, sys, images);
    assert ([c] + calls)[0] == c && ([c] + calls)[1..] == calls;
    var k1 := After(k0, c).value;
    assert k1 == Start(k0, c.p, c.context, c.file, c.segs).value;
    var a := StartIsRun(k0, own0, sys, c.p, c.context, c.file, c.segs);
    var b := CallsAreRun(k1, ImagesAfter(images, c), c.p, calls, t, images');
    RunsJoin(NewProcess(k0, c.p, c.context).value, a, k1, b, t);
    ops := a + b;
  }

  lemma LifeFrom(k0: Kernel, own0: Owners, sys: set<nat>, p: nat, context: seq<nat>, ops: seq<Op>,
                 t: Kernel, own': Owners)
    requires Owned(k0, own0, sys) && Esp0Current(k0) && p !in k0.procs && |context| == CONTEXT / 4
    requires Shaped(k0) && NewProcess(k0, p, context).Some? && Runs(NewProcess(k0, p, context).value, ops, t)
    requires AllAbout(ops, p) && t.current != Some(p) && Owned(t, own', sys)
    ensures Shaped(t) && p in t.procs && FreedOnce(t.used, Frees(t, p))
    ensures Destroy(t, p).used == k0.used && Destroy(t, p).procs == k0.procs
    ensures |t.mem| == |k0.mem| && forall f :: f in k0.used && f < |t.mem| ==> t.mem[f] == k0.mem[f]
  {
    hide Owned, NewProcess, Runs, Shaped, OpAbout, FreedOnce, Frees, Destroy, LostRun;
    LifeConserves(k0, own0, sys, p, context, ops, t);
    NothingLostOver(k0, own0, sys, p, context, ops, t, own');
    assert k0.used + {} == k0.used;
  }

  lemma NothingLostOver(k0: Kernel, own0: Owners, sys: set<nat>, p: nat, context: seq<nat>, ops: seq<Op>, t: Kernel,
      own': Owners)
    requires Owned(k0, own0, sys) && Esp0Current(k0) && p !in k0.procs && |context| == CONTEXT / 4
    requires Shaped(k0) && NewProcess(k0, p, context).Some? && Runs(NewProcess(k0, p, context).value, ops, t)
    requires Owned(t, own', sys)
    ensures LostRun(NewProcess(k0, p, context).value, ops, t) == {}
  {
    hide *;
    var k1 := NewProcess(k0, p, context).value;
    NewKeepsCpu(k0, p, context);
    var own1 := OwnersAfterNew(k0, own0, p);
    NewProcessOwned(k0, own0, sys, p, context);
    RunOwned(k1, own1, sys, ops, t);
    LostApart(k1, own1, sys, ops, t);
    AccountsAgree(t, OwnersRun(k1, own1, ops, t), sys + LostRun(k1, ops, t), own', sys);
    Absorbed(sys, LostRun(k1, ops, t));
  }

  lemma Absorbed(a: set<nat>, b: set<nat>)
    requires a + b == a && b !! a
    ensures b == {}
  {
    assert b <= a + b;
    assert b == b * a;
  }
}
