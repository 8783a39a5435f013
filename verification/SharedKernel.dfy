/** The kernel's part of every address space over whole runs of programs. */
module SharedKernel {
  import opened AddressMap
  import opened Options
  import opened AddressSpaces
  import opened ProcessLives
  import opened MemoryCalls
  import opened MappingRegions
  import opened ProcessCreation
  import opened ElfImage
  import opened CallRuns
  import opened ProgramRuns
  import opened ProgramLives
  import opened KernelHalves

  /** Every call is a run of single steps, and only its reap destroys a process. */
  lemma CallSteps(k: Kernel, own: Owners, sys: set<nat>, images: Images, c: Call, q: nat) returns (ops: seq<Op>)
    requires World(k, own, sys, images) && Shaped(k) && Callable(k, c) && Clear(k, c) && After(k, c).Some?
    ensures Runs(k, ops, After(k, c).value)
    ensures c != Reap(q) ==> Kill(q) !in ops
  {
    hide Runs, World, Owned, NewProcess, Shaped, StartReady, Start, Allowed, Step, IsBytes, PagesOk, InFile,
         ImagePages, SbrkReady, Sbrk, Mmap, Munmap, InUserHalf, MunmapInRange, RangeReady, Destroy, StoreInto;
    WorldParts(k, own, sys, images);
    if c.Load? {
      ops := LoadSteps(k, own, sys, c);
    } else if c.Reap? {
      ops := [Kill(c.p)];
      ReapSteps(k, c.p);
    } else {
      ops := CallIsRun(k, c, if c.Timer? then q else c.p);
    }
  }

  lemma LoadSteps(k: Kernel, own: Owners, sys: set<nat>, c: Call) returns (ops: seq<Op>)
    requires Owned(k, own, sys) && Shaped(k) && c.Load? && Callable(k, c) && Clear(k, c) && After(k, c).Some?
    ensures Runs(k, ops, After(k, c).value) && forall q :: Kill(q) !in ops
  {
    hide Runs, Owned, NewProcess, Shaped, StartReady, Start, IsBytes, PagesOk, InFile, ImagePages;
    var rest := StartIsRun(k, own, sys, c.p, c.context, c.file, c.segs);
    var k1 := NewProcess(k, c.p, c.context).value;
    OneStep(k, Create(c.p, c.context), k1);
    RunsJoin(k, [Create(c.p, c.context)], k1, rest, After(k, c).value);
    ops := [Create(c.p, c.context)] + rest;
  }

  lemma ReapSteps(k: Kernel, p: nat)
    requires Shaped(k) && p in k.procs && k.current != Some(p)
    ensures Runs(k, [Kill(p)], Destroy(k, p))
  {
    hide Runs, Destroy;
    OneStep(k, Kill(p), Destroy(k, p));
  }

  /** Over every run of calls by any processes each process that exists has the
      kernel's entries in its directory, and these do not change. */
  lemma {:induction false} EveryRunShares(k: Kernel, own: Owners, sys: set<nat>, images: Images, calls: seq<Call>,
      t: Kernel, images': Images)
    requires World(k, own, sys, images) && Shaped(k) && CallRun(k, images, calls, t, images')
    requires SharesKernel(k) && k.kernelPd in sys
    ensures Shaped(t) && SharesKernel(t) && t.kernelPd == k.kernelPd && t.mem[t.kernelPd] == k.mem[k.kernelPd]
    decreases |calls|
  {
    hide World, Callable, Clear, Inside, After, ImagesAfter, SharesKernel, Owned, Runs;
    if calls != [] {
      WorldParts(k, own, sys, images);
      var k1 := After(k, calls[0]).value;
      var ops := CallSteps(k, own, sys, images, calls[0], 0);
      RunShares(k, own, sys, ops, k1);
      var own1 := CallKeeps(k, own, sys, images, calls[0]);
      EveryRunShares(k1, own1, sys, ImagesAfter(images, calls[0]), calls[1..], t, images');
    }
  }

  /** The context a new process starts with: user code and data segments, interrupts
      on, the stack pointer at its top. */
  function EntryContext(entry: nat): (r: seq<nat>)
    ensures |r| == CONTEXT / 4
  {
    [0, 0, 0, 0, 0, 0, 0, 0, entry, 0x1B, 0x202, STACK_TOP, 0x23]
  }

  /** After a program is loaded its saved context is the one given, at the address in
      its record, and stays there until it is first dispatched, whatever the others
      call. */
  lemma {:induction false} LoadedWaits(k: Kernel, own: Owners, sys: set<nat>, images: Images, calls: seq<Call>,
      t: Kernel, images': Images, q: nat, context: seq<nat>)
    requires World(k, own, sys, images) && Shaped(k) && CallRun(k, images, calls, t, images')
    requires Saved(k, q, context) && Reap(q) !in calls && SwitchTo(q) !in calls
    ensures Shaped(t) && Saved(t, q, context)
    decreases |calls|
  {
    hide World, Callable, Clear, Inside, After, ImagesAfter, Saved, Owned, Runs;
    if calls != [] {
      WorldParts(k, own, sys, images);
      var k1 := After(k, calls[0]).value;
      var ops := CallSteps(k, own, sys, images, calls[0], q);
      RunSaves(k, own, sys, ops, k1, q, context);
      var own1 := CallKeeps(k, own, sys, images, calls[0]);
      LoadedWaits(k1, own1, sys, ImagesAfter(images, calls[0]), calls[1..], t, images', q, context);
    }
  }

  lemma LoadSaves(k: Kernel, own: Owners, sys: set<nat>, images: Images, c: Call)
    requires World(k, own, sys, images) && Shaped(k) && c.Load? && Callable(k, c) && Clear(k, c) && After(k, c).Some?
    requires k.kernelPd in sys
    ensures Saved(After(k, c).value, c.p, c.context)
  {
    hide World, Owned, NewProcess, Shaped, StartReady, Start, IsBytes, PagesOk, InFile, ImagePages, Saved, Runs;
    WorldParts(k, own, sys, images);
    var rest := StartIsRun(k, own, sys, c.p, c.context, c.file, c.segs);
    NewShares(k, own, sys, c.p, c.context);
    NewKeepsCpu(k, c.p, c.context);
    NewProcessOwned(k, own, sys, c.p, c.context);
    var k1 := NewProcess(k, c.p, c.context).value;
    RunSaves(k1, OwnersAfterNew(k, own, c.p), sys, rest, After(k, c).value, c.p, c.context);
  }

  /** A program loaded returns from its first trap to its entry point, in user mode
      with the stack pointer at the top of its stack. */
  lemma FirstReturn(k: Kernel, own: Owners, sys: set<nat>, images: Images, c: Call, entry: nat)
    requires World(k, own, sys, images) && Shaped(k) && c.Load? && Callable(k, c) && Clear(k, c) && After(k, c).Some?
    requires k.kernelPd in sys && c.context == EntryContext(entry)
    ensures var t := After(k, c).value;
      && Saved(t, c.p, c.context)
      && var a := t.procs[c.p].kernelStack;
        && KernelWord(t, a + 32) == Some(entry) && KernelWord(t, a + 36) == Some(0x1B)
        && KernelWord(t, a + 40) == Some(0x202) && KernelWord(t, a + 44) == Some(0x800_0000)
        && KernelWord(t, a + 48) == Some(0x23) && forall n :: 0 <= n < 8 ==> KernelWord(t, a + 4 * n) == Some(0)
  {
    hide World, Shaped, After, Callable, Clear, KernelWord, Saved, EntryContext;
    LoadSaves(k, own, sys, images, c);
    ContextWords(After(k, c).value, c.p, entry);
  }

  lemma ContextWords(t: Kernel, p: nat, entry: nat)
    requires Shaped(t) && Saved(t, p, EntryContext(entry))
    ensures var a := t.procs[p].kernelStack;
      && KernelWord(t, a + 32) == Some(entry) && KernelWord(t, a + 36) == Some(0x1B)
      && KernelWord(t, a + 40) == Some(0x202) && KernelWord(t, a + 44) == Some(0x800_0000)
      && KernelWord(t, a + 48) == Some(0x23) && forall n :: 0 <= n < 8 ==> KernelWord(t, a + 4 * n) == Some(0)
  {
    hide KernelWord;
    var a, context := t.procs[p].kernelStack, EntryContext(entry);
    ContextWord(t, p, context, 8);
    ContextWord(t, p, context, 9);
    ContextWord(t, p, context, 10);
    ContextWord(t, p, context, 11);
    ContextWord(t, p, context, 12);
    forall n | 0 <= n < 8 ensures KernelWord(t, a + 4 * n) == Some(0) {
      ContextWord(t, p, context, n);
      assert context[n] == 0;
    }
  }

  lemma ContextWord(t: Kernel, p: nat, context: seq<nat>, n: nat)
    requires Shaped(t) && Saved(t, p, context) && n < 13
    ensures KernelWord(t, t.procs[p].kernelStack + 4 * n) == Some(context[n])
  {
    hide KernelWord;
  }

  /** The hardware's walk from a mapped user address: the directory entry and the table
      entry are both present, writable and user, and name the table and the page. */
  lemma UserPageOpen(k: Kernel, own: Owners, sys: set<nat>, p: nat, a: nat)
    requires Owned(k, own, sys) && p in k.procs && a < 0xC000_0000 && IsMapped(k, p, a / 4096)
    ensures var e := k.mem[k.procs[p].pd][a / 0x40_0000];
      && e % 4096 == 7 && e / 4096 in own && own[e / 4096] == Table(p, a / 0x40_0000) && e / 4096 < |k.mem|
      && var x := k.mem[e / 4096][a / 4096 % 1024];
        && x % 4096 == 7 && x / 4096 in own && own[x / 4096] == Page(p, a / 0x40_0000, a / 4096 % 1024)
        && Mapped(k, p, a / 4096) == Some(x)
  {
    hide TablesUp, PagesUp, Roots;
    WalkIndex(a);
    var i, j := TableIndex(a / 4096), EntryIndex(a / 4096);
    var e := k.mem[k.procs[p].pd][i];
    assert Names(own, e, Table(p, i));
    assert Names(own, k.mem[FrameOf(e)][j], Page(p, i, j));
  }

  lemma WalkIndex(a: nat)
    requires a < 0xC000_0000
    ensures TableIndex(a / 4096) == a / 0x40_0000 < 768
  {
  }
}
