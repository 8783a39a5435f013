/** The paging code, process creation and destruction and the memory calls, as
    they change physical memory, the frame bitmap and the process records. */
module KernelMemory {
  import opened AddressMap
  import opened Bits
  import opened Frames
  import opened Options
  import opened AddressSpaces
  import opened ProcessLives
  import opened MemoryCalls
  import opened ProcessCreation
  import opened MappingRegions
  import opened Sequences

  /** Every user directory entry names a frame that exists. */
  ghost predicate TablesInRange(k: Kernel)
    requires Shaped(k)
  {
    forall p, i :: p in k.procs && 0 <= i < USER_ENTRIES ==> FrameOf(k.mem[k.procs[p].pd][i]) < |k.mem|
  }

  lemma OwnedInRange(k: Kernel, own: Owners, sys: set<nat>)
    requires Owned(k, own, sys)
    ensures Shaped(k) && TablesInRange(k)
  {
    forall p, i | p in k.procs && 0 <= i < USER_ENTRIES ensures FrameOf(k.mem[k.procs[p].pd][i]) < |k.mem| {
      var e := k.mem[k.procs[p].pd][i];
      assert e == 0 || Names(own, e, Table(p, i));
    }
  }

  lemma MapFreshInRange(k: Kernel, p: nat, i: nat, j: nat)
    requires Shaped(k) && TablesInRange(k) && p in k.procs && i < USER_ENTRIES && j < ENTRIES
    requires MapFresh(k, p, i, j).Some?
    ensures TablesInRange(MapFresh(k, p, i, j).value) && MapFresh(k, p, i, j).value.procs == k.procs
  {
    hide FrameOf;
  }

  lemma CreatedInRange(k: Kernel, own: Owners, sys: set<nat>, p: nat, context: seq<nat>)
    requires Owned(k, own, sys) && p !in k.procs && |context| == CONTEXT / 4
    requires ProcessLives.NewProcess(k, p, context).Some?
    ensures TablesInRange(ProcessLives.NewProcess(k, p, context).value)
  {
    NewProcessOwned(k, own, sys, p, context);
    OwnedInRange(ProcessLives.NewProcess(k, p, context).value, OwnersAfterNew(k, own, p), sys);
  }

  lemma ElementsJoin(a: seq<nat>, b: seq<nat>)
    ensures Elements(a + b) == Elements(a) + Elements(b)
  {
  }

  class Memory {
    const frames: FrameAllocator
    const mem: array<seq<nat>>
    const kernelPd: nat
    var procs: map<nat, Process>
    var current: Option<nat>
    var esp0: nat

    ghost function State(): Kernel
      reads this, mem, frames.bitmap
    {
      Kernel(mem[..], Used(frames.bitmap[..]), kernelPd, procs, current, esp0)
    }

    ghost predicate Valid()
      reads this, mem, frames.bitmap
    {
      mem.Length == 8 * frames.bitmap.Length && Shaped(State())
    }

    /** The state `paging_kernel_init` leaves: no process yet. */
    constructor (frames: FrameAllocator, mem: array<seq<nat>>, kernelPd: nat)
      requires mem.Length == 8 * frames.bitmap.Length && kernelPd < mem.Length
      requires forall f :: 0 <= f < mem.Length ==> |mem[f]| == ENTRIES
      ensures Valid() && this.frames == frames && this.mem == mem
      ensures State() == Kernel(mem[..], Used(frames.bitmap[..]), kernelPd, map[], None, 0)
    {
      this.frames := frames;
      this.mem := mem;
      this.kernelPd := kernelPd;
      procs := map[];
      current := None;
      esp0 := 0;
    }

    /** A directory or table entry is written: one word of one frame. */
    method WriteEntry(f: nat, i: nat, w: nat)
      requires Valid() && f < mem.Length && i < ENTRIES
      modifies mem
      ensures Valid() && State() == old(State()).(mem := Poke(old(mem[..]), f, i, w))
    {
      var row: seq<nat> := mem[f][i := w];
      mem[f] := row;
      assert mem[..] == Poke(old(mem[..]), f, i, w);
    }

    method TakeFrame() returns (r: Option<nat>)
      requires Valid()
      modifies frames.bitmap
      ensures Valid()
      ensures match AddressSpaces.TakeFrame(old(State()))
              case None => r.None? && State() == old(State())
              case Some((k1, f)) => r == Some(f * PAGE) && State() == k1 && f < mem.Length
    {
      ghost var before := frames.bitmap[..];
      r := frames.Alloc();
      match FirstFit(before)
      case None =>
      case Some(f) => MarkUsed(before, f);
    }

    /** `paging_map`; false stands for the allocator's panic. */
    method PagingMap(pd: nat, paddr: nat, vaddr: nat) returns (ok: bool)
      requires Valid() && pd < mem.Length && vaddr < WORD && paddr % PAGE == 0
      requires FrameOf(mem[pd][vaddr / 0x40_0000]) < mem.Length
      modifies mem, frames.bitmap
      ensures Valid()
      ensures var v := vaddr / PAGE;
        var r := AddressSpaces.PagingMap(old(State()), pd, paddr / PAGE, TableIndex(v), EntryIndex(v));
        ok == r.Some? && (ok ==> State() == r.value)
    {
      var pdIndex := vaddr / 0x40_0000;
      assert pdIndex == TableIndex(vaddr / PAGE);
      if mem[pd][pdIndex] == 0 {
        var table := TakeFrame();
        if table.None? {
          return false;
        }
        WriteEntry(pd, pdIndex, table.value + USER_FLAGS);
      }
      var ptIndex := (vaddr / 0x1000) % 0x400;
      var pt := FrameOf(mem[pd][pdIndex]);
      WriteEntry(pt, ptIndex, paddr + USER_FLAGS);
      ok := true;
    }

    /** A frame is taken and mapped at page `v` of process `p`. */
    method MapPage(p: nat, v: nat) returns (ok: bool)
      requires Valid() && TablesInRange(State()) && p in procs && v < USER_PAGES
      modifies mem, frames.bitmap
      ensures Valid()
      ensures var r := MapFresh(old(State()), p, TableIndex(v), EntryIndex(v));
        ok == r.Some? && (ok ==> State() == r.value && TablesInRange(State()))
    {
      ghost var k := State();
      var frame := TakeFrame();
      if frame.None? {
        return false;
      }
      ok := PagingMap(procs[p].pd, frame.value, v * PAGE);
      if ok {
        MapFreshInRange(k, p, TableIndex(v), EntryIndex(v));
      }
    }

    /** The loops of sbrk and mmap over the pages they map. */
    method MapPages(p: nat, v: nat, n: nat) returns (ok: bool)
      requires Valid() && TablesInRange(State()) && p in procs && v + n <= USER_PAGES
      modifies mem, frames.bitmap
      ensures Valid()
      ensures var r := MapRange(old(State()), p, v, n);
        ok == r.Some? && (ok ==> State() == r.value)
    {
      hide Shaped, MapFresh, TablesInRange;
      var i := 0;
      while i < n
        invariant i <= n && Valid() && TablesInRange(State()) && procs == old(procs)
        invariant MapRange(State(), p, v + i, n - i) == MapRange(old(State()), p, v, n)
      {
        ok := MapPage(p, v + i);
        if !ok {
          return;
        }
        i := i + 1;
      }
      ok := true;
    }

    /** `__syscall_unmap_pages`. */
    method UnmapPages(p: nat, v: nat, n: nat, ghost own: Owners, ghost sys: set<nat>)
      requires Valid() && Owned(State(), own, sys) && p in procs && v + n <= USER_PAGES
      modifies mem, frames.bitmap
      ensures Valid() && State() == UnmapRange(old(State()), p, v, n)
    {
      hide Owned, Shaped, UnmapPage, OwnersAfterUnmap;
      ghost var owners := own;
      var i := 0;
      while i < n
        invariant i <= n && Valid() && Owned(State(), owners, sys) && procs == old(procs)
        invariant UnmapRange(State(), p, v + i, n - i) == UnmapRange(old(State()), p, v, n)
      {
        ghost var k := State();
        ghost var next := OwnersAfterUnmap(k, owners, p, TableIndex(v + i), EntryIndex(v + i));
        PagesInTables();
        UnmapOwned(k, owners, sys, p, TableIndex(v + i), EntryIndex(v + i));
        Unmap(p, v + i, owners, sys);
        owners := next;
        i := i + 1;
      }
    }

    method Unmap(p: nat, v: nat, ghost own: Owners, ghost sys: set<nat>)
      requires Valid() && Owned(State(), own, sys) && p in procs && v < USER_PAGES
      modifies mem, frames.bitmap
      ensures Valid() && State() == UnmapPage(old(State()), p, TableIndex(v), EntryIndex(v))
    {
      hide Owned, Poke;
      OwnedInRange(State(), own, sys);
      UnmapInRange(State(), own, sys, p, TableIndex(v), EntryIndex(v));
      var pde := mem[procs[p].pd][v / ENTRIES];
      if !Present(pde) {
        return;
      }
      var pt := FrameOf(pde);
      var pte := mem[pt][v % ENTRIES];
      if Present(pte) {
        frames.Free(pte / PAGE * PAGE);
        WriteEntry(pt, v % ENTRIES, 0);
      }
    }

    /** `__syscall_sbrk`; the old break is the value returned to the caller. */
    method Sbrk(p: nat, increment: int, ghost own: Owners, ghost sys: set<nat>) returns (ok: bool, oldBreak: nat)
      requires Valid() && Owned(State(), own, sys) && p in procs && procs[p].programBreak < WORD
      requires -0x8000_0000 <= increment < 0x8000_0000
      requires InUserHalf(procs[p].programBreak, NewBreak(procs[p].programBreak, increment))
      modifies this`procs, mem, frames.bitmap
      ensures oldBreak == old(procs[p].programBreak)
      ensures var r := MemoryCalls.Sbrk(old(State()), p, increment);
        ok == r.Some? && (ok ==> Valid() && State() == r.value)
    {
      hide Owned, Shaped, MapRange, UnmapRange, RoundUp;
      OwnedInRange(State(), own, sys);
      oldBreak := procs[p].programBreak;
      var newBreak := NewBreak(oldBreak, increment);
      var oldPage, newPage := RoundUp(oldBreak), RoundUp(newBreak);
      ok := true;
      if newPage > oldPage {
        ok := MapPages(p, oldPage / PAGE, (newPage - oldPage) / PAGE);
      } else {
        UnmapPages(p, newPage / PAGE, (oldPage - newPage) / PAGE, own, sys);
      }
      if ok {
        ghost var k := State();
        procs := procs[p := procs[p].(programBreak := newBreak)];
        assert State() == SetProgramBreak(k, p, newBreak);
      }
    }

    /** `__syscall_mmap`. */
    method Mmap(p: nat, size: nat, ghost own: Owners, ghost sys: set<nat>) returns (ok: bool, base: nat)
      requires Valid() && Owned(State(), own, sys) && p in procs
      requires procs[p].mmapNext / PAGE + PagesFor(size) <= USER_PAGES
      modifies this`procs, mem, frames.bitmap
      ensures base == old(procs[p].mmapNext)
      ensures var r := MappingRegions.Mmap(old(State()), p, size);
        ok == r.Some? && (ok ==> Valid() && State() == r.value)
    {
      hide Owned, Shaped, MapRange, PagesFor;
      OwnedInRange(State(), own, sys);
      var pages := PagesFor(size);
      base := procs[p].mmapNext;
      ok := MapPages(p, base / PAGE, pages);
      if ok {
        ghost var k := State();
        var regions := procs[p].regions + [Region(base, pages * PAGE)];
        procs := procs[p := procs[p].(mmapNext := base + pages * PAGE, regions := regions)];
        assert State() == WithRegions(k, p, base + pages * PAGE, regions);
      }
    }

    /** `__syscall_munmap`; false is its error return. */
    method Munmap(p: nat, addr: nat, ghost own: Owners, ghost sys: set<nat>) returns (ok: bool)
      requires Valid() && Owned(State(), own, sys) && p in procs && MunmapInRange(procs[p], addr)
      modifies this`procs, mem, frames.bitmap
      ensures Valid()
      ensures var r := MappingRegions.Munmap(old(State()), p, addr);
        ok == r.Some? && State() == if ok then r.value else old(State())
    {
      hide Owned, UnmapRange;
      var regions := procs[p].regions;
      var i := 0;
      while i < |regions| && regions[i].base != addr
        invariant i <= |regions|
        invariant forall a :: 0 <= a < i ==> regions[a].base != addr
        invariant i <= RegionAt(regions, addr)
      {
        i := i + 1;
      }
      if i == |regions| {
        return false;
      }
      UnmapPages(p, addr / PAGE, regions[i].len / PAGE, own, sys);
      ghost var k := State();
      var rest := Dropped(regions, i);
      procs := procs[p := procs[p].(regions := rest)];
      assert State() == WithRegions(k, p, procs[p].mmapNext, rest);
      ok := true;
    }

    /** The two loops of `paging_create_pd`. */
    method FillDirectory(d: nat)
      requires Valid() && d < mem.Length
      modifies mem
      ensures Valid() && mem[..] == old(mem[..])[d := UserHalfCleared(old(mem[kernelPd]))]
    {
      ghost var before, shared := mem[d], mem[kernelPd];
      var i := 0;
      while i < USER_ENTRIES
        invariant 0 <= i <= USER_ENTRIES && |mem[d]| == ENTRIES
        invariant forall f :: 0 <= f < mem.Length && f != d ==> mem[f] == old(mem[f])
        invariant forall x :: 0 <= x < ENTRIES ==> mem[d][x] == if x < i then 0 else before[x]
      {
        var row: seq<nat> := mem[d][i := 0];
        mem[d] := row;
        i := i + 1;
      }
      while i < ENTRIES
        invariant USER_ENTRIES <= i <= ENTRIES && |mem[d]| == ENTRIES
        invariant forall f :: 0 <= f < mem.Length && f != d ==> mem[f] == old(mem[f])
        invariant forall x :: 0 <= x < ENTRIES ==>
                    mem[d][x] == if x < USER_ENTRIES then 0 else if x < i then shared[x] else before[x]
      {
        var row: seq<nat> := mem[d][i := mem[kernelPd][i]];
        mem[d] := row;
        i := i + 1;
      }
      assert mem[d] == UserHalfCleared(shared);
    }

    /** `paging_create_pd` and the rest of `proc_create` before its loop. */
    method NewProcess(p: nat, context: seq<nat>) returns (ok: bool)
      requires Valid() && |context| == CONTEXT / 4
      modifies this`procs, mem, frames.bitmap
      ensures var r := ProcessLives.NewProcess(old(State()), p, context);
        ok == r.Some? && (ok ==> Valid() && State() == r.value)
    {
      ghost var k := State();
      var dir := TakeFrame();
      if dir.None? {
        return false;
      }
      var stack := TakeFrame();
      if stack.None? {
        return false;
      }
      var d, s := FrameOf(dir.value), FrameOf(stack.value);
      FillDirectory(d);
      ghost var cleared := mem[..];
      var top := WithContext(mem[s], context);
      mem[s] := top;
      assert mem[..] == cleared[s := top];
      procs := procs[p := Process(d, KERNEL_BASE + stack.value + PAGE - CONTEXT, 0, 0, [])];
      ok := true;
    }

    /** `proc_create`. */
    method ProcCreate(p: nat, context: seq<nat>, ghost own: Owners, ghost sys: set<nat>) returns (ok: bool)
      requires Valid() && Owned(State(), own, sys) && p !in procs && |context| == CONTEXT / 4
      modifies this`procs, mem, frames.bitmap
      ensures var r := CreateProcess(old(State()), p, context);
        ok == r.Some? && (ok ==> Valid() && State() == r.value)
    {
      hide Owned, MapFresh, ProcessLives.NewProcess, Shaped;
      ok := NewProcess(p, context);
      if !ok {
        return;
      }
      CreatedInRange(old(State()), own, sys, p, context);
      ghost var k := State();
      hide TablesInRange;
      var i := 0;
      while i < STACK_PAGES
        invariant i <= STACK_PAGES && Valid() && TablesInRange(State()) && procs == k.procs
        invariant StackPages(State(), p, i) == StackPages(k, p, 0)
      {
        ok := MapPage(p, (STACK_TOP - (i + 1) * PAGE) / PAGE);
        if !ok {
          return;
        }
        i := i + 1;
      }
    }

    method FreeFrame(f: nat)
      requires Valid() && f < mem.Length
      modifies frames.bitmap
      ensures Valid() && State() == old(State()).(used := old(State()).used - {f})
    {
      frames.Free(f * PAGE);
    }

    /** The inner loop of `proc_destroy`: the pages of one table. */
    method FreePages(t: nat)
      requires Valid() && t < mem.Length
      requires forall f :: f in PageFrees(mem[t], 0) ==> f < mem.Length
      modifies frames.bitmap
      ensures Valid() && State() == old(State()).(used := old(State()).used - Elements(PageFrees(mem[t], 0)))
    {
      ghost var k := State();
      ghost var done := [];
      var j := 0;
      while j < ENTRIES
        invariant j <= ENTRIES && Valid() && State() == k.(used := k.used - Elements(done))
        invariant done + PageFrees(mem[t], j) == PageFrees(mem[t], 0)
      {
        var pte := mem[t][j];
        if Present(pte) {
          assert PageFrees(mem[t], j) == [FrameOf(pte)] + PageFrees(mem[t], j + 1);
          assert FrameOf(pte) in PageFrees(mem[t], 0);
          FreeFrame(FrameOf(pte));
          ElementsJoin(done, [FrameOf(pte)]);
          done := done + [FrameOf(pte)];
        }
        j := j + 1;
      }
      assert done == PageFrees(mem[t], 0);
    }

    method FreeTable(t: nat)
      requires Valid() && t < mem.Length
      requires forall f :: f in PageFrees(mem[t], 0) ==> f < mem.Length
      modifies frames.bitmap
      ensures Valid()
      ensures State() == old(State()).(used := old(State()).used - Elements(PageFrees(mem[t], 0) + [t]))
    {
      FreePages(t);
      FreeFrame(t);
      ElementsJoin(PageFrees(mem[t], 0), [t]);
    }

    /** The loop of `proc_destroy` over the user half of the directory. */
    method FreeTables(d: nat)
      requires Valid() && d < mem.Length
      requires forall i :: 0 <= i < USER_ENTRIES && Present(mem[d][i]) ==> FrameOf(mem[d][i]) < mem.Length
      requires forall f :: f in TableFrees(mem[..], d, 0) ==> f < mem.Length
      modifies frames.bitmap
      ensures Valid() && State() == old(State()).(used := old(State()).used - Elements(TableFrees(mem[..], d, 0)))
    {
      hide TableFrees, PageFrees, Shaped, FrameOf, Elements;
      ghost var k := State();
      ShapedRow(k, d);
      ghost var done := [];
      var i := 0;
      NothingFreed(k);
      while i < USER_ENTRIES
        invariant i <= USER_ENTRIES && Valid() && State() == k.(used := k.used - Elements(done))
        invariant done + TableFrees(k.mem, d, i) == TableFrees(k.mem, d, 0)
      {
        NextTable(k.mem, d, i, done);
        var pde := mem[d][i];
        if Present(pde) {
          var t := FrameOf(pde);
          ShapedRow(k, t);
          FreeTable(t);
          ElementsJoin(done, PageFrees(k.mem[t], 0) + [t]);
          done := done + (PageFrees(k.mem[t], 0) + [t]);
        }
        i := i + 1;
      }
      NextTable(k.mem, d, i, done);
    }

    /** `proc_destroy`: kernel stack, tables behind their pages, directory. */
    method ProcDestroy(p: nat, ghost own: Owners, ghost sys: set<nat>)
      requires Valid() && Owned(State(), own, sys) && p in procs
      modifies this`procs, frames.bitmap
      ensures Valid() && State() == Destroy(old(State()), p)
    {
      hide Owned, TableFrees, StackFrame, Frees;
      ghost var k := State();
      FreesInRange(k, own, sys, p);
      OwnedInRange(k, own, sys);
      var record := procs[p];
      var stack := record.kernelStack + CONTEXT - PAGE - KERNEL_BASE;
      FreeFrame(stack / PAGE);
      FreeTables(record.pd);
      FreeFrame(record.pd);
      procs := procs - {p};
      ElementsJoin([stack / PAGE], TableFrees(k.mem, record.pd, 0));
      ElementsJoin([stack / PAGE] + TableFrees(k.mem, record.pd, 0), [record.pd]);
      FreedInTurn(k.used, stack / PAGE, TableFrees(k.mem, record.pd, 0), record.pd);
      assert State().used == k.used - Elements(Frees(k, p));
    }
  }

  lemma NothingFreed(k: Kernel)
    ensures k == k.(used := k.used - Elements([]))
  {
  }

  /** The frees of a directory, table by table. */
  lemma NextTable(mem: seq<seq<nat>>, d: nat, i: nat, done: seq<nat>)
    requires d < |mem| && i <= USER_ENTRIES <= |mem[d]|
    requires done + TableFrees(mem, d, i) == TableFrees(mem, d, 0)
    ensures i == USER_ENTRIES ==> done == TableFrees(mem, d, 0)
    ensures i < USER_ENTRIES && !Present(mem[d][i]) ==> done + TableFrees(mem, d, i + 1) == TableFrees(mem, d, 0)
    ensures i < USER_ENTRIES && Present(mem[d][i]) && FrameOf(mem[d][i]) < |mem| ==>
              var here := PageFrees(mem[FrameOf(mem[d][i])], 0) + [FrameOf(mem[d][i])];
              && done + here + TableFrees(mem, d, i + 1) == TableFrees(mem, d, 0)
              && forall f :: f in PageFrees(mem[FrameOf(mem[d][i])], 0) ==> f in TableFrees(mem, d, 0)
  {
    hide PageFrees, FrameOf, TableFrees, Present;
    TableFreesStep(mem, d, i);
    if i < USER_ENTRIES && Present(mem[d][i]) && FrameOf(mem[d][i]) < |mem| {
      var pages := PageFrees(mem[FrameOf(mem[d][i])], 0);
      SequencesJoin(done, pages, [FrameOf(mem[d][i])], TableFrees(mem, d, i + 1));
    }
  }

  lemma TableFreesStep(mem: seq<seq<nat>>, d: nat, i: nat)
    requires d < |mem| && i <= USER_ENTRIES <= |mem[d]|
    ensures i == USER_ENTRIES ==> TableFrees(mem, d, i) == []
    ensures i < USER_ENTRIES && !Present(mem[d][i]) ==> TableFrees(mem, d, i) == TableFrees(mem, d, i + 1)
    ensures i < USER_ENTRIES && Present(mem[d][i]) && FrameOf(mem[d][i]) < |mem| ==>
              TableFrees(mem, d, i)
              == PageFrees(mem[FrameOf(mem[d][i])], 0) + [FrameOf(mem[d][i])] + TableFrees(mem, d, i + 1)
  {
    hide PageFrees, FrameOf;
  }

  lemma SequencesJoin(done: seq<nat>, pages: seq<nat>, last: seq<nat>, rest: seq<nat>)
    ensures done + (pages + last) + rest == done + (pages + last + rest)
    ensures forall f :: f in pages ==> f in done + (pages + last + rest)
  {
    forall f | f in pages ensures f in done + (pages + last + rest) {
      assert f in pages + last;
      assert f in pages + last + rest;
    }
  }

  lemma FreedInTurn(used: set<nat>, s: nat, middle: seq<nat>, d: nat)
    ensures used - {s} - Elements(middle) - {d} == used - Elements([s] + middle + [d])
  {
  }

  lemma ShapedRow(k: Kernel, f: nat)
    requires Shaped(k) && f < |k.mem|
    ensures |k.mem[f]| == ENTRIES
  {
  }

  lemma UnmapInRange(k: Kernel, own: Owners, sys: set<nat>, p: nat, i: nat, j: nat)
    requires Owned(k, own, sys) && p in k.procs && i < USER_ENTRIES && j < ENTRIES
    ensures match Translate(k.mem, k.procs[p].pd, i, j)
            case None => true
            case Some(x) => FrameOf(x) < |k.mem|
  {
    UnmapOwned(k, own, sys, p, i, j);
  }

  lemma FreesInRange(k: Kernel, own: Owners, sys: set<nat>, p: nat)
    requires Owned(k, own, sys) && p in k.procs
    ensures var r := k.procs[p]; var s := r.kernelStack + CONTEXT - PAGE - KERNEL_BASE;
      && 0 <= s && s / PAGE == StackFrame(r.kernelStack)
      && s / PAGE < |k.mem| && r.pd < |k.mem|
      && Frees(k, p) == [s / PAGE] + TableFrees(k.mem, r.pd, 0) + [r.pd]
      && forall f :: f in TableFrees(k.mem, r.pd, 0) ==> f < |k.mem|
  {
    DestroyFreesOwned(k, own, sys, p);
    assert own[StackFrame(k.procs[p].kernelStack)] == Stack(p);
    forall f | f in TableFrees(k.mem, k.procs[p].pd, 0) ensures f < |k.mem| {
      assert f in Frees(k, p);
    }
  }
}
