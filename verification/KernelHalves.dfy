/** What every process has of the kernel: the upper quarter of its directory, and
    the context saved at the top of its kernel stack. */
module KernelHalves {
  import opened Options
  import opened AddressSpaces
  import opened ProcessLives

  /** From `k` to `t` no frame of the kernel's, no kernel stack and no directory entry
      from 768 on is written. */
  ghost predicate KernelFramesKept(k: Kernel, t: Kernel, own: Owners)
    requires Shaped(k) && Shaped(t)
  {
    && |t.mem| == |k.mem| && t.kernelPd == k.kernelPd
    && (forall f :: f in own && f < |k.mem| && (own[f].System? || own[f].Stack?) ==> t.mem[f] == k.mem[f])
    && forall f, x :: f in own && f < |k.mem| && own[f].Dir? && 768 <= x < 1024 ==> t.mem[f][x] == k.mem[f][x]
  }

  lemma MapKeepsFrames(k: Kernel, own: Owners, sys: set<nat>, p: nat, i: nat, j: nat)
    requires Owned(k, own, sys) && p in k.procs && i < USER_ENTRIES && j < ENTRIES && MapFresh(k, p, i, j).Some?
    ensures KernelFramesKept(k, MapFresh(k, p, i, j).value, own)
  {
    hide PagesUp, PagesDown, TablesUp;
    var e := k.mem[k.procs[p].pd][i];
    if e == 0 {
      var t := TableFrame(k).value;
      TwoPokes(k, own, sys, p, i, j, TakeFrame(k).value.1, t);
      TableFrames(k, own, sys, p, i, t, k.mem[t][j := 0]);
      hide MapFresh, TakeFrame, TableFrame, TablesDown;
    } else {
      assert Names(own, e, Table(p, i));
    }
  }

  lemma UnmapKeepsFrames(k: Kernel, own: Owners, sys: set<nat>, p: nat, i: nat, j: nat)
    requires Owned(k, own, sys) && p in k.procs && i < USER_ENTRIES && j < ENTRIES
    ensures KernelFramesKept(k, UnmapPage(k, p, i, j), own)
  {
    hide PagesUp, PagesDown, TablesUp, Roots;
    var e := k.mem[k.procs[p].pd][i];
    assert e == 0 || Names(own, e, Table(p, i));
  }

  /** A page's frame is none of those. */
  lemma PageKeepsFrames(k: Kernel, own: Owners, sys: set<nat>, f: nat, row: seq<nat>)
    requires Owned(k, own, sys) && f in own && own[f].Page? && f < |k.mem| && |row| == ENTRIES
    ensures KernelFramesKept(k, k.(mem := k.mem[f := row]), own)
  {
    hide Known, Roots, TablesDown, TablesUp, PagesDown, PagesUp;
  }

  lemma StoreKeepsFrames(k: Kernel, own: Owners, sys: set<nat>, p: nat, v: nat, x: nat, w: nat)
    requires Owned(k, own, sys) && p in k.procs && v < USER_PAGES && x < ENTRIES
    ensures Shaped(StoreInto(k, p, v, x, w)) && KernelFramesKept(k, StoreInto(k, p, v, x, w), own)
  {
    var tr := Translate(k.mem, k.procs[p].pd, TableIndex(v), EntryIndex(v));
    UnmapOwned(k, own, sys, p, TableIndex(v), EntryIndex(v));
    hide Owned, Translate;
    ShapedKnown(k, own, sys);
    if tr.Some? && FrameOf(tr.value) < |k.mem| {
      PageKeepsFrames(k, own, sys, FrameOf(tr.value), k.mem[FrameOf(tr.value)][x := w]);
    }
  }

  lemma FillKeepsFrames(k: Kernel, own: Owners, sys: set<nat>, p: nat, v: nat, row: seq<nat>)
    requires Owned(k, own, sys) && p in k.procs && v < USER_PAGES && |row| == ENTRIES
    ensures Shaped(FillInto(k, p, v, row)) && KernelFramesKept(k, FillInto(k, p, v, row), own)
  {
    var tr := Translate(k.mem, k.procs[p].pd, TableIndex(v), EntryIndex(v));
    UnmapOwned(k, own, sys, p, TableIndex(v), EntryIndex(v));
    hide Owned, Translate;
    ShapedKnown(k, own, sys);
    if tr.Some? && FrameOf(tr.value) < |k.mem| {
      PageKeepsFrames(k, own, sys, FrameOf(tr.value), row);
    }
  }

  lemma NewKeepsFrames(k: Kernel, own: Owners, sys: set<nat>, p: nat, context: seq<nat>)
    requires Owned(k, own, sys) && p !in k.procs && |context| == CONTEXT / 4 && NewProcess(k, p, context).Some?
    ensures KernelFramesKept(k, NewProcess(k, p, context).value, own)
  {
    NewProcessFrames(k, own, sys, p, context);
    NewKeepsRoot(k, p, context);
    hide Owned, NewProcess;
  }

  lemma NewKeepsRoot(k: Kernel, p: nat, context: seq<nat>)
    requires Shaped(k) && |context| == CONTEXT / 4 && NewProcess(k, p, context).Some?
    ensures NewProcess(k, p, context).value.kernelPd == k.kernelPd
  {
  }

  lemma SameKeepsFrames(k: Kernel, own: Owners)
    requires Shaped(k)
    ensures forall t: Kernel :: Shaped(t) && t.mem == k.mem && t.kernelPd == k.kernelPd ==> KernelFramesKept(k, t, own)
  {
  }

  lemma StepKeepsFrames(k: Kernel, own: Owners, sys: set<nat>, op: Op)
    requires Owned(k, own, sys) && Shaped(k) && Allowed(k, op) && Step(k, op).Some?
    ensures KernelFramesKept(k, Step(k, op).value, own)
  {
    hide Owned, KernelFramesKept, MapFresh, NewProcess, UnmapPage, StoreInto, FillInto;
    SameKeepsFrames(k, own);
    match op
    case Create(p, context) => NewKeepsFrames(k, own, sys, p, context);
    case MapPage(p, v) => MapKeepsFrames(k, own, sys, p, TableIndex(v), EntryIndex(v));
    case Unmap(p, v) => UnmapKeepsFrames(k, own, sys, p, TableIndex(v), EntryIndex(v));
    case UserWrite(p, v, x, w) => StoreKeepsFrames(k, own, sys, p, v, x, w);
    case Fill(p, v, row) => FillKeepsFrames(k, own, sys, p, v, row);
    case SetBreak(_, _) =>
    case SetRegions(_, _, _) =>
    case Switch(_) =>
    case Interrupt =>
    case Kill(_) =>
  }

  // ----- the upper quarter of the directories

  /** Entries 768 to 1023 of every process's directory are the kernel directory's. */
  ghost predicate SharesKernel(k: Kernel)
    requires Shaped(k)
  {
    forall p, x :: p in k.procs && 768 <= x < 1024 ==> k.mem[k.procs[p].pd][x] == k.mem[k.kernelPd][x]
  }

  /** The word at a virtual address of the kernel, which maps memory from 3 GB on. */
  function KernelWord(k: Kernel, a: nat): Option<nat>
    requires Shaped(k)
  {
    if a < 0xC000_0000 || (a - 0xC000_0000) / 4096 >= |k.mem| then None
    else Some(k.mem[(a - 0xC000_0000) / 4096][(a - 0xC000_0000) % 4096 / 4])
  }

  /** The 13 words from a process's saved stack pointer on. */
  predicate Saved(k: Kernel, p: nat, context: seq<nat>)
    requires Shaped(k)
  {
    p in k.procs && |context| == 13
    && forall n :: 0 <= n < 13 ==> KernelWord(k, k.procs[p].kernelStack + 4 * n) == Some(context[n])
  }

  lemma StackWords(stack: nat, s: nat, n: nat)
    requires StackTop(stack, s) && n < 13
    ensures stack + 4 * n >= 0xC000_0000 && (stack + 4 * n - 0xC000_0000) / 4096 == s
    ensures (stack + 4 * n - 0xC000_0000) % 4096 / 4 == 1011 + n
  {
  }

  /** A new directory shares the kernel's entries, and the context given lies where
      the saved stack pointer says. */
  lemma NewShares(k: Kernel, own: Owners, sys: set<nat>, p: nat, context: seq<nat>)
    requires Owned(k, own, sys) && p !in k.procs && |context| == CONTEXT / 4 && NewProcess(k, p, context).Some?
    requires k.kernelPd in sys
    ensures var t := NewProcess(k, p, context).value;
      && (forall x :: 768 <= x < 1024 ==> t.mem[t.procs[p].pd][x] == k.mem[k.kernelPd][x])
      && Saved(t, p, context)
  {
    hide NewProcess, StackTop, Owned, KernelWord;
    ShapedKnown(k, own, sys);
    var d, s := NewFrames(k, p, context);
    var t := NewProcess(k, p, context).value;
    forall n | 0 <= n < 13 ensures KernelWord(t, t.procs[p].kernelStack + 4 * n) == Some(context[n]) {
      ContextAt(t, t.procs[p].kernelStack, s, n);
      assert t.mem[s][1011 + n] == t.mem[s][1011..][n];
    }
  }

  /** The two frames of a new process, and what is in them. */
  lemma NewFrames(k: Kernel, p: nat, context: seq<nat>) returns (d: nat, s: nat)
    requires Shaped(k) && |context| == CONTEXT / 4 && NewProcess(k, p, context).Some?
    ensures var t := NewProcess(k, p, context).value;
      && d < |t.mem| && s < |t.mem| && t.procs[p].pd == d && StackTop(t.procs[p].kernelStack, s)
      && t.mem[d] == UserHalfCleared(k.mem[k.kernelPd]) && t.mem[s][1011..] == context
  {
    d := TakeFrame(k).value.1;
    s := TakeFrame(TakeFrame(k).value.0).value.1;
    var t := NewProcess(k, p, context).value;
    assert d != s && t.procs[p].pd == d && StackTop(t.procs[p].kernelStack, s);
    assert t.mem[s] == WithContext(k.mem[s], context);
  }

  lemma ContextAt(t: Kernel, a: nat, s: nat, n: nat)
    requires Shaped(t) && StackTop(a, s) && s < |t.mem| && n < 13
    ensures KernelWord(t, a + 4 * n) == Some(t.mem[s][1011 + n])
  {
    StackWords(a, s, n);
  }

  /** The records keep directory and kernel stack. */
  lemma StepKeepsRoots(k: Kernel, op: Op, q: nat)
    requires Esp0Current(k) && Shaped(k) && Allowed(k, op) && Step(k, op).Some? && q in k.procs && op != Kill(q)
    ensures var t := Step(k, op).value;
      q in t.procs && t.procs[q].pd == k.procs[q].pd && t.procs[q].kernelStack == k.procs[q].kernelStack
  {
    SavedStackSame(k);
    hide TakeFrame, PagingMap, LostFrames;
  }

  lemma StepAdds(k: Kernel, op: Op)
    requires Esp0Current(k) && Shaped(k) && Allowed(k, op) && Step(k, op).Some?
    ensures forall q :: q in Step(k, op).value.procs ==> q in k.procs || (op.Create? && q == op.p)
    ensures op.Kill? ==> op.p !in Step(k, op).value.procs
  {
    SavedStackSame(k);
    hide TakeFrame, PagingMap, LostFrames;
  }

  lemma StepShares(k: Kernel, own: Owners, sys: set<nat>, op: Op)
    requires Owned(k, own, sys) && Esp0Current(k) && Shaped(k) && Allowed(k, op) && Step(k, op).Some?
    requires SharesKernel(k) && k.kernelPd in sys
    ensures var t := Step(k, op).value;
      SharesKernel(t) && t.kernelPd == k.kernelPd && t.mem[t.kernelPd] == k.mem[k.kernelPd]
  {
    var t := Step(k, op).value;
    StepKeepsFrames(k, own, sys, op);
    StepAdds(k, op);
    SystemIs(k, own, sys, k.kernelPd);
    if op.Create? { NewShares(k, own, sys, op.p, op.context); }
    forall q, x | q in t.procs && 768 <= x < 1024 ensures t.mem[t.procs[q].pd][x] == k.mem[k.kernelPd][x] {
      if q in k.procs {
        StepKeepsRoots(k, op, q);
        DirectoryIs(k, own, sys, q);
      }
    }
    hide Owned, Step;
  }

  lemma DirectoryIs(k: Kernel, own: Owners, sys: set<nat>, q: nat)
    requires Owned(k, own, sys) && q in k.procs
    ensures k.procs[q].pd in own && own[k.procs[q].pd] == Dir(q)
    ensures var s := StackFrame(k.procs[q].kernelStack);
      StackTop(k.procs[q].kernelStack, s) && s in own && own[s] == Stack(q) && s < |k.mem|
  {
    hide TablesDown, TablesUp, PagesDown, PagesUp, StackTop, StackFrame;
  }

  lemma StepSaves(k: Kernel, own: Owners, sys: set<nat>, op: Op, q: nat, context: seq<nat>)
    requires Owned(k, own, sys) && Esp0Current(k) && Shaped(k) && Allowed(k, op) && Step(k, op).Some?
    requires Saved(k, q, context) && op != Kill(q)
    ensures Saved(Step(k, op).value, q, context)
  {
    hide Owned, Step, Allowed, Esp0Current, StackTop, StackFrame;
    var t := Step(k, op).value;
    StepKeepsFrames(k, own, sys, op);
    StepKeepsRoots(k, op, q);
    DirectoryIs(k, own, sys, q);
    forall n | 0 <= n < 13 ensures KernelWord(t, t.procs[q].kernelStack + 4 * n) == Some(context[n]) {
      StackWords(k.procs[q].kernelStack, StackFrame(k.procs[q].kernelStack), n);
    }
  }

  // ----- every run

  /** Over every run each process that exists has the kernel's entries in its
      directory, and these do not change. */
  lemma {:induction false} RunShares(k: Kernel, own: Owners, sys: set<nat>, ops: seq<Op>, t: Kernel)
    requires Owned(k, own, sys) && Esp0Current(k) && Shaped(k) && Runs(k, ops, t)
    requires SharesKernel(k) && k.kernelPd in sys
    ensures Shaped(t) && SharesKernel(t) && t.kernelPd == k.kernelPd && t.mem[t.kernelPd] == k.mem[k.kernelPd]
    decreases |ops|
  {
    hide Owned, Step, Allowed, OwnersAfter, LostBy, Esp0Current, SharesKernel;
    if ops != [] {
      StepOwned(k, own, sys, ops[0]);
      StepShares(k, own, sys, ops[0]);
      RunShares(Step(k, ops[0]).value, OwnersAfter(k, own, ops[0]), sys + LostBy(k, ops[0]), ops[1..], t);
    }
  }

  /** No map, unmap, store or fill, and nothing done to another process, writes the
      context a process was given. (What the process's own traps and its first dispatch
      write there is not part of these steps.) */
  lemma {:induction false} RunSaves(k: Kernel, own: Owners, sys: set<nat>, ops: seq<Op>, t: Kernel, q: nat,
      context: seq<nat>)
    requires Owned(k, own, sys) && Esp0Current(k) && Shaped(k) && Runs(k, ops, t)
    requires Saved(k, q, context) && Kill(q) !in ops
    ensures Shaped(t) && Saved(t, q, context)
    decreases |ops|
  {
    hide Owned, Step, Allowed, OwnersAfter, LostBy, Esp0Current, Saved;
    if ops != [] {
      StepOwned(k, own, sys, ops[0]);
      StepSaves(k, own, sys, ops[0], q, context);
      RunSaves(Step(k, ops[0]).value, OwnersAfter(k, own, ops[0]), sys + LostBy(k, ops[0]), ops[1..], t, q, context);
    }
  }
}
