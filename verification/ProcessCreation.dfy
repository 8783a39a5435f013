/** Creating a process: its directory, its kernel stack and its four stack pages. */
module ProcessCreation {
  import opened AddressMap
  import opened Frames
  import opened Options
  import opened AddressSpaces
  import opened ProcessLives
  import opened MemoryCalls

  /** The stack page mapped in round `n`, downwards. */
  function StackPage(n: nat): (v: nat)
    requires n < STACK_PAGES
    ensures v < USER_PAGES
  {
    STACK_TOP / PAGE - (n + 1)
  }

  /** The loop of `proc_create` over stack pages, from the `n`-th on. */
  function StackPages(k: Kernel, p: nat, n: nat): (r: Option<Kernel>)
    requires Shaped(k) && p in k.procs && n <= STACK_PAGES
    ensures r.Some? ==> Shaped(r.value) && r.value.procs == k.procs
    decreases STACK_PAGES - n
  {
    if n == STACK_PAGES then Some(k)
    else
      match MapFresh(k, p, TableIndex(StackPage(n)), EntryIndex(StackPage(n)))
      case None => None
      case Some(k1) => StackPages(k1, p, n + 1)
  }

  function CreateProcess(k: Kernel, p: nat, context: seq<nat>): (r: Option<Kernel>)
    requires Shaped(k) && |context| == CONTEXT / 4
    ensures r.Some? ==> Shaped(r.value) && p in r.value.procs
  {
    match NewProcess(k, p, context)
    case None => None
    case Some(k1) => StackPages(k1, p, 0)
  }

  /** The guard of `MapPage` at every stack page. */
  predicate StackReady(k: Kernel, p: nat, n: nat)
    requires Shaped(k) && p in k.procs && n <= STACK_PAGES
    decreases STACK_PAGES - n
  {
    n == STACK_PAGES ||
    (Allowed(k, MapPage(p, StackPage(n))) &&
     match MapFresh(k, p, TableIndex(StackPage(n)), EntryIndex(StackPage(n)))
     case None => true
     case Some(k1) => StackReady(k1, p, n + 1))
  }

  predicate CreateReady(k: Kernel, p: nat, context: seq<nat>)
    requires Shaped(k) && |context| == CONTEXT / 4
  {
    match NewProcess(k, p, context)
    case None => true
    case Some(k1) => StackReady(k1, p, 0)
  }

  predicate InStack(w: nat) {
    0x7FFC <= w < 0x8000
  }

  /** The stack pages from round `n` on have been mapped, and no other page. */
  ghost predicate StackMapped(k: Kernel, t: Kernel, p: nat, n: nat) {
    && t.procs == k.procs && p in k.procs && t.current == k.current && t.esp0 == k.esp0
    && forall q, w: nat :: q in k.procs && w < USER_PAGES ==>
         if q == p && InStack(w) && w + n < STACK_TOP / PAGE then IsMapped(t, q, w)
         else Mapped(t, q, w) == Mapped(k, q, w)
  }

  lemma {:induction false} StackEffect(k: Kernel, own: Owners, sys: set<nat>, p: nat, n: nat) returns (own': Owners)
    requires Owned(k, own, sys) && p in k.procs && n <= STACK_PAGES
    requires StackReady(k, p, n) && StackPages(k, p, n).Some?
    requires forall w: nat :: InStack(w) && w + n < STACK_TOP / PAGE ==> !IsMapped(k, p, w)
    ensures var t := StackPages(k, p, n).value;
      Owned(t, own', sys) && StackMapped(k, t, p, n)
    decreases STACK_PAGES - n
  {
    hide Owned, Shaped, MapFresh, Allowed, RangeMapped, OwnersAfterMap, TableIndex, EntryIndex, LostRange,
         StackMapped, IsMapped, Mapped;
    ShapedKnown(k, own, sys);
    PagesInTables();
    if n == STACK_PAGES {
      own' := own;
      NoStackPage(k, p);
    } else {
      var v := StackPage(n);
      var k1 := MapFresh(k, p, TableIndex(v), EntryIndex(v)).value;
      MapOneOwned(k, own, sys, p, v);
      LostNothing(k, p, v);
      assert sys + LostRange(k, p, v, 1) == sys;
      OnePage(k, k1, p, v);
      own' := StackEffect(k1, OwnersAfterMap(k, own, p, TableIndex(v), EntryIndex(v)), sys, p, n + 1);
      StackOneMore(k, k1, StackPages(k1, p, n + 1).value, p, n);
    }
  }

  lemma NoStackPage(k: Kernel, p: nat)
    requires p in k.procs
    ensures StackMapped(k, k, p, STACK_PAGES)
  {
    hide Mapped;
  }

  lemma LostNothing(k: Kernel, p: nat, v: nat)
    requires p in k.procs && !IsMapped(k, p, v)
    ensures LostRange(k, p, v, 1) == {}
  {
    hide Mapped;
  }

  lemma OnePage(k: Kernel, k1: Kernel, p: nat, v: nat)
    requires Shaped(k) && Shaped(k1) && p in k.procs && p in k1.procs && RangeMapped(k, k1, p, v, 1)
    ensures k1.procs == k.procs && k1.current == k.current && k1.esp0 == k.esp0 && IsMapped(k1, p, v)
    ensures forall q, w: nat :: q in k.procs && w < USER_PAGES && !(q == p && w == v) ==>
              Mapped(k1, q, w) == Mapped(k, q, w)
    ensures forall w: nat :: w < USER_PAGES && w != v ==> IsMapped(k1, p, w) == IsMapped(k, p, w)
  {
    hide Mapped;
    assert v <= v < v + 1;
    forall w: nat | w < USER_PAGES && w != v ensures IsMapped(k1, p, w) == IsMapped(k, p, w) {
      assert Mapped(k1, p, w) == Mapped(k, p, w);
    }
  }

  lemma StackOneMore(k: Kernel, k1: Kernel, t: Kernel, p: nat, n: nat)
    requires n < STACK_PAGES && p in k.procs && p in k1.procs && k1.procs == k.procs
    requires k1.current == k.current && k1.esp0 == k.esp0
    requires IsMapped(k1, p, StackPage(n)) && StackMapped(k1, t, p, n + 1)
    requires forall q, w: nat :: q in k.procs && w < USER_PAGES && !(q == p && w == StackPage(n)) ==>
               Mapped(k1, q, w) == Mapped(k, q, w)
    ensures StackMapped(k, t, p, n)
  {
    hide Mapped;
    assert Mapped(t, p, StackPage(n)) == Mapped(k1, p, StackPage(n));
    assert IsMapped(t, p, StackPage(n));
  }

  /** A new process has no page yet. */
  lemma NewIsEmpty(k: Kernel, own: Owners, sys: set<nat>, p: nat, context: seq<nat>)
    requires Owned(k, own, sys) && p !in k.procs && |context| == CONTEXT / 4
    requires NewProcess(k, p, context).Some?
    ensures var k1 := NewProcess(k, p, context).value;
      && (forall w: nat :: w < USER_PAGES ==> !IsMapped(k1, p, w))
      && (forall q, w: nat :: q in k.procs && w < USER_PAGES ==> q in k1.procs && Mapped(k1, q, w) == Mapped(k, q, w))
      && k1.procs == k.procs[p := k1.procs[p]] && k1.current == k.current && k1.esp0 == k.esp0
      && k1.procs[p].programBreak == 0 && k1.procs[p].mmapNext == 0 && k1.procs[p].regions == []
  {
    NewProcessFrames(k, own, sys, p, context);
    var k1 := NewProcess(k, p, context).value;
    var d := TakeFrame(k).value.1;
    var s := TakeFrame(TakeFrame(k).value.0).value.1;
    NewRecord(k, p, context);
    PagesInTables();
    hide NewProcess, TakeFrame, StackTop, StackFrame, TableIndex, EntryIndex;
    forall q, w: nat | q in k.procs && w < USER_PAGES ensures Mapped(k1, q, w) == Mapped(k, q, w) {
      KeptOutside(k, own, sys, k1, q, TableIndex(w), EntryIndex(w), d, s);
    }
  }

  lemma NewRecord(k: Kernel, p: nat, context: seq<nat>)
    requires Shaped(k) && p !in k.procs && |context| == CONTEXT / 4 && NewProcess(k, p, context).Some?
    ensures var k1 := NewProcess(k, p, context).value;
      && k1.procs == k.procs[p := k1.procs[p]] && k1.current == k.current && k1.esp0 == k.esp0
      && k1.procs[p].programBreak == 0 && k1.procs[p].mmapNext == 0 && k1.procs[p].regions == []
  {
  }

  lemma KeptOutside(k: Kernel, own: Owners, sys: set<nat>, k1: Kernel, q: nat, i: nat, j: nat, d: nat, s: nat)
    requires Owned(k, own, sys) && q in k.procs && i < USER_ENTRIES && j < ENTRIES && d !in own && s !in own
    requires |k1.mem| == |k.mem| && q in k1.procs && k1.procs[q] == k.procs[q]
    requires forall f :: 0 <= f < |k.mem| && f != d && f != s ==> k1.mem[f] == k.mem[f]
    ensures Translate(k1.mem, k.procs[q].pd, i, j) == Translate(k.mem, k.procs[q].pd, i, j)
  {
    var e := k.mem[k.procs[q].pd][i];
    assert own[k.procs[q].pd] == Dir(q);
    assert e == 0 || Names(own, e, Table(q, i));
  }

  /** A process created has its stack mapped and nothing else, the pages of all
      other processes are as they were, and every frame has its one owner. */
  lemma CreateEffect(k: Kernel, own: Owners, sys: set<nat>, p: nat, context: seq<nat>) returns (own': Owners)
    requires Owned(k, own, sys) && p !in k.procs && |context| == CONTEXT / 4
    requires CreateReady(k, p, context) && CreateProcess(k, p, context).Some?
    ensures var t := CreateProcess(k, p, context).value;
      && Owned(t, own', sys)
      && t.procs == k.procs[p := t.procs[p]] && t.current == k.current && t.esp0 == k.esp0
      && t.procs[p].programBreak == 0 && t.procs[p].mmapNext == 0 && t.procs[p].regions == []
      && (forall w: nat :: w < USER_PAGES ==> (IsMapped(t, p, w) <==> InStack(w)))
      && (forall q, w: nat :: q in k.procs && w < USER_PAGES ==> Mapped(t, q, w) == Mapped(k, q, w))
  {
    hide Owned, NewProcess, StackPages, StackReady, Mapped, IsMapped, InStack, StackMapped;
    ShapedKnown(k, own, sys);
    var k1 := NewProcess(k, p, context).value;
    NewProcessOwned(k, own, sys, p, context);
    NewIsEmpty(k, own, sys, p, context);
    NewTakes(k, p, context);
    own' := StackEffectHidden(k1, OwnersAfterNew(k, own, p), sys, p);
    StackIs(k, k1, StackPages(k1, p, 0).value, p);
  }

  lemma NewTakes(k: Kernel, p: nat, context: seq<nat>)
    requires Shaped(k) && |context| == CONTEXT / 4 && NewProcess(k, p, context).Some?
    ensures TakeFrame(k).Some? && TakeFrame(TakeFrame(k).value.0).Some?
  {
  }

  lemma StackEffectHidden(k: Kernel, own: Owners, sys: set<nat>, p: nat) returns (own': Owners)
    requires Owned(k, own, sys) && p in k.procs && StackReady(k, p, 0) && StackPages(k, p, 0).Some?
    requires forall w: nat :: w < USER_PAGES ==> !IsMapped(k, p, w)
    ensures Owned(StackPages(k, p, 0).value, own', sys) && StackMapped(k, StackPages(k, p, 0).value, p, 0)
  {
    hide Owned, StackReady, StackPages, IsMapped, StackMapped;
    own' := StackEffect(k, own, sys, p, 0);
  }

  lemma StackIs(k: Kernel, k1: Kernel, t: Kernel, p: nat)
    requires StackMapped(k1, t, p, 0) && p !in k.procs && k1.procs == k.procs[p := k1.procs[p]]
    requires forall w: nat :: w < USER_PAGES ==> !IsMapped(k1, p, w)
    requires forall q, w: nat :: q in k.procs && w < USER_PAGES ==> q in k1.procs && Mapped(k1, q, w) == Mapped(k, q, w)
    ensures t.procs == k1.procs && t.current == k1.current && t.esp0 == k1.esp0
    ensures forall w: nat :: w < USER_PAGES ==> (IsMapped(t, p, w) <==> InStack(w))
    ensures forall q, w: nat :: q in k.procs && w < USER_PAGES ==> Mapped(t, q, w) == Mapped(k, q, w)
  {
    hide Mapped;
    forall w: nat | w < USER_PAGES ensures IsMapped(t, p, w) <==> InStack(w) {
      assert p in k1.procs && !IsMapped(k1, p, w);
      if !InStack(w) { assert Mapped(t, p, w) == Mapped(k1, p, w); }
    }
  }
}
