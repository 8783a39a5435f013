/** Process creation, page unmapping, context switches and destruction, and where
    the frames are over whole runs. */
module ProcessLives {
  import opened Frames
  import opened Options
  import opened AddressSpaces

  predicate About(r: Role, p: nat) {
    match r
    case System => false
    case Dir(q) => q == p
    case Stack(q) => q == p
    case Table(q, _) => q == p
    case Page(q, _, _) => q == p
  }

  predicate Holds(own: Owners, f: nat, p: nat) {
    f in own && About(own[f], p)
  }

  // ----- unmapping

  /** One round of `__syscall_unmap_pages`. */
  function UnmapPage(k: Kernel, p: nat, i: nat, j: nat): (r: Kernel)
    requires Shaped(k) && p in k.procs && i < ENTRIES && j < ENTRIES
    ensures Shaped(r) && |r.mem| == |k.mem| && r.procs == k.procs
  {
    var e := k.mem[k.procs[p].pd][i];
    if !Present(e) || FrameOf(e) >= |k.mem| then k
    else
      var x := k.mem[FrameOf(e)][j];
      if !Present(x) then k
      else k.(used := k.used - {FrameOf(x)}, mem := Poke(k.mem, FrameOf(e), j, 0))
  }

  function OwnersAfterUnmap(k: Kernel, own: Owners, p: nat, i: nat, j: nat): Owners
    requires Shaped(k) && p in k.procs
  {
    match Translate(k.mem, k.procs[p].pd, i, j)
    case None => own
    case Some(x) => own - {FrameOf(x)}
  }

  lemma RootsShrink(k: Kernel, k': Kernel, own: Owners, f: nat)
    requires Roots(k, own) && k'.procs == k.procs && f in own && own[f].Page?
    ensures Roots(k', own - {f})
  {
  }

  lemma UnmapTables(k: Kernel, own: Owners, sys: set<nat>, p: nat, i: nat, j: nat, t: nat, f: nat)
    requires Owned(k, own, sys) && p in k.procs && i < USER_ENTRIES && j < ENTRIES
    requires t in own && own[t] == Table(p, i) && t < |k.mem| && f in own && own[f] == Page(p, i, j)
    ensures var k' := k.(used := k.used - {f}, mem := Poke(k.mem, t, j, 0));
      Shaped(k') && TablesDown(k', own - {f}) && TablesUp(k', own - {f})
  {
    hide PagesUp, PagesDown, Poke;
    DirectoriesKept(k, k.(used := k.used - {f}, mem := Poke(k.mem, t, j, 0)), own, t);
  }

  lemma UnmapPagesDown(k: Kernel, own: Owners, sys: set<nat>, p: nat, i: nat, j: nat, t: nat, f: nat)
    requires Owned(k, own, sys) && p in k.procs && i < USER_ENTRIES && j < ENTRIES
    requires t in own && own[t] == Table(p, i) && t < |k.mem| && f in own && own[f] == Page(p, i, j)
    ensures var k' := k.(used := k.used - {f}, mem := Poke(k.mem, t, j, 0));
      Shaped(k') && PagesDown(k', own - {f})
  {
    hide PagesUp, Poke;
    assert k.mem[k.procs[p].pd][i] == EntryFor(t, USER_FLAGS);
    hide TablesUp;
    DirectoriesKept(k, k.(used := k.used - {f}, mem := Poke(k.mem, t, j, 0)), own, t);
  }

  lemma UnmapPagesUp(k: Kernel, own: Owners, sys: set<nat>, p: nat, i: nat, j: nat, t: nat, f: nat)
    requires Owned(k, own, sys) && p in k.procs && i < USER_ENTRIES && j < ENTRIES
    requires t in own && own[t] == Table(p, i) && t < |k.mem| && f in own && own[f] == Page(p, i, j)
    ensures var k' := k.(used := k.used - {f}, mem := Poke(k.mem, t, j, 0));
      Shaped(k') && PagesUp(k', own - {f})
  {
    var k' := k.(used := k.used - {f}, mem := Poke(k.mem, t, j, 0));
    hide PagesDown, Poke;
    DirectoriesKept(k, k', own, t);
    assert k.mem[k.procs[p].pd][i] == EntryFor(t, USER_FLAGS);
    assert Translate(k.mem, k.procs[p].pd, i, j) == Some(EntryFor(f, USER_FLAGS));
    forall g | g in own && own[g].Page? && g != f
      ensures Translate(k'.mem, k.procs[own[g].p].pd, own[g].i, own[g].j) == Some(EntryFor(g, USER_FLAGS))
    {
      var r := own[g];
      assert Translate(k.mem, k.procs[r.p].pd, r.i, r.j) == Some(EntryFor(g, USER_FLAGS));
      assert Names(own, k.mem[k.procs[r.p].pd][r.i], Table(r.p, r.i));
    }
  }

  lemma UnmapOwned(k: Kernel, own: Owners, sys: set<nat>, p: nat, i: nat, j: nat)
    requires Owned(k, own, sys) && p in k.procs && i < USER_ENTRIES && j < ENTRIES
    ensures Owned(UnmapPage(k, p, i, j), OwnersAfterUnmap(k, own, p, i, j), sys)
    ensures Translate(k.mem, k.procs[p].pd, i, j).Some? ==>
              var f := FrameOf(Translate(k.mem, k.procs[p].pd, i, j).value);
              f in own && own[f] == Page(p, i, j)
  {
    var e := k.mem[k.procs[p].pd][i];
    if Present(e) {
      assert Names(own, e, Table(p, i));
      var t := FrameOf(e);
      var x := k.mem[t][j];
      if Present(x) {
        assert Names(own, x, Page(p, i, j));
        var f := FrameOf(x);
        var k' := UnmapPage(k, p, i, j);
        RootsShrink(k, k', own, f);
        UnmapTables(k, own, sys, p, i, j, t, f);
        UnmapPagesDown(k, own, sys, p, i, j, t, f);
        UnmapPagesUp(k, own, sys, p, i, j, t, f);
        assert Known(k', own - {f}, sys);
      }
    }
  }

  // ----- mapping over a mapped page

  /** What is there: the table, the page's frame in it, and a free frame for the page. */
  lemma OverParts(k: Kernel, own: Owners, sys: set<nat>, p: nat, i: nat, j: nat, f: nat)
    requires Owned(k, own, sys) && p in k.procs && i < USER_ENTRIES && j < ENTRIES
    requires MapFresh(k, p, i, j).Some? && LostFrames(k, p, i, j) == {f}
    ensures TakeFrame(k).Some? && k.mem[k.procs[p].pd][i] != 0
    ensures var t := FrameOf(k.mem[k.procs[p].pd][i]); var g := TakeFrame(k).value.1;
      && t < |k.mem| && t in own && own[t] == Table(p, i) && f in own && own[f] == Page(p, i, j) && f < |k.mem|
      && g !in own && g < |k.mem|
      && UnmapPage(k, p, i, j) == k.(used := k.used - {f}, mem := Poke(k.mem, t, j, 0))
      && OwnersAfterUnmap(k, own, p, i, j) == own - {f}
  {
    hide TablesUp, PagesDown, PagesUp, Roots, Poke;
    UnmapOwned(k, own, sys, p, i, j);
    assert f in LostFrames(k, p, i, j);
    var e := k.mem[k.procs[p].pd][i];
    assert Names(own, e, Table(p, i));
  }

  /** The old frame stays in use and nothing names it any more; the page and every
      other frame have their one owner. */
  lemma MapOverOwned(k: Kernel, own: Owners, sys: set<nat>, p: nat, i: nat, j: nat, f: nat)
    requires Owned(k, own, sys) && p in k.procs && i < USER_ENTRIES && j < ENTRIES
    requires MapFresh(k, p, i, j).Some? && LostFrames(k, p, i, j) == {f}
    ensures Owned(MapFresh(k, p, i, j).value, OwnersAfterMap(k, own, p, i, j), sys + {f})
  {
    hide Owned, UnmapPage, OwnersAfterUnmap, Poke;
    ShapedKnown(k, own, sys);
    OverParts(k, own, sys, p, i, j, f);
    UnmapOwned(k, own, sys, p, i, j);
    var t := FrameOf(k.mem[k.procs[p].pd][i]);
    var g := TakeFrame(k).value.1;
    var k0 := UnmapPage(k, p, i, j);
    LostIsSystem(k0, own - {f}, sys, f);
    var k1 := k0.(used := k0.used + {f});
    var own1 := (own - {f})[f := System];
    MapIntoTable(k1, own1, sys + {f}, p, i, j, g, t);
    PokeTwice(k.mem, t, j, 0, EntryFor(g, USER_FLAGS));
    assert k1.used + {g} == k.used + {g};
    MapIntoExisting(k, p, i, j);
    assert own1[g := Page(p, i, j)] == OwnersAfterMap(k, own, p, i, j);
  }

  lemma MapIntoExisting(k: Kernel, p: nat, i: nat, j: nat)
    requires Shaped(k) && p in k.procs && i < ENTRIES && j < ENTRIES && MapFresh(k, p, i, j).Some?
    requires k.mem[k.procs[p].pd][i] != 0
    ensures var t := FrameOf(k.mem[k.procs[p].pd][i]); var g := TakeFrame(k).value.1;
      t < |k.mem| && MapFresh(k, p, i, j).value == WithPage(k, t, j, g)
  {
  }

  lemma PokeTwice(mem: seq<seq<nat>>, t: nat, j: nat, a: nat, b: nat)
    requires t < |mem| && j < |mem[t]|
    ensures Poke(Poke(mem, t, j, a), t, j, b) == Poke(mem, t, j, b)
  {
    assert mem[t][j := a][j := b] == mem[t][j := b];
  }

  /** Mapping a page keeps every frame with one owner and one purpose; the frame of
      a page that was mapped already is the one that is lost. */
  lemma MapFreshOwned(k: Kernel, own: Owners, sys: set<nat>, p: nat, i: nat, j: nat)
    requires Owned(k, own, sys) && p in k.procs && i < USER_ENTRIES && j < ENTRIES
    requires MapFresh(k, p, i, j).Some? && TableReady(k, p, i, j)
    ensures Owned(MapFresh(k, p, i, j).value, OwnersAfterMap(k, own, p, i, j), sys + LostFrames(k, p, i, j))
  {
    match Translate(k.mem, k.procs[p].pd, i, j)
    case None =>
      MapNewOwned(k, own, sys, p, i, j);
      assert sys + LostFrames(k, p, i, j) == sys;
    case Some(x) => MapOverOwned(k, own, sys, p, i, j, FrameOf(x));
  }

  // ----- one owner, one account

  /** The page tables give a frame its role. */
  lemma RoleForced(k: Kernel, own: Owners, sys: set<nat>, own2: Owners, sys2: set<nat>, f: nat)
    requires Owned(k, own, sys) && Owned(k, own2, sys2) && f in own && !own[f].System?
    ensures f in own2 && own2[f] == own[f]
  {
    match own[f]
    case Dir(p) => assert own2[k.procs[p].pd] == Dir(p);
    case Stack(p) => assert own2[StackFrame(k.procs[p].kernelStack)] == Stack(p);
    case Table(p, i) => assert Names(own2, k.mem[k.procs[p].pd][i], Table(p, i));
    case Page(p, i, j) => PageForced(k, own, sys, own2, sys2, f);
  }

  lemma PageForced(k: Kernel, own: Owners, sys: set<nat>, own2: Owners, sys2: set<nat>, f: nat)
    requires Owned(k, own, sys) && Owned(k, own2, sys2) && f in own && own[f].Page?
    ensures f in own2 && own2[f] == own[f]
  {
    hide Roots, TablesUp;
    var Page(p, i, j) := own[f];
    var e := k.mem[k.procs[p].pd][i];
    assert Translate(k.mem, k.procs[p].pd, i, j) == Some(EntryFor(f, USER_FLAGS));
    assert Names(own2, e, Table(p, i));
    assert Names(own2, k.mem[FrameOf(e)][j], Page(p, i, j));
  }

  lemma SystemIs(k: Kernel, own: Owners, sys: set<nat>, f: nat)
    requires Owned(k, own, sys)
    ensures f in own <==> f in k.used
    ensures f in sys <==> f in own && own[f].System?
  {
  }

  /** Which frames are the kernel's is not a choice: two accounts of the same state
      agree. */
  lemma AccountsAgree(k: Kernel, own: Owners, sys: set<nat>, own2: Owners, sys2: set<nat>)
    requires Owned(k, own, sys) && Owned(k, own2, sys2)
    ensures sys == sys2
  {
    hide Owned;
    forall f: nat ensures f in sys <==> f in sys2 {
      SystemIs(k, own, sys, f);
      SystemIs(k, own2, sys2, f);
      if f in own && !own[f].System? { RoleForced(k, own, sys, own2, sys2, f); }
      if f in own2 && !own2[f].System? { RoleForced(k, own2, sys2, own, sys, f); }
    }
  }

  // ----- creation

  function UserHalfCleared(kernelHalf: seq<nat>): (r: seq<nat>)
    requires |kernelHalf| == ENTRIES
    ensures |r| == ENTRIES
    ensures forall i :: 0 <= i < USER_ENTRIES ==> r[i] == 0
    ensures forall i :: USER_ENTRIES <= i < ENTRIES ==> r[i] == kernelHalf[i]
  {
    seq(USER_ENTRIES, _ => 0) + kernelHalf[USER_ENTRIES..]
  }

  function WithContext(frame: seq<nat>, context: seq<nat>): (r: seq<nat>)
    requires |frame| == ENTRIES && |context| == CONTEXT / 4
    ensures |r| == ENTRIES && r[ENTRIES - CONTEXT / 4..] == context
  {
    frame[..ENTRIES - CONTEXT / 4] + context
  }

  /** `proc_create` up to its loop over stack pages: a directory that shares the
      kernel half, and a kernel stack with a saved context at its top. */
  function NewProcess(k: Kernel, p: nat, context: seq<nat>): (r: Option<Kernel>)
    requires Shaped(k) && |context| == CONTEXT / 4
    ensures r.Some? ==> Shaped(r.value) && |r.value.mem| == |k.mem| && p in r.value.procs
  {
    match TakeFrame(k)
    case None => None
    case Some((k1, d)) =>
      match TakeFrame(k1)
      case None => None
      case Some((k2, s)) =>
        var mem := k.mem[d := UserHalfCleared(k.mem[k.kernelPd])];
        var stack := KERNEL_BASE + (s + 1) * PAGE - CONTEXT;
        Some(k2.(mem := mem[s := WithContext(mem[s], context)],
                 procs := k.procs[p := Process(d, stack, 0, 0, [])]))
  }

  function OwnersAfterNew(k: Kernel, own: Owners, p: nat): Owners
    requires TakeFrame(k).Some? && TakeFrame(TakeFrame(k).value.0).Some?
  {
    var (k1, d) := TakeFrame(k).value;
    own[d := Dir(p)][TakeFrame(k1).value.1 := Stack(p)]
  }

  lemma NewProcessFrames(k: Kernel, own: Owners, sys: set<nat>, p: nat, context: seq<nat>)
    requires Owned(k, own, sys) && |context| == CONTEXT / 4
    requires NewProcess(k, p, context).Some?
    ensures var k' := NewProcess(k, p, context).value;
      var d := TakeFrame(k).value.1; var s := TakeFrame(TakeFrame(k).value.0).value.1;
      && d < |k.mem| && s < |k.mem| && d != s && d !in own && s !in own
      && k'.used == k.used + {d, s} && k'.procs[p].pd == d && StackTop(k'.procs[p].kernelStack, s)
      && (forall f :: 0 <= f < |k.mem| && f != d && f != s ==> k'.mem[f] == k.mem[f])
      && (forall i :: 0 <= i < USER_ENTRIES ==> k'.mem[d][i] == 0)
      && (forall q :: q in k.procs && q != p ==> k'.procs[q] == k.procs[q])
      && k'.procs.Keys == k.procs.Keys + {p}
  {
  }

  lemma NewProcessOwned(k: Kernel, own: Owners, sys: set<nat>, p: nat, context: seq<nat>)
    requires Owned(k, own, sys) && |context| == CONTEXT / 4 && p !in k.procs
    requires NewProcess(k, p, context).Some?
    ensures Owned(NewProcess(k, p, context).value, OwnersAfterNew(k, own, p), sys)
  {
    var k' := NewProcess(k, p, context).value;
    var own' := OwnersAfterNew(k, own, p);
    var d := TakeFrame(k).value.1;
    var s := TakeFrame(TakeFrame(k).value.0).value.1;
    NewProcessFrames(k, own, sys, p, context);
    NewProcessKnown(k, own, sys, p, context);
    hide NewProcess, Known, StackTop, StackFrame;
    NewProcessRoots(k, k', own, p, d, s);
    forall q | q in k.procs ensures k'.mem[k.procs[q].pd] == k.mem[k.procs[q].pd] {
      assert own[k.procs[q].pd] == Dir(q);
    }
    hide Roots;
    NewProcessTables(k, k', own, own', p, d, s);
  }

  lemma NewProcessKnown(k: Kernel, own: Owners, sys: set<nat>, p: nat, context: seq<nat>)
    requires Shaped(k) && Known(k, own, sys) && |context| == CONTEXT / 4
    requires NewProcess(k, p, context).Some?
    ensures Known(NewProcess(k, p, context).value, OwnersAfterNew(k, own, p), sys)
  {
  }

  lemma NewProcessTables(k: Kernel, k': Kernel, own: Owners, own': Owners, p: nat, d: nat, s: nat)
    requires Shaped(k) && Shaped(k') && p !in k.procs && |k'.mem| == |k.mem|
    requires TablesDown(k, own) && TablesUp(k, own) && PagesDown(k, own) && PagesUp(k, own)
    requires d < |k.mem| && s < |k.mem| && d !in own && s !in own && d != s
    requires own' == own[d := Dir(p)][s := Stack(p)]
    requires forall f :: 0 <= f < |k.mem| && f != d && f != s ==> k'.mem[f] == k.mem[f]
    requires k'.procs.Keys == k.procs.Keys + {p} && k'.procs[p].pd == d
    requires forall q :: q in k.procs ==> k'.procs[q] == k.procs[q]
    requires forall q :: q in k.procs ==> k'.mem[k.procs[q].pd] == k.mem[k.procs[q].pd]
    requires forall i :: 0 <= i < USER_ENTRIES ==> k'.mem[d][i] == 0
    ensures TablesDown(k', own') && TablesUp(k', own') && PagesDown(k', own') && PagesUp(k', own')
  {
    NewProcessPages(k, k', own, own', p, d, s);
    hide PagesDown, PagesUp;
  }

  lemma NewProcessPages(k: Kernel, k': Kernel, own: Owners, own': Owners, p: nat, d: nat, s: nat)
    requires Shaped(k) && Shaped(k') && p !in k.procs && |k'.mem| == |k.mem|
    requires TablesDown(k, own) && TablesUp(k, own) && PagesDown(k, own) && PagesUp(k, own)
    requires d < |k.mem| && s < |k.mem| && d !in own && s !in own && d != s
    requires own' == own[d := Dir(p)][s := Stack(p)]
    requires forall f :: 0 <= f < |k.mem| && f != d && f != s ==> k'.mem[f] == k.mem[f]
    requires k'.procs.Keys == k.procs.Keys + {p} && k'.procs[p].pd == d
    requires forall q :: q in k.procs ==> k'.procs[q] == k.procs[q]
    requires forall q :: q in k.procs ==> k'.mem[k.procs[q].pd] == k.mem[k.procs[q].pd]
    ensures PagesDown(k', own') && PagesUp(k', own')
  {
    assert PagesDown(k', own') by { hide PagesUp, TablesUp, TablesDown; }
    hide PagesDown, TablesUp;
    forall f | f in own' && own'[f].Page?
      ensures Translate(k'.mem, k'.procs[own'[f].p].pd, own'[f].i, own'[f].j) == Some(EntryFor(f, USER_FLAGS))
    {
      var r := own[f];
      assert Translate(k.mem, k.procs[r.p].pd, r.i, r.j) == Some(EntryFor(f, USER_FLAGS));
      assert Names(own, k.mem[k.procs[r.p].pd][r.i], Table(r.p, r.i));
    }
  }

  lemma NewProcessRoots(k: Kernel, k': Kernel, own: Owners, p: nat, d: nat, s: nat)
    requires Roots(k, own) && p !in k.procs && d !in own && s !in own && d != s
    requires p in k'.procs && k'.procs[p].pd == d && StackTop(k'.procs[p].kernelStack, s)
    requires forall q :: q in k.procs && q != p ==> q in k'.procs && k'.procs[q] == k.procs[q]
    requires k'.procs.Keys == k.procs.Keys + {p}
    ensures Roots(k', own[d := Dir(p)][s := Stack(p)])
  {
    hide StackTop, StackFrame;
    assert StackFrame(k'.procs[p].kernelStack) == s;
    forall q | q in k.procs
      ensures q != p && k.procs[q].pd !in {d, s} && StackFrame(k.procs[q].kernelStack) !in {d, s}
    {
    }
  }

  // ----- destruction

  /** The frames `proc_destroy` frees for table `t` from entry `j` on, in order. */
  function PageFrees(table: seq<nat>, j: nat): seq<nat>
    requires j <= |table|
    decreases |table| - j
  {
    if j == |table| then []
    else (if Present(table[j]) then [FrameOf(table[j])] else []) + PageFrees(table, j + 1)
  }

  function TableFrees(mem: seq<seq<nat>>, d: nat, i: nat): seq<nat>
    requires d < |mem| && i <= USER_ENTRIES <= |mem[d]|
    decreases USER_ENTRIES - i
  {
    if i == USER_ENTRIES then []
    else
      var t := FrameOf(mem[d][i]);
      (if Present(mem[d][i]) && t < |mem| then PageFrees(mem[t], 0) + [t] else []) + TableFrees(mem, d, i + 1)
  }

  /** All frames `proc_destroy` frees, in order: the kernel stack, every table
      behind its pages, the directory. */
  function Frees(k: Kernel, p: nat): seq<nat>
    requires Shaped(k) && p in k.procs
  {
    [StackFrame(k.procs[p].kernelStack)] + TableFrees(k.mem, k.procs[p].pd, 0) + [k.procs[p].pd]
  }

  function Elements(s: seq<nat>): set<nat> {
    set x | x in s
  }

  function Destroy(k: Kernel, p: nat): (r: Kernel)
    requires Shaped(k) && p in k.procs
    ensures Shaped(r) && r.mem == k.mem
  {
    k.(used := k.used - Elements(Frees(k, p)), procs := k.procs - {p})
  }

  /** No frame of the list is freed twice, and none that is not in use. */
  predicate FreedOnce(used: set<nat>, s: seq<nat>) {
    (forall x :: x in s ==> x in used) && forall a, b :: 0 <= a < b < |s| ==> s[a] != s[b]
  }

  predicate PageFrom(own: Owners, f: nat, p: nat, i: nat, j: nat) {
    f in own && own[f].Page? && own[f].p == p && own[f].i == i && own[f].j >= j
  }

  lemma {:induction false} PageFreesOwned(own: Owners, table: seq<nat>, p: nat, i: nat, j: nat)
    requires j <= |table|
    requires forall x :: 0 <= x < |table| && Present(table[x]) ==> Names(own, table[x], Page(p, i, x))
    requires forall f :: f in own && own[f].Page? && own[f].p == p && own[f].i == i ==>
               own[f].j < |table| && table[own[f].j] == EntryFor(f, USER_FLAGS)
    ensures forall f: nat :: f in PageFrees(table, j) <==> PageFrom(own, f, p, i, j)
    ensures FreedOnce(own.Keys, PageFrees(table, j))
    decreases |table| - j
  {
    hide EntryFor, PageFrom, FreedOnce;
    if j == |table| {
      forall f: nat ensures !PageFrom(own, f, p, i, j) { PageBefore(own, table, f, p, i); }
      FreedNothing(own.Keys);
    } else {
      PageFreesOwned(own, table, p, i, j + 1);
      var rest := PageFrees(table, j + 1);
      forall f: nat
        ensures PageFrom(own, f, p, i, j) <==>
                  PageFrom(own, f, p, i, j + 1) || (Present(table[j]) && f == FrameOf(table[j])) {
        PageHere(own, table, f, p, i, j);
      }
      if Present(table[j]) {
        assert !PageFrom(own, FrameOf(table[j]), p, i, j + 1) by { PageHere(own, table, FrameOf(table[j]), p, i, j); }
        assert PageFrees(table, j) == [FrameOf(table[j])] + rest;
        assert Names(own, table[j], Page(p, i, j));
        FreedFirst(own.Keys, FrameOf(table[j]), rest);
      } else {
        assert PageFrees(table, j) == rest;
      }
    }
  }

  lemma FreedNothing(used: set<nat>)
    ensures FreedOnce(used, [])
  {
  }

  lemma FreedFirst(used: set<nat>, f: nat, rest: seq<nat>)
    requires FreedOnce(used, rest) && f in used && f !in rest
    ensures FreedOnce(used, [f] + rest)
  {
  }

  lemma PageBefore(own: Owners, table: seq<nat>, f: nat, p: nat, i: nat)
    requires forall f :: f in own && own[f].Page? && own[f].p == p && own[f].i == i ==> own[f].j < |table|
    ensures !PageFrom(own, f, p, i, |table|)
  {
  }

  lemma PageHere(own: Owners, table: seq<nat>, f: nat, p: nat, i: nat, j: nat)
    requires j < |table|
    requires forall x :: 0 <= x < |table| && Present(table[x]) ==> Names(own, table[x], Page(p, i, x))
    requires forall f :: f in own && own[f].Page? && own[f].p == p && own[f].i == i ==>
               own[f].j < |table| && table[own[f].j] == EntryFor(f, USER_FLAGS)
    ensures PageFrom(own, f, p, i, j) <==>
              PageFrom(own, f, p, i, j + 1) || (Present(table[j]) && f == FrameOf(table[j]))
    ensures Present(table[j]) && f == FrameOf(table[j]) ==> !PageFrom(own, f, p, i, j + 1)
  {
    hide FrameOf, Present;
    assert Present(table[j]) ==> Names(own, table[j], Page(p, i, j));
  }

  predicate BehindTable(own: Owners, f: nat, p: nat, i: nat) {
    && f in own && (own[f].Table? || own[f].Page?)
    && own[f].p == p && own[f].i >= i
  }

  lemma FreedOnceConcat(used: set<nat>, a: seq<nat>, b: seq<nat>)
    requires FreedOnce(used, a) && FreedOnce(used, b)
    requires forall x :: x in a ==> x !in b
    ensures FreedOnce(used, a + b)
  {
    var s := a + b;
    forall i, j | 0 <= i < j < |s| ensures s[i] != s[j] {
      if i < |a| <= j {
        assert s[i] in a && s[j] in b;
      }
    }
  }

  /** The frames behind table `i`: its pages, then the table itself. */
  lemma OneTableFrees(k: Kernel, own: Owners, sys: set<nat>, p: nat, i: nat)
    requires Owned(k, own, sys) && p in k.procs && i < USER_ENTRIES
    requires Present(k.mem[k.procs[p].pd][i])
    ensures var t := FrameOf(k.mem[k.procs[p].pd][i]);
      && t < |k.mem| && own.Keys == k.used
      && FreedOnce(k.used, PageFrees(k.mem[t], 0) + [t])
      && forall f: nat :: f in PageFrees(k.mem[t], 0) + [t] <==> BehindTable(own, f, p, i) && own[f].i == i
  {
    var e := k.mem[k.procs[p].pd][i];
    assert Names(own, e, Table(p, i));
    var t := FrameOf(e);
    TableContents(k, own, sys, p, i, t);
    TableUnique(k, own, sys, p, i);
    hide TablesDown, TablesUp, PagesDown, PagesUp, Roots;
    PageFreesOwned(own, k.mem[t], p, i, 0);
    FreedOnceConcat(k.used, PageFrees(k.mem[t], 0), [t]);
  }

  lemma TableContents(k: Kernel, own: Owners, sys: set<nat>, p: nat, i: nat, t: nat)
    requires Owned(k, own, sys) && p in k.procs && i < USER_ENTRIES
    requires k.mem[k.procs[p].pd][i] == EntryFor(t, USER_FLAGS) && t in own && own[t] == Table(p, i)
    ensures t < |k.mem|
    ensures forall x :: 0 <= x < ENTRIES && Present(k.mem[t][x]) ==> Names(own, k.mem[t][x], Page(p, i, x))
    ensures forall f :: f in own && own[f].Page? && own[f].p == p && own[f].i == i ==>
              own[f].j < ENTRIES && k.mem[t][own[f].j] == EntryFor(f, USER_FLAGS)
  {
    hide Roots, TablesUp, TablesDown;
  }

  lemma TableUnique(k: Kernel, own: Owners, sys: set<nat>, p: nat, i: nat)
    requires Owned(k, own, sys) && p in k.procs && i < USER_ENTRIES
    ensures forall f :: f in own && own[f].Table? && own[f].p == p && own[f].i == i ==>
              k.mem[k.procs[p].pd][i] == EntryFor(f, USER_FLAGS)
  {
  }

  lemma {:induction false} TableFreesOwned(k: Kernel, own: Owners, sys: set<nat>, p: nat, i: nat)
    requires Owned(k, own, sys) && p in k.procs && i <= USER_ENTRIES
    ensures forall f: nat :: f in TableFrees(k.mem, k.procs[p].pd, i) <==> BehindTable(own, f, p, i)
    ensures FreedOnce(k.used, TableFrees(k.mem, k.procs[p].pd, i))
    decreases USER_ENTRIES - i
  {
    var d := k.procs[p].pd;
    RolesInRange(k, own, sys);
    if i < USER_ENTRIES {
      TableFreesOwned(k, own, sys, p, i + 1);
      var rest := TableFrees(k.mem, d, i + 1);
      var e := k.mem[d][i];
      if Present(e) {
        OneTableFrees(k, own, sys, p, i);
        var here := PageFrees(k.mem[FrameOf(e)], 0) + [FrameOf(e)];
        assert TableFrees(k.mem, d, i) == here + rest;
        hide Owned, PageFrees, TableFrees;
        FreedOnceConcat(k.used, here, rest);
      } else {
        NothingBehind(k, own, sys, p, i);
        assert TableFrees(k.mem, d, i) == rest;
      }
    }
  }

  lemma RolesInRange(k: Kernel, own: Owners, sys: set<nat>)
    requires Owned(k, own, sys)
    ensures forall f :: f in own && (own[f].Table? || own[f].Page?) ==> own[f].i < USER_ENTRIES
  {
  }

  lemma NothingBehind(k: Kernel, own: Owners, sys: set<nat>, p: nat, i: nat)
    requires Owned(k, own, sys) && p in k.procs && i < USER_ENTRIES
    requires !Present(k.mem[k.procs[p].pd][i])
    ensures forall f :: f in own && (own[f].Table? || own[f].Page?) && own[f].p == p ==> own[f].i != i
  {
  }

  lemma ShapedKnown(k: Kernel, own: Owners, sys: set<nat>)
    requires Owned(k, own, sys)
    ensures Shaped(k) && own.Keys == k.used && sys <= k.used
  {
  }

  lemma RootsUnique(k: Kernel, own: Owners, sys: set<nat>, p: nat)
    requires Owned(k, own, sys) && p in k.procs
    ensures own.Keys == k.used
    ensures forall f :: f in own && own[f] == Dir(p) <==> f == k.procs[p].pd
    ensures forall f: nat :: f in own && own[f] == Stack(p) <==> f == StackFrame(k.procs[p].kernelStack)
  {
    hide TablesDown, TablesUp, PagesDown, PagesUp, StackTop, StackFrame;
  }

  /** `proc_destroy` frees exactly the frames the process owns, each once. */
  lemma DestroyFreesOwned(k: Kernel, own: Owners, sys: set<nat>, p: nat)
    requires Owned(k, own, sys) && p in k.procs
    ensures FreedOnce(k.used, Frees(k, p))
    ensures forall f: nat :: f in Frees(k, p) <==> f in own && About(own[f], p)
  {
    hide Owned, TableFrees, StackFrame, BehindTable;
    ShapedKnown(k, own, sys);
    TableFreesOwned(k, own, sys, p, 0);
    RootsUnique(k, own, sys, p);
    FreesAssembled(own, p, StackFrame(k.procs[p].kernelStack), TableFrees(k.mem, k.procs[p].pd, 0), k.procs[p].pd);
  }

  lemma FreesAssembled(own: Owners, p: nat, s: nat, middle: seq<nat>, d: nat)
    requires forall f: nat :: f in own && own[f] == Dir(p) <==> f == d
    requires forall f: nat :: f in own && own[f] == Stack(p) <==> f == s
    requires forall f: nat :: f in middle <==> BehindTable(own, f, p, 0)
    requires FreedOnce(own.Keys, middle)
    ensures FreedOnce(own.Keys, [s] + middle + [d])
    ensures forall f: nat :: f in [s] + middle + [d] <==> f in own && About(own[f], p)
  {
    FreedOnceEnds(own.Keys, s, middle, d);
    forall f: nat ensures f in [s] + middle + [d] <==> f in own && About(own[f], p) {
      RoleCases(own, f, p);
    }
  }

  lemma RoleCases(own: Owners, f: nat, p: nat)
    ensures f in own && About(own[f], p) <==>
            (f in own && own[f] == Dir(p)) || (f in own && own[f] == Stack(p)) || BehindTable(own, f, p, 0)
  {
  }

  lemma FreedOnceEnds(used: set<nat>, s: nat, middle: seq<nat>, d: nat)
    requires FreedOnce(used, middle) && s in used && d in used && s != d && s !in middle && d !in middle
    ensures FreedOnce(used, [s] + middle + [d])
  {
    FreedOnceConcat(used, [s], middle);
    FreedOnceConcat(used, [s] + middle, [d]);
  }

  function Others(own: Owners, p: nat): (r: Owners)
    ensures forall f :: f in r <==> f in own && !About(own[f], p)
    ensures forall f :: f in r ==> r[f] == own[f]
  {
    map f | f in own && !About(own[f], p) :: own[f]
  }

  /** After destruction the frames in use are those before it without the
      process's own, and all other ownership stands. */
  lemma DestroyOwned(k: Kernel, own: Owners, sys: set<nat>, p: nat)
    requires Owned(k, own, sys) && p in k.procs
    ensures Owned(Destroy(k, p), Others(own, p), sys)
  {
    DestroyFreesOwned(k, own, sys, p);
    DestroyKnown(k, own, sys, p);
    DestroyRoots(k, own, p);
    DestroyTables(k, own, p);
    DestroyPages(k, own, p);
    hide Known, Roots, TablesDown, TablesUp, PagesDown, PagesUp, Destroy, Others, FreedOnce;
  }

  lemma DestroyKnown(k: Kernel, own: Owners, sys: set<nat>, p: nat)
    requires Shaped(k) && Known(k, own, sys) && p in k.procs
    requires forall f: nat :: f in Frees(k, p) <==> f in own && About(own[f], p)
    ensures Known(Destroy(k, p), Others(own, p), sys)
  {
    hide Frees;
    assert Others(own, p).Keys == Destroy(k, p).used;
  }

  lemma DestroyTables(k: Kernel, own: Owners, p: nat)
    requires Shaped(k) && p in k.procs && TablesDown(k, own) && TablesUp(k, own)
    ensures TablesDown(Destroy(k, p), Others(own, p)) && TablesUp(Destroy(k, p), Others(own, p))
  {
    hide Frees;
  }

  lemma DestroyPages(k: Kernel, own: Owners, p: nat)
    requires Shaped(k) && p in k.procs && PagesDown(k, own) && PagesUp(k, own)
    ensures PagesDown(Destroy(k, p), Others(own, p)) && PagesUp(Destroy(k, p), Others(own, p))
  {
    hide Frees;
  }

  lemma DestroyRoots(k: Kernel, own: Owners, p: nat)
    requires Shaped(k) && Roots(k, own) && p in k.procs
    ensures Roots(Destroy(k, p), Others(own, p))
  {
    hide StackTop, StackFrame, Frees;
  }

  // ----- context switches

  /** The scheduler loads `esp0` for the process it picks; a trap from user mode
      pushes its 13 words below `esp0`, and the scheduler saves where they start. */
  function Dispatch(k: Kernel, p: nat): Kernel
    requires p in k.procs
  {
    k.(current := Some(p), esp0 := k.procs[p].kernelStack + CONTEXT)
  }

  function Trap(k: Kernel): Kernel {
    match k.current
    case Some(p) =>
      if p in k.procs && k.esp0 >= CONTEXT then
        k.(procs := k.procs[p := k.procs[p].(kernelStack := k.esp0 - CONTEXT)])
      else k
    case None => k
  }

  /** `kernel_stack + 52` is what the hardware was last told, so it names the top
      of the running process's stack frame. */
  predicate Esp0Current(k: Kernel) {
    match k.current
    case Some(p) => p in k.procs && k.esp0 == k.procs[p].kernelStack + CONTEXT
    case None => true
  }

  // ----- runs

  datatype Op =
    | Create(p: nat, context: seq<nat>)
    | MapPage(p: nat, v: nat)
    | Unmap(p: nat, v: nat)
    | UserWrite(p: nat, v: nat, x: nat, w: nat)
    | Fill(p: nat, v: nat, row: seq<nat>)
    | SetBreak(p: nat, programBreak: nat)
    | SetRegions(p: nat, mmapNext: nat, regions: seq<Region>)
    | Switch(p: nat)
    | Interrupt
    | Kill(p: nat)

  const USER_PAGES: nat := USER_ENTRIES * ENTRIES

  /** A store of the user program into a mapped page. */
  function StoreInto(k: Kernel, p: nat, v: nat, x: nat, w: nat): Kernel
    requires Shaped(k) && p in k.procs && x < ENTRIES
  {
    match Translate(k.mem, k.procs[p].pd, TableIndex(v), EntryIndex(v))
    case None => k
    case Some(e) => if FrameOf(e) < |k.mem| then k.(mem := Poke(k.mem, FrameOf(e), x, w)) else k
  }

  /** The kernel fills the frame of a mapped page. */
  function FillInto(k: Kernel, p: nat, v: nat, row: seq<nat>): Kernel
    requires Shaped(k) && p in k.procs && |row| == ENTRIES
  {
    match Translate(k.mem, k.procs[p].pd, TableIndex(v), EntryIndex(v))
    case None => k
    case Some(e) => if FrameOf(e) < |k.mem| then k.(mem := k.mem[FrameOf(e) := row]) else k
  }

  /** What a caller can see before the call: the process exists, the page lies in
      the user half, and the frame a missing table would be given holds no stale
      present entries. */
  predicate Allowed(k: Kernel, op: Op)
    requires Shaped(k)
  {
    match op
    case Create(p, context) => p !in k.procs && |context| == CONTEXT / 4
    case MapPage(p, v) =>
      p in k.procs && v < USER_PAGES && TableReady(k, p, TableIndex(v), EntryIndex(v))
    case Unmap(p, v) => p in k.procs && v < USER_PAGES
    case UserWrite(p, v, x, w) => p in k.procs && v < USER_PAGES && x < ENTRIES
    case Fill(p, v, row) => p in k.procs && v < USER_PAGES && |row| == ENTRIES
    case SetBreak(p, _) => p in k.procs
    case SetRegions(p, _, _) => p in k.procs
    case Switch(p) => p in k.procs
    case Interrupt => true
    case Kill(p) => p in k.procs && k.current != Some(p)
  }

  function Step(k: Kernel, op: Op): (r: Option<Kernel>)
    requires Shaped(k) && Allowed(k, op)
    ensures r.Some? ==> Shaped(r.value)
  {
    match op
    case Create(p, context) => NewProcess(k, p, context)
    case MapPage(p, v) => MapFresh(k, p, TableIndex(v), EntryIndex(v))
    case Unmap(p, v) => Some(UnmapPage(k, p, TableIndex(v), EntryIndex(v)))
    case UserWrite(p, v, x, w) => Some(StoreInto(k, p, v, x, w))
    case Fill(p, v, row) => Some(FillInto(k, p, v, row))
    case SetBreak(p, b) => Some(k.(procs := k.procs[p := k.procs[p].(programBreak := b)]))
    case SetRegions(p, next, regions) =>
      Some(k.(procs := k.procs[p := k.procs[p].(mmapNext := next, regions := regions)]))
    case Switch(p) => Some(Dispatch(k, p))
    case Interrupt => Some(Trap(k))
    case Kill(p) => Some(Destroy(k, p))
  }

  function OwnersAfter(k: Kernel, own: Owners, op: Op): Owners
    requires Shaped(k) && Allowed(k, op) && Step(k, op).Some?
  {
    match op
    case Create(p, context) => OwnersAfterNew(k, own, p)
    case MapPage(p, v) => OwnersAfterMap(k, own, p, TableIndex(v), EntryIndex(v))
    case Unmap(p, v) => OwnersAfterUnmap(k, own, p, TableIndex(v), EntryIndex(v))
    case Kill(p) => Others(own, p)
    case _ => own
  }

  /** The frames a step leaves in use with nothing to name them. */
  function LostBy(k: Kernel, op: Op): set<nat>
    requires Shaped(k) && Allowed(k, op)
  {
    match op
    case MapPage(p, v) => LostFrames(k, p, TableIndex(v), EntryIndex(v))
    case _ => {}
  }

  lemma RecordOwned(k: Kernel, own: Owners, sys: set<nat>, p: nat, r: Process)
    requires Owned(k, own, sys) && p in k.procs
    requires r.pd == k.procs[p].pd && r.kernelStack == k.procs[p].kernelStack
    ensures Owned(k.(procs := k.procs[p := r]), own, sys)
  {
    var k' := k.(procs := k.procs[p := r]);
    assert Known(k', own, sys);
    RecordRoots(k, k', own);
    RecordTables(k, k', own);
    RecordPages(k, k', own);
    hide *;
  }

  predicate SameRoots(k: Kernel, k': Kernel) {
    && k'.procs.Keys == k.procs.Keys
    && forall q :: q in k.procs ==> k'.procs[q].pd == k.procs[q].pd && k'.procs[q].kernelStack == k.procs[q].kernelStack
  }

  lemma RecordRoots(k: Kernel, k': Kernel, own: Owners)
    requires Roots(k, own) && SameRoots(k, k')
    ensures Roots(k', own)
  {
    hide StackTop, StackFrame;
  }

  lemma RecordTables(k: Kernel, k': Kernel, own: Owners)
    requires Shaped(k) && Shaped(k') && SameRoots(k, k') && k'.mem == k.mem
    requires TablesDown(k, own) && TablesUp(k, own)
    ensures TablesDown(k', own) && TablesUp(k', own)
  {
  }

  lemma RecordPages(k: Kernel, k': Kernel, own: Owners)
    requires Shaped(k) && Shaped(k') && SameRoots(k, k') && k'.mem == k.mem
    requires PagesDown(k, own) && PagesUp(k, own)
    ensures PagesDown(k', own) && PagesUp(k', own)
  {
  }

  lemma StoreOwned(k: Kernel, own: Owners, sys: set<nat>, p: nat, v: nat, x: nat, w: nat)
    requires Owned(k, own, sys) && p in k.procs && v < USER_PAGES && x < ENTRIES
    ensures Owned(StoreInto(k, p, v, x, w), own, sys)
  {
    var i, j := TableIndex(v), EntryIndex(v);
    var tr := Translate(k.mem, k.procs[p].pd, i, j);
    if tr.Some? {
      UnmapOwned(k, own, sys, p, i, j);
      FrameWriteOwned(k, own, sys, FrameOf(tr.value), x, w);
    }
  }

  lemma FillOwned(k: Kernel, own: Owners, sys: set<nat>, p: nat, v: nat, row: seq<nat>)
    requires Owned(k, own, sys) && p in k.procs && v < USER_PAGES && |row| == ENTRIES
    ensures Owned(FillInto(k, p, v, row), own, sys)
  {
    var i, j := TableIndex(v), EntryIndex(v);
    var tr := Translate(k.mem, k.procs[p].pd, i, j);
    if tr.Some? {
      UnmapOwned(k, own, sys, p, i, j);
      FrameRowOwned(k, own, sys, FrameOf(tr.value), row);
    }
  }

  /** Writes to frames that are no table and no directory change no ownership. */
  lemma FrameWriteOwned(k: Kernel, own: Owners, sys: set<nat>, f: nat, x: nat, w: nat)
    requires Owned(k, own, sys) && f in own && own[f].Page? && x < ENTRIES
    ensures f < |k.mem| && Owned(k.(mem := Poke(k.mem, f, x, w)), own, sys)
  {
    var row: seq<nat> := k.mem[f][x := w];
    FrameRowOwned(k, own, sys, f, row);
  }

  /** The contents of a page frame may be anything. */
  lemma FrameRowOwned(k: Kernel, own: Owners, sys: set<nat>, f: nat, row: seq<nat>)
    requires Owned(k, own, sys) && f in own && own[f].Page? && |row| == ENTRIES
    ensures f < |k.mem| && Owned(k.(mem := k.mem[f := row]), own, sys)
  {
    var k' := k.(mem := k.mem[f := row]);
    assert Known(k', own, sys) && Roots(k', own);
    DirectoriesKept(k, k', own, f);
    hide Roots, Known, PagesUp;
    assert TablesDown(k', own) && TablesUp(k', own);
    assert PagesDown(k', own) by { hide TablesUp; }
    FramePagesUp(k, own, sys, f, row);
  }

  lemma FramePagesUp(k: Kernel, own: Owners, sys: set<nat>, f: nat, row: seq<nat>)
    requires Owned(k, own, sys) && f in own && own[f].Page? && |row| == ENTRIES && f < |k.mem|
    ensures PagesUp(k.(mem := k.mem[f := row]), own)
  {
    hide PagesDown, TablesUp;
    var k' := k.(mem := k.mem[f := row]);
    DirectoriesKept(k, k', own, f);
    forall g | g in own && own[g].Page?
      ensures Translate(k'.mem, k.procs[own[g].p].pd, own[g].i, own[g].j) == Some(EntryFor(g, USER_FLAGS))
    {
      var r := own[g];
      assert Translate(k.mem, k.procs[r.p].pd, r.i, r.j) == Some(EntryFor(g, USER_FLAGS));
      assert Names(own, k.mem[k.procs[r.p].pd][r.i], Table(r.p, r.i));
    }
  }

  /** One step, under its guard, keeps every frame with its one owner, apart from
      the frame it leaves with none when it maps over a mapped page. */
  lemma StepOwned(k: Kernel, own: Owners, sys: set<nat>, op: Op)
    requires Owned(k, own, sys) && Esp0Current(k) && Allowed(k, op) && Step(k, op).Some?
    ensures Owned(Step(k, op).value, OwnersAfter(k, own, op), sys + LostBy(k, op)) && Esp0Current(Step(k, op).value)
  {
    hide Owned;
    ShapedKnown(k, own, sys);
    assert !op.MapPage? ==> sys + LostBy(k, op) == sys;
    hide Step, OwnersAfter, LostBy, Esp0Current;
    match op
    case Create(p, context) => LifeStepOwned(k, own, sys, op);
    case MapPage(p, v) => MapStepOwned(k, own, sys, p, v);
    case Unmap(p, v) => LifeStepOwned(k, own, sys, op);
    case UserWrite(p, v, x, w) => RecordStepOwned(k, own, sys, op);
    case Fill(p, v, row) => RecordStepOwned(k, own, sys, op);
    case Kill(p) => LifeStepOwned(k, own, sys, op);
    case SetBreak(p, b) => RecordStepOwned(k, own, sys, op);
    case SetRegions(p, next, regions) => RecordStepOwned(k, own, sys, op);
    case Switch(p) => RecordStepOwned(k, own, sys, op);
    case Interrupt => RecordStepOwned(k, own, sys, op);
  }

  lemma LifeStepOwned(k: Kernel, own: Owners, sys: set<nat>, op: Op)
    requires Owned(k, own, sys) && Esp0Current(k) && Shaped(k) && Allowed(k, op) && Step(k, op).Some?
    requires op.Create? || op.Unmap? || op.Kill?
    ensures Owned(Step(k, op).value, OwnersAfter(k, own, op), sys) && Esp0Current(Step(k, op).value)
  {
    hide Owned, NewProcess, UnmapPage, Destroy, OwnersAfterNew, OwnersAfterUnmap, Others, Esp0Current;
    LifeStepEsp0(k, op);
    match op
    case Create(p, context) => NewProcessOwned(k, own, sys, p, context);
    case Unmap(p, v) => UnmapOwned(k, own, sys, p, TableIndex(v), EntryIndex(v));
    case Kill(p) => DestroyOwned(k, own, sys, p);
  }

  lemma LifeStepEsp0(k: Kernel, op: Op)
    requires Esp0Current(k) && Shaped(k) && Allowed(k, op) && Step(k, op).Some?
    requires op.Create? || op.Unmap? || op.Kill?
    ensures Esp0Current(Step(k, op).value)
  {
  }

  lemma MapStepOwned(k: Kernel, own: Owners, sys: set<nat>, p: nat, v: nat)
    requires Owned(k, own, sys) && Esp0Current(k) && Allowed(k, MapPage(p, v)) && Step(k, MapPage(p, v)).Some?
    ensures Owned(Step(k, MapPage(p, v)).value, OwnersAfter(k, own, MapPage(p, v)), sys + LostBy(k, MapPage(p, v)))
    ensures Esp0Current(Step(k, MapPage(p, v)).value)
  {
    hide Owned, TableReady, Translate;
    MapFreshOwned(k, own, sys, p, TableIndex(v), EntryIndex(v));
  }

  lemma RecordStepOwned(k: Kernel, own: Owners, sys: set<nat>, op: Op)
    requires Owned(k, own, sys) && Esp0Current(k) && Shaped(k) && Allowed(k, op)
    requires op.UserWrite? || op.Fill? || op.SetBreak? || op.SetRegions? || op.Switch? || op.Interrupt?
    ensures Step(k, op).Some? && OwnersAfter(k, own, op) == own
    ensures Owned(Step(k, op).value, own, sys) && Esp0Current(Step(k, op).value)
  {
    hide Owned;
    match op
    case UserWrite(p, v, x, w) => StoreOwned(k, own, sys, p, v, x, w);
    case Fill(p, v, row) => FillOwned(k, own, sys, p, v, row);
    case SetBreak(p, b) => RecordOwned(k, own, sys, p, k.procs[p].(programBreak := b));
    case SetRegions(p, next, regions) =>
      RecordOwned(k, own, sys, p, k.procs[p].(mmapNext := next, regions := regions));
    case Switch(p) => SwitchOwned(k, own, sys, Dispatch(k, p));
    case Interrupt => SavedStackSame(k);
  }

  lemma SwitchOwned(k: Kernel, own: Owners, sys: set<nat>, k': Kernel)
    requires Owned(k, own, sys)
    requires k'.mem == k.mem && k'.used == k.used && k'.procs == k.procs && k'.kernelPd == k.kernelPd
    ensures Owned(k', own, sys)
  {
    RecordRoots(k, k', own);
    RecordTables(k, k', own);
    RecordPages(k, k', own);
  }

  /** A trap saves the stack pointer the process was dispatched with: the record
      does not change. */
  lemma SavedStackSame(k: Kernel)
    requires Esp0Current(k)
    ensures Trap(k) == k
  {
    match k.current
    case Some(p) => assert k.procs[p := k.procs[p].(kernelStack := k.esp0 - CONTEXT)] == k.procs;
    case None =>
  }

  ghost predicate Runs(k: Kernel, ops: seq<Op>, t: Kernel)
    requires Shaped(k)
    decreases |ops|
  {
    if ops == [] then t == k
    else Allowed(k, ops[0]) && Step(k, ops[0]).Some? && Runs(Step(k, ops[0]).value, ops[1..], t)
  }

  function OwnersRun(k: Kernel, own: Owners, ops: seq<Op>, t: Kernel): Owners
    requires Shaped(k) && Runs(k, ops, t)
    decreases |ops|
  {
    if ops == [] then own
    else OwnersRun(Step(k, ops[0]).value, OwnersAfter(k, own, ops[0]), ops[1..], t)
  }

  function LostRun(k: Kernel, ops: seq<Op>, t: Kernel): set<nat>
    requires Shaped(k) && Runs(k, ops, t)
    decreases |ops|
  {
    if ops == [] then {} else LostBy(k, ops[0]) + LostRun(Step(k, ops[0]).value, ops[1..], t)
  }

  lemma {:induction false} RunOwned(k: Kernel, own: Owners, sys: set<nat>, ops: seq<Op>, t: Kernel)
    requires Owned(k, own, sys) && Esp0Current(k) && Runs(k, ops, t)
    ensures Owned(t, OwnersRun(k, own, ops, t), sys + LostRun(k, ops, t)) && Esp0Current(t)
    decreases |ops|
  {
    hide Owned, Step, Allowed, OwnersAfter, LostBy;
    ShapedKnown(k, own, sys);
    if ops == [] {
      assert sys + LostRun(k, ops, t) == sys;
    } else {
      StepOwned(k, own, sys, ops[0]);
      var k1 := Step(k, ops[0]).value;
      RunOwned(k1, OwnersAfter(k, own, ops[0]), sys + LostBy(k, ops[0]), ops[1..], t);
      assert sys + LostRun(k, ops, t) == sys + LostBy(k, ops[0]) + LostRun(k1, ops[1..], t);
    }
  }

  /** Before the first process every used frame is the kernel's. */
  lemma BootOwned(k: Kernel)
    requires Shaped(k) && k.procs == map[] && k.current == None && forall f :: f in k.used ==> f < |k.mem|
    ensures Owned(k, map f | f in k.used :: System, k.used) && Esp0Current(k)
  {
  }

  /** No leak over whole runs of any processes but by mapping over a mapped page:
      whatever was created, mapped, unmapped and destroyed, a used frame belongs to
      the kernel, to a process that still exists, or was lost that way; with no
      process left exactly the kernel's frames and those lost are used. */
  lemma NoFrameLost(k: Kernel, own: Owners, sys: set<nat>, ops: seq<Op>, t: Kernel)
    requires Owned(k, own, sys) && Esp0Current(k) && Runs(k, ops, t)
    ensures forall f :: f in t.used - sys - LostRun(k, ops, t) ==>
              exists p :: p in t.procs && Holds(OwnersRun(k, own, ops, t), f, p)
    ensures t.procs == map[] ==> t.used == sys + LostRun(k, ops, t)
  {
    RunOwned(k, own, sys, ops, t);
    var end := OwnersRun(k, own, ops, t);
    var kept := sys + LostRun(k, ops, t);
    hide Owned, LostRun, OwnersRun, Runs;
    ShapedKnown(t, end, kept);
    forall f | f in t.used - kept ensures exists p :: p in t.procs && Holds(end, f, p) {
      OwnerLives(t, end, kept, f);
      assert Holds(end, f, end[f].p);
    }
    forall f | f in t.used - sys - LostRun(k, ops, t) ensures f in t.used - kept {
    }
  }

  lemma OwnerLives(k: Kernel, own: Owners, sys: set<nat>, f: nat)
    requires Owned(k, own, sys) && f in k.used && f !in sys
    ensures f in own && !own[f].System? && own[f].p in k.procs && Holds(own, f, own[f].p)
  {
  }

  // ----- the life of one process

  predicate OpAbout(op: Op, p: nat) {
    match op
    case Create(_, _) => false
    case MapPage(q, _) => q == p
    case Unmap(q, _) => q == p
    case UserWrite(q, _, _, _) => q == p
    case Fill(q, _, _) => q == p
    case SetBreak(q, _) => q == p
    case SetRegions(q, _, _) => q == p
    case Switch(q) => true
    case Interrupt => true
    case Kill(_) => false
  }

  /** From `k` to `k'` only frames of process `p` are written, taken, freed or lost. */
  ghost predicate Local(k: Kernel, own: Owners, k': Kernel, own': Owners, p: nat, lost: set<nat>) {
    && Others(own', p) == WithLost(Others(own, p), lost) && lost !! Others(own, p).Keys && |k'.mem| == |k.mem|
    && (forall f :: f in own && !About(own[f], p) && f < |k.mem| ==> k'.mem[f] == k.mem[f])
    && k'.procs.Keys == k.procs.Keys
    && (forall q :: q in k.procs && q != p ==> k'.procs[q] == k.procs[q])
  }

  /** Seen from all other processes and the kernel, nothing has changed but for the
      frames lost. */
  ghost predicate OnlyAbout(k0: Kernel, own0: Owners, k: Kernel, own: Owners, p: nat, lost: set<nat>) {
    && Others(own, p) == WithLost(own0, lost) && lost !! own0.Keys && |k.mem| == |k0.mem|
    && (forall f :: f in own0 && f < |k.mem| ==> k.mem[f] == k0.mem[f])
    && k.procs.Keys == k0.procs.Keys + {p}
    && (forall q :: q in k0.procs ==> k.procs[q] == k0.procs[q])
  }

  lemma LocalKeeps(k0: Kernel, own0: Owners, k: Kernel, own: Owners, k': Kernel, own': Owners, p: nat,
      lost: set<nat>, more: set<nat>)
    requires p !in k0.procs && OnlyAbout(k0, own0, k, own, p, lost) && Local(k, own, k', own', p, more)
    ensures OnlyAbout(k0, own0, k', own', p, lost + more)
  {
    hide About;
    forall f | f in own0 ensures f in own && !About(own[f], p) && f !in more {
      assert f in Others(own, p);
    }
    LostTwice(own0, lost, more);
  }

  lemma LostTwice(own: Owners, lost: set<nat>, more: set<nat>)
    ensures WithLost(WithLost(own, lost), more) == WithLost(own, lost + more)
  {
  }

  lemma NothingLost(own: Owners)
    ensures WithLost(own, {}) == own
  {
  }

  lemma CreateOnlyAbout(k: Kernel, own: Owners, sys: set<nat>, p: nat, context: seq<nat>)
    requires Owned(k, own, sys) && p !in k.procs && |context| == CONTEXT / 4 && NewProcess(k, p, context).Some?
    ensures OnlyAbout(k, own, NewProcess(k, p, context).value, OwnersAfterNew(k, own, p), p, {})
  {
    NothingLost(own);
    NewProcessFrames(k, own, sys, p, context);
    NobodyElse(k, own, sys, p);
    hide Owned, NewProcess;
  }

  lemma NobodyElse(k: Kernel, own: Owners, sys: set<nat>, p: nat)
    requires Owned(k, own, sys) && p !in k.procs
    ensures forall f :: f in own ==> !About(own[f], p)
  {
    forall f | f in own ensures !About(own[f], p) {
      if !own[f].System? {
        SystemIs(k, own, sys, f);
        OwnerLives(k, own, sys, f);
      }
    }
  }

  lemma OwnDirectory(k: Kernel, own: Owners, sys: set<nat>, p: nat, i: nat)
    requires Owned(k, own, sys) && p in k.procs && i < USER_ENTRIES
    ensures var d := k.procs[p].pd; var e := k.mem[d][i];
      && Holds(own, d, p)
      && (e != 0 ==> Holds(own, FrameOf(e), p))
  {
    var e := k.mem[k.procs[p].pd][i];
    assert e == 0 || Names(own, e, Table(p, i));
  }

  lemma MapLocal(k: Kernel, own: Owners, sys: set<nat>, p: nat, i: nat, j: nat)
    requires Owned(k, own, sys) && p in k.procs && i < USER_ENTRIES && j < ENTRIES
    requires MapFresh(k, p, i, j).Some?
    ensures Local(k, own, MapFresh(k, p, i, j).value, OwnersAfterMap(k, own, p, i, j), p, LostFrames(k, p, i, j))
  {
    hide Owned, Local, OwnersAfterMap, LostFrames;
    ShapedKnown(k, own, sys);
    MapWrites(k, own, sys, p, i, j);
    MapOthers(k, own, sys, p, i, j);
    LocalParts(k, own, MapFresh(k, p, i, j).value, OwnersAfterMap(k, own, p, i, j), p, LostFrames(k, p, i, j));
  }

  lemma LocalParts(k: Kernel, own: Owners, k': Kernel, own': Owners, p: nat, lost: set<nat>)
    requires Others(own', p) == WithLost(Others(own, p), lost) && lost !! Others(own, p).Keys && |k'.mem| == |k.mem|
    requires forall f :: f in own && !About(own[f], p) && f < |k.mem| ==> k'.mem[f] == k.mem[f]
    requires k'.procs == k.procs
    ensures Local(k, own, k', own', p, lost)
  {
  }

  /** Only frames of the process are written. */
  lemma MapWrites(k: Kernel, own: Owners, sys: set<nat>, p: nat, i: nat, j: nat)
    requires Owned(k, own, sys) && p in k.procs && i < USER_ENTRIES && j < ENTRIES
    requires MapFresh(k, p, i, j).Some?
    ensures var k' := MapFresh(k, p, i, j).value;
      && |k'.mem| == |k.mem| && k'.procs == k.procs
      && forall f :: f in own && !About(own[f], p) && f < |k.mem| ==> k'.mem[f] == k.mem[f]
  {
    hide Owned;
    ShapedKnown(k, own, sys);
    OwnDirectory(k, own, sys, p, i);
    if k.mem[k.procs[p].pd][i] == 0 {
      TwoPokes(k, own, sys, p, i, j, TakeFrame(k).value.1, TableFrame(k).value);
    }
  }

  lemma MapOthers(k: Kernel, own: Owners, sys: set<nat>, p: nat, i: nat, j: nat)
    requires Owned(k, own, sys) && p in k.procs && i < USER_ENTRIES && j < ENTRIES
    requires MapFresh(k, p, i, j).Some?
    ensures var lost := LostFrames(k, p, i, j);
      && Others(OwnersAfterMap(k, own, p, i, j), p) == WithLost(Others(own, p), lost)
      && lost !! Others(own, p).Keys
  {
    hide Owned, MapFresh, Translate;
    ShapedKnown(k, own, sys);
    UnmapOwned(k, own, sys, p, i, j);
    MapTakes(k, p, i, j);
    var g := TakeFrame(k).value.1;
    var paged := own[g := Page(p, i, j)];
    var added := if k.mem[k.procs[p].pd][i] == 0 then paged[TableFrame(k).value := Table(p, i)] else paged;
    OthersAdded(own, added, p, LostFrames(k, p, i, j));
  }

  /** Frames given to `p`, and frames of `p` lost, are no change for the others. */
  lemma OthersAdded(own: Owners, added: Owners, p: nat, lost: set<nat>)
    requires forall f :: f in own ==> f in added && added[f] == own[f]
    requires forall f :: f in added && f !in own ==> About(added[f], p)
    requires forall f :: f in lost ==> f in own && About(own[f], p)
    ensures Others(WithLost(added, lost), p) == WithLost(Others(own, p), lost) && lost !! Others(own, p).Keys
  {
  }

  /** The frames taken were free. */
  lemma MapTakes(k: Kernel, p: nat, i: nat, j: nat)
    requires Shaped(k) && p in k.procs && i < ENTRIES && j < ENTRIES && MapFresh(k, p, i, j).Some?
    ensures TakeFrame(k).Some? && TakeFrame(k).value.1 !in k.used
    ensures k.mem[k.procs[p].pd][i] == 0 ==> TableFrame(k).Some? && TableFrame(k).value !in k.used
  {
  }

  lemma UnmapLocal(k: Kernel, own: Owners, sys: set<nat>, p: nat, i: nat, j: nat)
    requires Owned(k, own, sys) && p in k.procs && i < USER_ENTRIES && j < ENTRIES
    ensures Local(k, own, UnmapPage(k, p, i, j), OwnersAfterUnmap(k, own, p, i, j), p, {})
  {
    NothingLost(Others(own, p));
    hide Owned;
    ShapedKnown(k, own, sys);
    OwnDirectory(k, own, sys, p, i);
    UnmapOwned(k, own, sys, p, i, j);
  }

  lemma StoreLocal(k: Kernel, own: Owners, sys: set<nat>, p: nat, v: nat, x: nat, w: nat)
    requires Owned(k, own, sys) && p in k.procs && v < USER_PAGES && x < ENTRIES
    ensures Local(k, own, StoreInto(k, p, v, x, w), own, p, {})
  {
    NothingLost(Others(own, p));
    UnmapOwned(k, own, sys, p, TableIndex(v), EntryIndex(v));
    hide Owned;
  }

  lemma FillLocal(k: Kernel, own: Owners, sys: set<nat>, p: nat, v: nat, row: seq<nat>)
    requires Owned(k, own, sys) && p in k.procs && v < USER_PAGES && |row| == ENTRIES
    ensures Local(k, own, FillInto(k, p, v, row), own, p, {})
  {
    NothingLost(Others(own, p));
    UnmapOwned(k, own, sys, p, TableIndex(v), EntryIndex(v));
    hide Owned;
  }

  lemma StepLocal(k: Kernel, own: Owners, sys: set<nat>, p: nat, op: Op)
    requires Owned(k, own, sys) && Esp0Current(k) && Allowed(k, op) && Step(k, op).Some? && OpAbout(op, p)
    ensures Local(k, own, Step(k, op).value, OwnersAfter(k, own, op), p, LostBy(k, op))
  {
    assert Shaped(k);
    hide Owned, Local;
    match op
    case MapPage(p, v) => MapLocal(k, own, sys, p, TableIndex(v), EntryIndex(v));
    case Unmap(p, v) => UnmapLocal(k, own, sys, p, TableIndex(v), EntryIndex(v));
    case UserWrite(p, v, x, w) => StoreLocal(k, own, sys, p, v, x, w);
    case Fill(p, v, row) => FillLocal(k, own, sys, p, v, row);
    case Interrupt => SavedStackSame(k); RecordLocal(k, own, k, p);
    case SetBreak(_, _) => RecordLocal(k, own, Step(k, op).value, p);
    case SetRegions(_, _, _) => RecordLocal(k, own, Step(k, op).value, p);
    case Switch(_) => RecordLocal(k, own, Step(k, op).value, p);
  }

  lemma RecordLocal(k: Kernel, own: Owners, k': Kernel, p: nat)
    requires k'.mem == k.mem && k'.procs.Keys == k.procs.Keys
    requires forall q :: q in k.procs && q != p ==> k'.procs[q] == k.procs[q]
    ensures Local(k, own, k', own, p, {})
  {
    NothingLost(Others(own, p));
  }

  lemma {:induction false} RunOnlyAbout(
      k0: Kernel, own0: Owners, k: Kernel, own: Owners, sys: set<nat>, p: nat, ops: seq<Op>, t: Kernel, lost: set<nat>)
    requires p !in k0.procs && OnlyAbout(k0, own0, k, own, p, lost)
    requires Owned(k, own, sys) && Esp0Current(k) && Runs(k, ops, t)
    requires forall op :: op in ops ==> OpAbout(op, p)
    ensures OnlyAbout(k0, own0, t, OwnersRun(k, own, ops, t), p, lost + LostRun(k, ops, t))
    decreases |ops|
  {
    hide Owned, OnlyAbout, Local, Step, Allowed, OwnersAfter, LostBy, OpAbout;
    ShapedKnown(k, own, sys);
    if ops == [] {
      assert lost + LostRun(k, ops, t) == lost;
    } else {
      var k', own', more := Step(k, ops[0]).value, OwnersAfter(k, own, ops[0]), LostBy(k, ops[0]);
      StepOwned(k, own, sys, ops[0]);
      StepLocal(k, own, sys, p, ops[0]);
      LocalKeeps(k0, own0, k, own, k', own', p, lost, more);
      RunOnlyAbout(k0, own0, k', own', sys + more, p, ops[1..], t, lost + more);
      assert lost + more + LostRun(k', ops[1..], t) == lost + LostRun(k, ops, t);
    }
  }

  /** A whole process life conserves frames: created, mapped and unmapped in any
      mix, interrupted and switched, then destroyed, it leaves in use what was in
      use before and the frames lost by mapping over mapped pages, the same other
      processes, and every frame that was in use before as it was; and its
      destruction frees each of its frames once. */
  lemma LifeConserves(
      k0: Kernel, own0: Owners, sys: set<nat>, p: nat, context: seq<nat>, ops: seq<Op>, t: Kernel)
    requires Owned(k0, own0, sys) && Esp0Current(k0) && p !in k0.procs && |context| == CONTEXT / 4
    requires NewProcess(k0, p, context).Some? && Runs(NewProcess(k0, p, context).value, ops, t)
    requires forall op :: op in ops ==> OpAbout(op, p)
    requires t.current != Some(p)
    ensures Shaped(t) && p in t.procs && FreedOnce(t.used, Frees(t, p))
    ensures var lost := LostRun(NewProcess(k0, p, context).value, ops, t);
      Destroy(t, p).used == k0.used + lost && lost !! k0.used && Destroy(t, p).procs == k0.procs
    ensures |t.mem| == |k0.mem| && forall f :: f in k0.used && f < |t.mem| ==> t.mem[f] == k0.mem[f]
  {
    hide *;
    ShapedKnown(k0, own0, sys);
    var k1 := NewProcess(k0, p, context).value;
    NewKeepsCpu(k0, p, context);
    var own1 := OwnersAfterNew(k0, own0, p);
    NewProcessOwned(k0, own0, sys, p, context);
    CreateOnlyAbout(k0, own0, sys, p, context);
    RunOwned(k1, own1, sys, ops, t);
    RunOnlyAbout(k0, own0, k1, own1, sys, p, ops, t, {});
    assert {} + LostRun(k1, ops, t) == LostRun(k1, ops, t);
    LifeEnds(k0, own0, sys, p, t, OwnersRun(k1, own1, ops, t), LostRun(k1, ops, t));
  }

  lemma NewKeepsCpu(k: Kernel, p: nat, context: seq<nat>)
    requires Shaped(k) && Esp0Current(k) && p !in k.procs && |context| == CONTEXT / 4
    requires NewProcess(k, p, context).Some?
    ensures TakeFrame(k).Some? && TakeFrame(TakeFrame(k).value.0).Some?
    ensures Esp0Current(NewProcess(k, p, context).value)
  {
  }

  lemma LifeEnds(k0: Kernel, own0: Owners, sys: set<nat>, p: nat, t: Kernel, own: Owners, lost: set<nat>)
    requires Owned(k0, own0, sys) && p !in k0.procs
    requires Owned(t, own, sys + lost) && OnlyAbout(k0, own0, t, own, p, lost)
    ensures Shaped(t) && p in t.procs && FreedOnce(t.used, Frees(t, p))
    ensures Destroy(t, p).used == k0.used + lost && lost !! k0.used && Destroy(t, p).procs == k0.procs
    ensures |t.mem| == |k0.mem| && forall f :: f in k0.used && f < |t.mem| ==> t.mem[f] == k0.mem[f]
  {
    ShapedKnown(k0, own0, sys);
    ShapedKnown(t, own, sys + lost);
    hide Owned, FreedOnce, Frees, Destroy, About;
    DestroyFreesOwned(t, own, sys + lost, p);
    DestroyOwned(t, own, sys + lost, p);
    ShapedKnown(Destroy(t, p), WithLost(own0, lost), sys + lost);
    ProcessesBack(k0, own0, t, own, p, lost);
  }

  lemma ProcessesBack(k0: Kernel, own0: Owners, t: Kernel, own: Owners, p: nat, lost: set<nat>)
    requires Shaped(t) && p !in k0.procs && OnlyAbout(k0, own0, t, own, p, lost)
    ensures p in t.procs && Destroy(t, p).procs == k0.procs
  {
    hide Frees;
    assert t.procs - {p} == k0.procs;
  }
}
