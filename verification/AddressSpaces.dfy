/** Two-level page tables over physical frames, and who owns which frame. */
module AddressSpaces {
  import opened Frames
  import opened Options

  const ENTRIES: nat := 1024
  const USER_ENTRIES: nat := 768
  const USER_FLAGS: nat := 7
  const KERNEL_BASE: nat := 0xC000_0000
  /** `sizeof(proc_registers_state)`: the 13 words of a saved context. */
  const CONTEXT: nat := 52

  datatype Region = Region(base: nat, len: nat)

  datatype Process = Process(
    pd: nat, kernelStack: nat, programBreak: nat, mmapNext: nat, regions: seq<Region>)

  /** `mem[f]` is the contents of physical frame `f`, word by word; `esp0` is the
      stack pointer the hardware loads on a trap from user mode. */
  datatype Kernel = Kernel(
    mem: seq<seq<nat>>, used: set<nat>, kernelPd: nat, procs: map<nat, Process>,
    current: Option<nat>, esp0: nat)

  predicate Shaped(k: Kernel) {
    && (forall f :: 0 <= f < |k.mem| ==> |k.mem[f]| == ENTRIES)
    && k.kernelPd < |k.mem|
    && forall p :: p in k.procs ==> k.procs[p].pd < |k.mem|
  }

  /** The directory entry and the table entry of page number `v`: bits 31..22 and
      21..12 of its address. */
  function TableIndex(v: nat): nat {
    v / ENTRIES
  }

  function EntryIndex(v: nat): (j: nat)
    ensures j < ENTRIES
  {
    v % ENTRIES
  }

  predicate Present(e: nat) {
    e % 2 == 1
  }

  function FrameOf(e: nat): nat {
    e / PAGE
  }

  function EntryFor(f: nat, flags: nat): (e: nat)
    requires flags < PAGE
    ensures FrameOf(e) == f
    ensures flags % 2 == 1 ==> Present(e)
  {
    f * PAGE + flags
  }

  function Poke(mem: seq<seq<nat>>, f: nat, i: nat, w: nat): (r: seq<seq<nat>>)
    requires f < |mem| && i < |mem[f]|
    ensures |r| == |mem| && |r[f]| == |mem[f]| && r[f][i] == w
    ensures forall g :: 0 <= g < |mem| && g != f ==> r[g] == mem[g]
    ensures forall j :: 0 <= j < |mem[f]| && j != i ==> r[f][j] == mem[f][j]
  {
    var frame: seq<nat> := mem[f][i := w];
    mem[f := frame]
  }

  /** The page-table entry the hardware finds for page `j` of table `i`. */
  function Translate(mem: seq<seq<nat>>, pd: nat, i: nat, j: nat): Option<nat> {
    if pd >= |mem| || i >= |mem[pd]| || !Present(mem[pd][i]) then None
    else
      var t := FrameOf(mem[pd][i]);
      if t >= |mem| || j >= |mem[t]| || !Present(mem[t][j]) then None else Some(mem[t][j])
  }

  function TakeFrame(k: Kernel): Option<(Kernel, nat)> {
    match LowestFree(k.used, |k.mem|, 0)
    case None => None
    case Some(f) => Some((k.(used := k.used + {f}), f))
  }

  /** `paging_map` for entry `j` of table `i`; `None` is the panic of the frame
      allocator, or a directory entry that names no frame. */
  function PagingMap(k: Kernel, pd: nat, g: nat, i: nat, j: nat): (r: Option<Kernel>)
    requires Shaped(k) && pd < |k.mem| && i < ENTRIES && j < ENTRIES
    ensures r.Some? ==> Shaped(r.value) && |r.value.mem| == |k.mem|
  {
    var e := k.mem[pd][i];
    if e == 0 then
      match TakeFrame(k)
      case None => None
      case Some((k1, t)) =>
        var mem := Poke(k1.mem, pd, i, EntryFor(t, USER_FLAGS));
        Some(k1.(mem := Poke(mem, t, j, EntryFor(g, USER_FLAGS))))
    else if FrameOf(e) >= |k.mem| then None
    else Some(k.(mem := Poke(k.mem, FrameOf(e), j, EntryFor(g, USER_FLAGS))))
  }

  /** A frame is allocated and mapped at a page of process `p`: the pair of calls
      that process creation, the ELF loader, sbrk and mmap are made of. */
  function MapFresh(k: Kernel, p: nat, i: nat, j: nat): (r: Option<Kernel>)
    requires Shaped(k) && p in k.procs && i < ENTRIES && j < ENTRIES
    ensures r.Some? ==> Shaped(r.value) && |r.value.mem| == |k.mem|
  {
    match TakeFrame(k)
    case None => None
    case Some((k1, g)) => PagingMap(k1, k.procs[p].pd, g, i, j)
  }

  // ----- ownership

  datatype Role =
    | System
    | Dir(p: nat)
    | Stack(p: nat)
    | Table(p: nat, i: nat)
    | Page(p: nat, i: nat, j: nat)

  type Owners = map<nat, Role>

  /** A saved context at `kernelStack` ends where the stack frame `f` ends. */
  predicate StackTop(kernelStack: nat, f: nat) {
    kernelStack + CONTEXT == KERNEL_BASE + (f + 1) * PAGE
  }

  /** The frame `proc_destroy` takes for the kernel stack. */
  function StackFrame(kernelStack: nat): (f: nat)
    ensures forall g: nat :: StackTop(kernelStack, g) ==> f == g
  {
    if kernelStack + CONTEXT < KERNEL_BASE + PAGE then 0
    else (kernelStack + CONTEXT - PAGE - KERNEL_BASE) / PAGE
  }

  ghost predicate Known(k: Kernel, own: Owners, sys: set<nat>) {
    && own.Keys == k.used && sys <= k.used
    && (forall f :: f in own ==> f < |k.mem|)
    && forall f :: f in own ==> (own[f].System? <==> f in sys)
  }

  ghost predicate Roots(k: Kernel, own: Owners) {
    && (forall p :: p in k.procs ==> k.procs[p].pd in own && own[k.procs[p].pd] == Dir(p))
    && (forall f :: f in own && own[f].Dir? ==> own[f].p in k.procs && k.procs[own[f].p].pd == f)
    && (forall p :: p in k.procs ==>
          var f := StackFrame(k.procs[p].kernelStack);
          StackTop(k.procs[p].kernelStack, f) && f in own && own[f] == Stack(p))
    && (forall f :: f in own && own[f].Stack? ==>
          own[f].p in k.procs && StackFrame(k.procs[own[f].p].kernelStack) == f)
  }

  predicate Names(own: Owners, e: nat, r: Role) {
    e % PAGE == USER_FLAGS && FrameOf(e) in own && own[FrameOf(e)] == r
  }

  ghost predicate TablesDown(k: Kernel, own: Owners)
    requires Shaped(k)
  {
    forall p, i :: p in k.procs && 0 <= i < USER_ENTRIES ==>
      var e := k.mem[k.procs[p].pd][i];
      e == 0 || Names(own, e, Table(p, i))
  }

  ghost predicate TablesUp(k: Kernel, own: Owners)
    requires Shaped(k)
  {
    forall f :: f in own && own[f].Table? ==>
      && own[f].p in k.procs && own[f].i < USER_ENTRIES
      && k.mem[k.procs[own[f].p].pd][own[f].i] == EntryFor(f, USER_FLAGS)
  }

  ghost predicate PagesDown(k: Kernel, own: Owners)
    requires Shaped(k)
  {
    forall t, j :: t in own && t < |k.mem| && own[t].Table? && 0 <= j < ENTRIES ==>
      var e := k.mem[t][j];
      !Present(e) || Names(own, e, Page(own[t].p, own[t].i, j))
  }

  ghost predicate PagesUp(k: Kernel, own: Owners)
    requires Shaped(k)
  {
    forall f :: f in own && own[f].Page? ==>
      && own[f].p in k.procs && own[f].i < USER_ENTRIES && own[f].j < ENTRIES
      && Translate(k.mem, k.procs[own[f].p].pd, own[f].i, own[f].j) == Some(EntryFor(f, USER_FLAGS))
  }

  /** Every frame in use has one owner and one purpose, and the page tables say
      exactly that. */
  ghost predicate Owned(k: Kernel, own: Owners, sys: set<nat>) {
    && Shaped(k) && Known(k, own, sys) && Roots(k, own)
    && TablesDown(k, own) && TablesUp(k, own) && PagesDown(k, own) && PagesUp(k, own)
  }

  /** The guard under which a fresh table frame may be used as it is: no entry
      but the one about to be written says "present". */
  predicate ClearBut(frame: seq<nat>, j: nat) {
    forall x :: 0 <= x < |frame| && x != j ==> !Present(frame[x])
  }

  /** The frame `paging_map` would take for a missing table, after one frame has
      been taken for the page. */
  function TableFrame(k: Kernel): Option<nat> {
    match TakeFrame(k)
    case None => None
    case Some((k1, g)) => LowestFree(k1.used, |k1.mem|, 0)
  }

  predicate TableReady(k: Kernel, p: nat, i: nat, j: nat)
    requires Shaped(k) && p in k.procs && i < ENTRIES
  {
    k.mem[k.procs[p].pd][i] == 0 ==>
      match TableFrame(k)
      case None => true
      case Some(t) => t < |k.mem| && ClearBut(k.mem[t], j)
  }

  // ----- mapping one page

  /** The frame behind a page that is mapped already: mapping over it leaves the
      frame in use with nothing to name it. */
  function LostFrames(k: Kernel, p: nat, i: nat, j: nat): set<nat>
    requires p in k.procs
  {
    match Translate(k.mem, k.procs[p].pd, i, j)
    case None => {}
    case Some(x) => {FrameOf(x)}
  }

  /** Frames that nothing names count as the kernel's. */
  function WithLost(own: Owners, lost: set<nat>): (r: Owners)
    ensures r.Keys == own.Keys + lost
  {
    map f | f in own.Keys + lost :: if f in lost then System else own[f]
  }

  function OwnersAfterMap(k: Kernel, own: Owners, p: nat, i: nat, j: nat): Owners
    requires Shaped(k) && p in k.procs && i < ENTRIES && j < ENTRIES && MapFresh(k, p, i, j).Some?
  {
    var g := TakeFrame(k).value.1;
    var paged := own[g := Page(p, i, j)];
    WithLost(if k.mem[k.procs[p].pd][i] == 0 then paged[TableFrame(k).value := Table(p, i)] else paged,
             LostFrames(k, p, i, j))
  }

  lemma RootsGrow(k: Kernel, k': Kernel, own: Owners, f: nat, r: Role)
    requires Roots(k, own) && k'.procs == k.procs && f !in own && (r.Table? || r.Page?)
    ensures Roots(k', own[f := r])
  {
  }

  /** The directories are untouched by a write to a frame that is not one. */
  lemma DirectoriesKept(k: Kernel, k': Kernel, own: Owners, t: nat)
    requires Shaped(k) && Shaped(k') && Roots(k, own) && k'.procs == k.procs && |k'.mem| == |k.mem|
    requires forall f :: 0 <= f < |k.mem| && f != t ==> k'.mem[f] == k.mem[f]
    requires t in own ==> !own[t].Dir?
    ensures forall q :: q in k.procs ==> k'.mem[k.procs[q].pd] == k.mem[k.procs[q].pd]
  {
  }

  function WithPage(k: Kernel, t: nat, j: nat, g: nat): (r: Kernel)
    requires Shaped(k) && t < |k.mem| && j < ENTRIES
    ensures Shaped(r) && |r.mem| == |k.mem|
  {
    k.(used := k.used + {g}, mem := Poke(k.mem, t, j, EntryFor(g, USER_FLAGS)))
  }

  function WithTable(k: Kernel, p: nat, i: nat, t: nat, row: seq<nat>): (r: Kernel)
    requires Shaped(k) && p in k.procs && i < ENTRIES && t < |k.mem| && |row| == ENTRIES
    ensures Shaped(r) && |r.mem| == |k.mem|
  {
    k.(used := k.used + {t}, mem := Poke(k.mem, k.procs[p].pd, i, EntryFor(t, USER_FLAGS))[t := row])
  }

  lemma PageTables(k: Kernel, own: Owners, sys: set<nat>, p: nat, i: nat, j: nat, g: nat, t: nat)
    requires Owned(k, own, sys) && p in k.procs && i < USER_ENTRIES && j < ENTRIES
    requires g < |k.mem| && g !in own
    requires t in own && own[t] == Table(p, i) && t < |k.mem|
    ensures TablesDown(WithPage(k, t, j, g), own[g := Page(p, i, j)])
    ensures TablesUp(WithPage(k, t, j, g), own[g := Page(p, i, j)])
  {
    hide PagesDown, PagesUp, Poke;
    DirectoriesKept(k, WithPage(k, t, j, g), own, t);
  }

  lemma PagePagesDown(k: Kernel, own: Owners, sys: set<nat>, p: nat, i: nat, j: nat, g: nat, t: nat)
    requires Owned(k, own, sys) && p in k.procs && i < USER_ENTRIES && j < ENTRIES
    requires g < |k.mem| && g !in own
    requires t in own && own[t] == Table(p, i) && t < |k.mem|
    ensures PagesDown(WithPage(k, t, j, g), own[g := Page(p, i, j)])
  {
    hide TablesDown, TablesUp, PagesUp, Poke, Roots;
  }

  lemma PagePagesUp(k: Kernel, own: Owners, sys: set<nat>, p: nat, i: nat, j: nat, g: nat, t: nat)
    requires Owned(k, own, sys) && p in k.procs && i < USER_ENTRIES && j < ENTRIES
    requires g < |k.mem| && g !in own
    requires t in own && own[t] == Table(p, i) && t < |k.mem| && !Present(k.mem[t][j])
    ensures PagesUp(WithPage(k, t, j, g), own[g := Page(p, i, j)])
  {
    hide PagesDown, Poke;
    var k' := WithPage(k, t, j, g);
    var own' := own[g := Page(p, i, j)];
    DirectoriesKept(k, k', own, t);
    assert k.mem[k.procs[p].pd][i] == EntryFor(t, USER_FLAGS);
    forall f | f in own' && own'[f].Page?
      ensures Translate(k'.mem, k.procs[own'[f].p].pd, own'[f].i, own'[f].j) == Some(EntryFor(f, USER_FLAGS))
    {
      if f != g {
        var r := own[f];
        assert Translate(k.mem, k.procs[r.p].pd, r.i, r.j) == Some(EntryFor(f, USER_FLAGS));
        assert Names(own, k.mem[k.procs[r.p].pd][r.i], Table(r.p, r.i));
      }
    }
  }

  /** An existing table receives the entry. */
  lemma MapIntoTable(k: Kernel, own: Owners, sys: set<nat>, p: nat, i: nat, j: nat, g: nat, t: nat)
    requires Owned(k, own, sys) && p in k.procs && i < USER_ENTRIES && j < ENTRIES
    requires g < |k.mem| && g !in own
    requires t in own && own[t] == Table(p, i) && t < |k.mem| && !Present(k.mem[t][j])
    ensures Owned(WithPage(k, t, j, g), own[g := Page(p, i, j)], sys)
  {
    RootsGrow(k, WithPage(k, t, j, g), own, g, Page(p, i, j));
    PageTables(k, own, sys, p, i, j, g, t);
    PagePagesDown(k, own, sys, p, i, j, g, t);
    PagePagesUp(k, own, sys, p, i, j, g, t);
    assert Known(k, own, sys);
    hide TablesDown, TablesUp, PagesDown, PagesUp, Roots, Poke;
  }

  // ----- adding a table

  lemma TableFrames(k: Kernel, own: Owners, sys: set<nat>, p: nat, i: nat, t: nat, row: seq<nat>)
    requires Owned(k, own, sys) && p in k.procs && i < USER_ENTRIES && |row| == ENTRIES
    requires t < |k.mem| && t !in own
    ensures var k' := WithTable(k, p, i, t, row); var d := k.procs[p].pd;
      && d != t && k'.mem[t] == row && k'.mem[d] == k.mem[d][i := EntryFor(t, USER_FLAGS)]
      && (forall f :: 0 <= f < |k.mem| && f != t && f != d ==> k'.mem[f] == k.mem[f])
      && (forall q :: q in k.procs && q != p ==> k.procs[q].pd != d && k'.mem[k.procs[q].pd] == k.mem[k.procs[q].pd])
  {
    hide TablesDown, TablesUp, PagesDown, PagesUp;
    assert own[k.procs[p].pd] == Dir(p);
    forall q | q in k.procs && q != p ensures k.procs[q].pd != k.procs[p].pd && k.procs[q].pd != t {
      assert own[k.procs[q].pd] == Dir(q);
    }
  }

  lemma TableTables(k: Kernel, own: Owners, sys: set<nat>, p: nat, i: nat, t: nat, row: seq<nat>)
    requires Owned(k, own, sys) && p in k.procs && i < USER_ENTRIES && |row| == ENTRIES
    requires t < |k.mem| && t !in own && k.mem[k.procs[p].pd][i] == 0
    ensures TablesDown(WithTable(k, p, i, t, row), own[t := Table(p, i)])
    ensures TablesUp(WithTable(k, p, i, t, row), own[t := Table(p, i)])
  {
    TableFrames(k, own, sys, p, i, t, row);
    var k' := WithTable(k, p, i, t, row);
    hide PagesDown, PagesUp, WithTable, Roots;
    forall f | f in own && own[f].Table? ensures own[f] != Table(p, i) {
      assert k.mem[k.procs[own[f].p].pd][own[f].i] == EntryFor(f, USER_FLAGS);
    }
  }

  lemma TablePages(k: Kernel, own: Owners, sys: set<nat>, p: nat, i: nat, t: nat, row: seq<nat>)
    requires Owned(k, own, sys) && p in k.procs && i < USER_ENTRIES && |row| == ENTRIES
    requires t < |k.mem| && t !in own && k.mem[k.procs[p].pd][i] == 0
    requires forall x :: 0 <= x < ENTRIES ==> !Present(row[x])
    ensures PagesDown(WithTable(k, p, i, t, row), own[t := Table(p, i)])
    ensures PagesUp(WithTable(k, p, i, t, row), own[t := Table(p, i)])
  {
    TableFrames(k, own, sys, p, i, t, row);
    var k' := WithTable(k, p, i, t, row);
    var own' := own[t := Table(p, i)];
    assert own[k.procs[p].pd] == Dir(p);
    hide WithTable, Roots, TablesUp;
    assert PagesDown(k', own');
    hide PagesDown;
    forall f | f in own' && own'[f].Page?
      ensures Translate(k'.mem, k.procs[own'[f].p].pd, own'[f].i, own'[f].j) == Some(EntryFor(f, USER_FLAGS))
    {
      var r := own[f];
      assert Translate(k.mem, k.procs[r.p].pd, r.i, r.j) == Some(EntryFor(f, USER_FLAGS));
      assert Names(own, k.mem[k.procs[r.p].pd][r.i], Table(r.p, r.i));
    }
  }

  /** A fresh frame without present entries becomes a table. */
  lemma AddTable(k: Kernel, own: Owners, sys: set<nat>, p: nat, i: nat, t: nat, row: seq<nat>)
    requires Owned(k, own, sys) && p in k.procs && i < USER_ENTRIES && |row| == ENTRIES
    requires t < |k.mem| && t !in own && k.mem[k.procs[p].pd][i] == 0
    requires forall x :: 0 <= x < ENTRIES ==> !Present(row[x])
    ensures Owned(WithTable(k, p, i, t, row), own[t := Table(p, i)], sys)
  {
    RootsGrow(k, WithTable(k, p, i, t, row), own, t, Table(p, i));
    TableTables(k, own, sys, p, i, t, row);
    TablePages(k, own, sys, p, i, t, row);
    assert Known(k, own, sys);
    hide TablesDown, TablesUp, PagesDown, PagesUp, Roots, Poke;
  }

  // ----- allocating and mapping one page

  /** Under the two guards (the page is not mapped yet; a missing table gets a
      frame without stale present entries) a mapped frame has exactly one owner. */
  lemma MapNewOwned(k: Kernel, own: Owners, sys: set<nat>, p: nat, i: nat, j: nat)
    requires Owned(k, own, sys) && p in k.procs && i < USER_ENTRIES && j < ENTRIES
    requires MapFresh(k, p, i, j).Some?
    requires Translate(k.mem, k.procs[p].pd, i, j).None? && TableReady(k, p, i, j)
    ensures Owned(MapFresh(k, p, i, j).value, OwnersAfterMap(k, own, p, i, j), sys)
  {
    hide TablesUp, PagesDown, PagesUp, Roots;
    var d := k.procs[p].pd;
    var (k1, g) := TakeFrame(k).value;
    var e := k.mem[d][i];
    var k' := MapFresh(k, p, i, j).value;
    if e == 0 {
      var t := TableFrame(k).value;
      var row: seq<nat> := k.mem[t][j := 0];
      AddTable(k, own, sys, p, i, t, row);
      var k2 := WithTable(k, p, i, t, row);
      var own2 := own[t := Table(p, i)];
      MapIntoTable(k2, own2, sys, p, i, j, g, t);
      TwoPokes(k, own, sys, p, i, j, g, t);
      assert own[t := Table(p, i)][g := Page(p, i, j)] == own[g := Page(p, i, j)][t := Table(p, i)];
      assert own2[g := Page(p, i, j)] == OwnersAfterMap(k, own, p, i, j);
    } else {
      assert Names(own, e, Table(p, i));
      MapIntoTable(k, own, sys, p, i, j, g, FrameOf(e));
      assert own[g := Page(p, i, j)] == OwnersAfterMap(k, own, p, i, j);
    }
  }

  /** A frame in use that nothing names is accounted for as the kernel's. */
  lemma LostIsSystem(k: Kernel, own: Owners, sys: set<nat>, f: nat)
    requires Owned(k, own, sys) && f < |k.mem| && f !in own
    ensures Owned(k.(used := k.used + {f}), own[f := System], sys + {f})
  {
    var k' := k.(used := k.used + {f});
    var own' := own[f := System];
    assert Known(k', own', sys + {f});
    assert Roots(k', own') by { hide StackTop, StackFrame; }
    hide Known, Roots;
    assert TablesDown(k', own') && TablesUp(k', own');
    assert PagesDown(k', own') && PagesUp(k', own');
  }

  /** Writing the new entry first into a cleared copy of the table frame makes no
      difference. */
  lemma TwoPokes(k: Kernel, own: Owners, sys: set<nat>, p: nat, i: nat, j: nat, g: nat, t: nat)
    requires Owned(k, own, sys) && p in k.procs && i < USER_ENTRIES && j < ENTRIES
    requires MapFresh(k, p, i, j).Some? && k.mem[k.procs[p].pd][i] == 0
    requires g == TakeFrame(k).value.1 && TableFrame(k) == Some(t)
    ensures t < |k.mem| && t !in own && g !in own && t != g
    ensures MapFresh(k, p, i, j).value == WithPage(WithTable(k, p, i, t, k.mem[t][j := 0]), t, j, g)
  {
    hide TablesDown, TablesUp, PagesDown, PagesUp;
    var row: seq<nat> := k.mem[t][j := 0];
    assert own[k.procs[p].pd] == Dir(p);
    assert row[j := EntryFor(g, USER_FLAGS)] == k.mem[t][j := EntryFor(g, USER_FLAGS)];
    assert MapFresh(k, p, i, j).value.mem == WithPage(WithTable(k, p, i, t, row), t, j, g).mem;
  }

  // ----- paging_map against a plain map of pages

  /** All user translations after the call are those before it, except that one
      page of one process now names frame `g`. */
  ghost predicate UpdatesOnly(k: Kernel, k': Kernel, p: nat, i: nat, j: nat, g: nat)
    requires p in k.procs
  {
    forall q, x: nat, y: nat :: q in k.procs && x < USER_ENTRIES && y < ENTRIES ==>
      Translate(k'.mem, k.procs[q].pd, x, y)
      == if q == p && x == i && y == j then Some(EntryFor(g, USER_FLAGS))
         else Translate(k.mem, k.procs[q].pd, x, y)
  }

  lemma ExistingTableUpdates(k: Kernel, own: Owners, sys: set<nat>, p: nat, i: nat, j: nat, g: nat)
    requires Owned(k, own, sys) && p in k.procs && i < USER_ENTRIES && j < ENTRIES
    requires k.mem[k.procs[p].pd][i] != 0
    ensures var t := FrameOf(k.mem[k.procs[p].pd][i]);
      t < |k.mem| && UpdatesOnly(k, WithPage(k, t, j, g), p, i, j, g)
  {
    var e := k.mem[k.procs[p].pd][i];
    var t := FrameOf(e);
    assert Names(own, e, Table(p, i));
    var k' := WithPage(k, t, j, g);
    DirectoriesKept(k, k', own, t);
    hide PagesDown, PagesUp, TablesUp, Roots, Poke, EntryFor;
    forall q, x: nat, y: nat | q in k.procs && x < USER_ENTRIES && y < ENTRIES
      ensures Translate(k'.mem, k.procs[q].pd, x, y)
              == if q == p && x == i && y == j then Some(EntryFor(g, USER_FLAGS))
                 else Translate(k.mem, k.procs[q].pd, x, y)
    {
      var f := k.mem[k.procs[q].pd][x];
      assert f == 0 || Names(own, f, Table(q, x));
    }
  }

  lemma NewTableUpdates(k: Kernel, own: Owners, sys: set<nat>, p: nat, i: nat, j: nat, g: nat, t: nat)
    requires Owned(k, own, sys) && p in k.procs && i < USER_ENTRIES && j < ENTRIES
    requires k.mem[k.procs[p].pd][i] == 0 && t < |k.mem| && t !in own
    ensures UpdatesOnly(k, WithTable(k, p, i, t, k.mem[t][j := EntryFor(g, USER_FLAGS)]), p, i, j, g)
            <==> ClearBut(k.mem[t], j)
  {
    var row: seq<nat> := k.mem[t][j := EntryFor(g, USER_FLAGS)];
    var k' := WithTable(k, p, i, t, row);
    TableFrames(k, own, sys, p, i, t, row);
    hide PagesDown, PagesUp, TablesUp, Roots, WithTable;
    forall x: nat | x < ENTRIES
      ensures Translate(k.mem, k.procs[p].pd, i, x) == None
      ensures Translate(k'.mem, k.procs[p].pd, i, x) == if Present(row[x]) then Some(row[x]) else None
    {
    }
    forall q, x: nat, y: nat | q in k.procs && x < USER_ENTRIES && y < ENTRIES && !(q == p && x == i)
      ensures Translate(k'.mem, k.procs[q].pd, x, y) == Translate(k.mem, k.procs[q].pd, x, y)
    {
      var f := k.mem[k.procs[q].pd][x];
      assert f == 0 || Names(own, f, Table(q, x));
    }
    if UpdatesOnly(k, k', p, i, j, g) {
      forall x | 0 <= x < ENTRIES && x != j ensures !Present(k.mem[t][x]) {
        assert Translate(k'.mem, k.procs[p].pd, i, x) == None;
      }
    }
  }

  /** `paging_map` is an update of a plain map from pages to frames, for this
      process and every other one, exactly when a table it has to add gets a frame
      without stale present entries; and it takes at most one frame for a table. */
  lemma MapFreshRefines(k: Kernel, own: Owners, sys: set<nat>, p: nat, i: nat, j: nat)
    requires Owned(k, own, sys) && p in k.procs && i < USER_ENTRIES && j < ENTRIES
    requires MapFresh(k, p, i, j).Some?
    ensures var k' := MapFresh(k, p, i, j).value; var g := TakeFrame(k).value.1;
      && (UpdatesOnly(k, k', p, i, j, g) <==> TableReady(k, p, i, j))
      && k'.procs == k.procs && g !in k.used
      && (k.mem[k.procs[p].pd][i] != 0 ==> k'.used == k.used + {g})
      && (k.mem[k.procs[p].pd][i] == 0 ==>
            TableFrame(k).Some? && TableFrame(k).value !in k.used + {g} && k'.used == k.used + {g, TableFrame(k).value})
  {
    var k' := MapFresh(k, p, i, j).value;
    var (k1, g) := TakeFrame(k).value;
    var e := k.mem[k.procs[p].pd][i];
    if e == 0 {
      var t := TableFrame(k).value;
      TwoPokes(k, own, sys, p, i, j, g, t);
      NewTableUpdates(k, own, sys, p, i, j, g, t);
      var row: seq<nat> := k.mem[t][j := EntryFor(g, USER_FLAGS)];
      TableFrames(k, own, sys, p, i, t, row);
      TableFrames(k, own, sys, p, i, t, k.mem[t][j := 0]);
      var cleared: seq<nat> := k.mem[t][j := 0];
      assert cleared[j := EntryFor(g, USER_FLAGS)] == row;
      assert k'.mem == WithTable(k, p, i, t, row).mem;
    } else {
      ExistingTableUpdates(k, own, sys, p, i, j, g);
    }
  }
}
