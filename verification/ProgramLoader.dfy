/** The loops of the ELF loader over physical memory. */
module ProgramLoader {
  import opened AddressMap
  import opened Bits
  import opened Frames
  import opened Options
  import opened AddressSpaces
  import opened ProcessLives
  import opened MemoryCalls
  import opened ElfImage
  import opened KernelMemory

  /** The copy and the zero fill of one page. */
  method FillPage(file: seq<nat>, seg: Segment, j: nat) returns (page: array<nat>)
    requires seg.offset + seg.filesz <= |file|
    ensures fresh(page) && page[..] == PageBytes(file, seg, j)
  {
    page := new nat[PAGE](_ => 0);
    var fileOffset := j * PAGE;
    var toCopy := 0;
    if fileOffset < seg.filesz {
      toCopy := if seg.filesz - fileOffset > PAGE then PAGE else seg.filesz - fileOffset;
      for x := 0 to toCopy
        invariant forall y :: 0 <= y < x ==> page[y] == file[seg.offset + fileOffset + y]
      {
        page[x] := file[seg.offset + fileOffset + x];
      }
    }
    for x := toCopy to PAGE
      invariant forall y :: 0 <= y < toCopy ==> page[y] == file[seg.offset + fileOffset + y]
      invariant forall y :: toCopy <= y < x ==> page[y] == 0
    {
      page[x] := 0;
    }
  }

  /** Directories are frames in use, and their user entries name frames that exist. */
  ghost predicate Rooted(k: Kernel) {
    && Shaped(k) && TablesInRange(k)
    && forall q :: q in k.procs ==> k.procs[q].pd in k.used
  }

  lemma OwnedRooted(k: Kernel, own: Owners, sys: set<nat>)
    requires Owned(k, own, sys)
    ensures Rooted(k)
  {
    OwnedInRange(k, own, sys);
  }

  /** A frame is allocated, mapped at page `v` of process `p` and filled. */
  method LoadPageAt(m: Memory, p: nat, v: nat, row: seq<nat>) returns (ok: bool)
    requires m.Valid() && Rooted(m.State()) && p in m.procs && v < USER_PAGES && |row| == ENTRIES
    modifies m.mem, m.frames.bitmap
    ensures m.Valid()
    ensures var r := LoadPage(old(m.State()), p, v, row);
      ok == r.Some? && (ok ==> m.State() == r.value && Rooted(m.State()))
  {
    hide Rooted, Poke, Translate, TablesInRange;
    ghost var k := m.State();
    PagesInTables();
    InRangeAt(k, p, v);
    var frame := m.TakeFrame();
    if frame.None? { return false; }
    ok := m.PagingMap(m.procs[p].pd, frame.value, v * PAGE);
    if !ok { return; }
    var f := frame.value / PAGE;
    ghost var k1 := m.State();
    m.mem[f] := row;
    assert m.mem[..] == k1.mem[f := row];
    LoadedRooted(k, p, v, row);
  }

  lemma LoadedRooted(k: Kernel, p: nat, v: nat, row: seq<nat>)
    requires Rooted(k) && p in k.procs && v < USER_PAGES && |row| == ENTRIES && LoadPage(k, p, v, row).Some?
    ensures Rooted(LoadPage(k, p, v, row).value)
  {
    PagesInTables();
    MapFreshInRange(k, p, TableIndex(v), EntryIndex(v));
    var k1 := MapFresh(k, p, TableIndex(v), EntryIndex(v)).value;
    MapTakes(k, p, TableIndex(v), EntryIndex(v));
    MapUses(k, p, TableIndex(v), EntryIndex(v));
    var g := TakeFrame(k).value.1;
    var t := LoadPage(k, p, v, row).value;
    hide MapFresh, FrameOf;
    forall q | q in t.procs ensures t.procs[q].pd in t.used && t.mem[t.procs[q].pd] == k1.mem[k1.procs[q].pd] {
      assert k.procs[q].pd != g;
    }
  }

  lemma MapUses(k: Kernel, p: nat, i: nat, j: nat)
    requires Shaped(k) && p in k.procs && i < ENTRIES && j < ENTRIES && MapFresh(k, p, i, j).Some?
    ensures k.used <= MapFresh(k, p, i, j).value.used
  {
  }

  lemma InRangeAt(k: Kernel, p: nat, v: nat)
    requires Rooted(k) && p in k.procs && v < USER_PAGES
    ensures (v * PAGE) / 0x40_0000 == TableIndex(v) < USER_ENTRIES && v * PAGE < WORD
    ensures FrameOf(k.mem[k.procs[p].pd][TableIndex(v)]) < |k.mem|
  {
  }

  /** What loading the rest of a list needs. */
  ghost predicate Ready(k: Kernel, p: nat, pages: seq<PageLoad>) {
    Rooted(k) && p in k.procs && PagesOk(pages)
  }

  lemma ReadyFirst(k: Kernel, p: nat, pages: seq<PageLoad>)
    requires Ready(k, p, pages) && pages != []
    ensures Shaped(k) && PagesOk(pages) && pages[0].v < USER_PAGES && |pages[0].row| == ENTRIES
    ensures LoadPage(k, p, pages[0].v, pages[0].row).None? ==> LoadAll(k, p, pages).None?
  {
    hide LoadPage;
  }

  lemma ReadyRest(k: Kernel, k1: Kernel, p: nat, pages: seq<PageLoad>)
    requires Ready(k, p, pages) && pages != [] && Shaped(k) && pages[0].v < USER_PAGES && |pages[0].row| == ENTRIES
    requires LoadPage(k, p, pages[0].v, pages[0].row) == Some(k1) && Rooted(k1)
    ensures Ready(k1, p, pages[1..]) && Shaped(k1) && PagesOk(pages) && PagesOk(pages[1..])
    ensures LoadAll(k1, p, pages[1..]) == LoadAll(k, p, pages)
  {
    hide LoadPage;
    var rest := pages[1..];
    forall i | 0 <= i < |rest| ensures rest[i] == pages[i + 1] {
    }
  }

  lemma ReadyShaped(k: Kernel, p: nat, pages: seq<PageLoad>)
    requires Ready(k, p, pages)
    ensures Shaped(k) && p in k.procs && PagesOk(pages) && Rooted(k)
  {
  }

  /** The loop over the pages of one segment; `rest` is what the image has behind. */
  method LoadSegment(m: Memory, p: nat, file: seq<nat>, seg: Segment, ghost rest: seq<PageLoad>)
    returns (ok: bool)
    requires m.Valid() && seg.offset + seg.filesz <= |file|
    requires Ready(m.State(), p, SegmentPages(file, seg, PageCountOf(seg)) + rest)
    modifies m.mem, m.frames.bitmap
    ensures m.Valid() && Ready(old(m.State()), p, SegmentPages(file, seg, PageCountOf(seg)) + rest)
    ensures ok ==>
              Ready(m.State(), p, rest)
              && Continues(old(m.State()), m.State(), p, SegmentPages(file, seg, PageCountOf(seg)) + rest, rest)
    ensures !ok ==> Fails(old(m.State()), p, SegmentPages(file, seg, PageCountOf(seg)) + rest)
  {
    hide Ready, RowOf, PageBytes, LoadAll, Continues, Fails;
    ghost var k0 := m.State();
    ghost var pages := SegmentPages(file, seg, PageCountOf(seg)) + rest;
    var n := (seg.memsz + 0xFFF) / PAGE;
    var j := 0;
    assert pages[0..] == pages;
    ReadyShaped(k0, p, pages);
    ContinuesSame(k0, p, pages);
    while j < n
      invariant j <= n && m.Valid() && Ready(m.State(), p, pages[j..])
      invariant Continues(k0, m.State(), p, pages, pages[j..])
    {
      ghost var k := m.State();
      ghost var left := pages[j..];
      assert left[0] == PageLoad(PageNumberOf(seg, j), RowOf(PageBytes(file, seg, j))) && left[1..] == pages[j + 1..];
      ok := LoadHead(m, p, file, seg, j, left);
      if !ok {
        FailsAfter(k0, k, p, pages, left);
        return;
      }
      ContinuesOn(k0, k, m.State(), p, pages, left, pages[j + 1..]);
      j := j + 1;
    }
    assert pages[n..] == rest;
    ok := true;
  }

  /** Page `j` of a segment, the first of those left to load. */
  method LoadHead(m: Memory, p: nat, file: seq<nat>, seg: Segment, j: nat, ghost left: seq<PageLoad>)
    returns (ok: bool)
    requires m.Valid() && seg.offset + seg.filesz <= |file|
    requires Ready(m.State(), p, left)
    requires left != [] && left[0] == PageLoad(PageNumberOf(seg, j), RowOf(PageBytes(file, seg, j)))
    modifies m.mem, m.frames.bitmap
    ensures m.Valid()
    ensures ok ==> Ready(m.State(), p, left[1..]) && Continues(old(m.State()), m.State(), p, left, left[1..])
    ensures !ok ==> Fails(old(m.State()), p, left)
  {
    hide Ready, RowOf, PageBytes, LoadAll, Continues, Fails;
    ghost var k := m.State();
    var page := FillPage(file, seg, j);
    ReadyShaped(k, p, left);
    ReadyFirst(k, p, left);
    ContinuesSame(k, p, left);
    ok := LoadPageAt(m, p, PageNumberOf(seg, j), RowOf(page[..]));
    if ok {
      ReadyRest(k, m.State(), p, left);
      ContinuesTo(k, k, m.State(), p, left, left, left[1..]);
    } else {
      FailsFrom(k, k, p, left, left);
    }
  }

  /** Loading `rest` from `k` is the remainder of loading `pages` from `k0`. */
  ghost predicate Continues(k0: Kernel, k: Kernel, p: nat, pages: seq<PageLoad>, rest: seq<PageLoad>) {
    && Shaped(k0) && Shaped(k) && p in k0.procs && p in k.procs && PagesOk(pages) && PagesOk(rest)
    && LoadAll(k, p, rest) == LoadAll(k0, p, pages) && k.procs == k0.procs
  }

  ghost predicate Fails(k: Kernel, p: nat, pages: seq<PageLoad>) {
    Shaped(k) && p in k.procs && PagesOk(pages) && LoadAll(k, p, pages) == None
  }

  lemma ContinuesSame(k: Kernel, p: nat, pages: seq<PageLoad>)
    requires Shaped(k) && p in k.procs && PagesOk(pages)
    ensures Continues(k, k, p, pages, pages)
  {
  }

  lemma ContinuesTo(k0: Kernel, k: Kernel, k1: Kernel, p: nat, pages: seq<PageLoad>, left: seq<PageLoad>,
      rest: seq<PageLoad>)
    requires Continues(k0, k, p, pages, left) && Shaped(k1) && k1.procs == k.procs && PagesOk(rest)
    requires LoadAll(k1, p, rest) == LoadAll(k, p, left)
    ensures Continues(k0, k1, p, pages, rest)
  {
  }

  lemma FailsFrom(k0: Kernel, k: Kernel, p: nat, pages: seq<PageLoad>, left: seq<PageLoad>)
    requires Continues(k0, k, p, pages, left) && LoadAll(k, p, left) == None
    ensures Fails(k0, p, pages)
  {
  }

  lemma {:induction false} ImagePrefix(file: seq<nat>, segs: seq<Segment>, i: nat) returns (rest: seq<PageLoad>)
    requires InFile(file, segs) && i <= |segs|
    ensures ImagePages(file, segs) == ImagePages(file, segs[..i]) + rest
    decreases |segs|
  {
    if i == |segs| {
      assert segs[..i] == segs;
      rest := [];
    } else {
      var n := |segs| - 1;
      var r := ImagePrefix(file, segs[..n], i);
      assert segs[..n][..i] == segs[..i];
      rest := r + if segs[n].load then SegmentPages(file, segs[n], PageCountOf(segs[n])) else [];
    }
  }

  /** One loadable segment within the image; `x` pages of it are behind. */
  method LoadNext(m: Memory, p: nat, file: seq<nat>, segs: seq<Segment>, i: nat, ghost k0: Kernel, ghost x: nat)
    returns (ok: bool, ghost y: nat)
    requires m.Valid() && InFile(file, segs) && i < |segs| && segs[i].load
    requires x == |ImagePages(file, segs[..i])| <= |ImagePages(file, segs)|
    requires Ready(m.State(), p, ImagePages(file, segs)[x..])
    requires Continues(k0, m.State(), p, ImagePages(file, segs), ImagePages(file, segs)[x..])
    modifies m.mem, m.frames.bitmap
    ensures m.Valid()
    ensures ok ==> y == |ImagePages(file, segs[..i + 1])| <= |ImagePages(file, segs)|
    ensures ok ==> Ready(m.State(), p, ImagePages(file, segs)[y..])
                   && Continues(k0, m.State(), p, ImagePages(file, segs), ImagePages(file, segs)[y..])
    ensures !ok ==> Fails(k0, p, ImagePages(file, segs))
  {
    hide Ready, ImagePages, Continues, Fails, SegmentPages;
    ghost var pages := ImagePages(file, segs);
    ghost var behind := ImagePrefix(file, segs, i + 1);
    OneMore(file, segs, i);
    ghost var some := SegmentPages(file, segs[i], PageCountOf(segs[i]));
    y := x + |some|;
    assert pages[x..] == some + behind && pages[y..] == behind;
    ghost var k := m.State();
    ok := LoadSegment(m, p, file, segs[i], behind);
    if ok {
      ContinuesOn(k0, k, m.State(), p, pages, pages[x..], behind);
    } else {
      FailsAfter(k0, k, p, pages, pages[x..]);
    }
  }

  /** The segment loop of `elf_load`; false where the frame allocator gives up. */
  method LoadProgram(m: Memory, p: nat, file: seq<nat>, segs: seq<Segment>, ghost own: Owners, ghost sys: set<nat>)
    returns (ok: bool)
    requires m.Valid() && Owned(m.State(), own, sys) && p in m.procs
    requires InFile(file, segs) && PagesOk(ImagePages(file, segs))
    modifies m.mem, m.frames.bitmap, m`procs
    ensures m.Valid() && Loads(old(m.State()), p, file, segs, ok, m.State())
  {
    hide Ready, ImagePages, Continues, Fails, SegmentPages, Loads, RoundUp, Owned;
    ghost var k0 := m.State();
    ghost var pages := ImagePages(file, segs);
    ReadyAtStart(k0, own, sys, p, pages);
    var imageEnd := 0;
    var i := 0;
    ReadyShaped(k0, p, pages);
    ContinuesSame(k0, p, pages);
    NoSegments(file, segs);
    ghost var x: nat := 0;
    assert pages[0..] == pages;
    while i < |segs|
      invariant i <= |segs| && m.Valid() && imageEnd == ImageEnd(segs[..i])
      invariant x == |ImagePages(file, segs[..i])| <= |pages|
      invariant Ready(m.State(), p, pages[x..]) && Continues(k0, m.State(), p, pages, pages[x..])
    {
      OneMore(file, segs, i);
      if segs[i].load {
        var segEnd := Wrap(segs[i].vaddr + segs[i].memsz);
        if segEnd > imageEnd { imageEnd := segEnd; }
        ok, x := LoadNext(m, p, file, segs, i, k0, x);
        if !ok {
          LoadsFails(k0, p, file, segs, m.State());
          return;
        }
      }
      i := i + 1;
    }
    assert segs[..i] == segs && pages[x..] == [];
    ghost var done := m.State();
    ReadyShaped(done, p, []);
    RecordImage(m, p, RoundUp(imageEnd));
    ok := true;
    LoadsDone(k0, done, p, file, segs, m.State());
  }

  lemma ReadyAtStart(k: Kernel, own: Owners, sys: set<nat>, p: nat, pages: seq<PageLoad>)
    requires Owned(k, own, sys) && p in k.procs && PagesOk(pages)
    ensures Ready(k, p, pages)
  {
    hide Owned;
    OwnedRooted(k, own, sys);
  }

  method RecordImage(m: Memory, p: nat, b: nat)
    requires m.Valid() && p in m.procs
    modifies m`procs
    ensures m.Valid()
    ensures var r := old(m.procs)[p].(programBreak := b, mmapNext := MMAP_BASE);
      m.State() == old(m.State()).(procs := old(m.procs)[p := r])
  {
    m.procs := m.procs[p := m.procs[p].(programBreak := b, mmapNext := MMAP_BASE)];
  }

  /** What the loader leaves, said with the image as one step. */
  ghost predicate Loads(k: Kernel, p: nat, file: seq<nat>, segs: seq<Segment>, ok: bool, t: Kernel) {
    && Shaped(k) && p in k.procs && InFile(file, segs) && PagesOk(ImagePages(file, segs))
    && var r := LoadImage(k, p, file, segs);
      ok == r.Some? && (ok ==> t == r.value)
  }

  lemma NoSegments(file: seq<nat>, segs: seq<Segment>)
    ensures ImagePages(file, segs[..0]) == [] && ImageEnd(segs[..0]) == 0
  {
  }

  lemma OneMore(file: seq<nat>, segs: seq<Segment>, i: nat)
    requires InFile(file, segs) && i < |segs|
    ensures segs[i].load
            ==> ImagePages(file, segs[..i + 1])
                == ImagePages(file, segs[..i]) + SegmentPages(file, segs[i], PageCountOf(segs[i]))
    ensures !segs[i].load ==> ImagePages(file, segs[..i + 1]) == ImagePages(file, segs[..i])
    ensures ImageEnd(segs[..i + 1]) == if segs[i].load
            && SegmentEnd(segs[i]) > ImageEnd(segs[..i]) then SegmentEnd(segs[i]) else ImageEnd(segs[..i])
  {
    assert segs[..i + 1][..i] == segs[..i];
  }

  lemma FailsAfter(k0: Kernel, k: Kernel, p: nat, pages: seq<PageLoad>, left: seq<PageLoad>)
    requires Continues(k0, k, p, pages, left) && Fails(k, p, left)
    ensures Fails(k0, p, pages)
  {
  }

  lemma ContinuesOn(k0: Kernel, k: Kernel, k1: Kernel, p: nat, pages: seq<PageLoad>, left: seq<PageLoad>,
      rest: seq<PageLoad>)
    requires Continues(k0, k, p, pages, left) && Continues(k, k1, p, left, rest)
    ensures Continues(k0, k1, p, pages, rest)
  {
  }

  lemma LoadsFails(k: Kernel, p: nat, file: seq<nat>, segs: seq<Segment>, t: Kernel)
    requires InFile(file, segs) && Fails(k, p, ImagePages(file, segs))
    ensures Loads(k, p, file, segs, false, t)
  {
    hide ImagePages, RoundUp;
  }

  lemma LoadsDone(k0: Kernel, k: Kernel, p: nat, file: seq<nat>, segs: seq<Segment>, t: Kernel)
    requires InFile(file, segs) && Continues(k0, k, p, ImagePages(file, segs), [])
    requires p in k.procs
    requires t == k.(procs := k.procs[p := k.procs[p].(programBreak := RoundUp(ImageEnd(segs)), mmapNext := MMAP_BASE)])
    ensures Loads(k0, p, file, segs, true, t)
  {
    hide ImagePages, RoundUp;
  }
}
