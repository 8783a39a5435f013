/** Loading a program: the pages of its segments, and the first program break. */
module ElfImage {
  import opened AddressMap
  import opened Bits
  import opened Frames
  import opened Options
  import opened AddressSpaces
  import opened ProcessLives
  import opened MemoryCalls

  /** The fields of a program header that the loader reads; `load` is PT_LOAD. */
  datatype Segment = Segment(load: bool, vaddr: nat, offset: nat, filesz: nat, memsz: nat)

  /** A page of the image: its number and the words its frame gets. */
  datatype PageLoad = PageLoad(v: nat, row: seq<nat>)

  predicate IsBytes(b: seq<nat>) {
    forall i :: 0 <= i < |b| ==> b[i] < 256
  }

  // ----- bytes in a frame of words

  /** The four bytes from `i` on as a little-endian word. */
  function WordOf(b: seq<nat>, i: nat): nat
    requires i + 4 <= |b|
  {
    b[i] + 0x100 * b[i + 1] + 0x1_0000 * b[i + 2] + 0x100_0000 * b[i + 3]
  }

  function RowOf(b: seq<nat>): (row: seq<nat>)
    requires |b| == PAGE
    ensures |row| == ENTRIES
  {
    seq(ENTRIES, i requires 0 <= i < ENTRIES => WordOf(b, 4 * i))
  }

  function Digit256(w: nat, d: nat): nat
    requires d < 4
  {
    (if d == 0 then w else if d == 1 then w / 0x100 else if d == 2 then w / 0x1_0000 else w / 0x100_0000) % 0x100
  }

  /** Byte `x` of a frame. */
  function ByteOfRow(row: seq<nat>, x: nat): nat
    requires |row| == ENTRIES && x < PAGE
  {
    Digit256(row[x / 4], x % 4)
  }

  lemma DigitsOfWord(a: nat, b: nat, c: nat, d: nat)
    requires a < 256 && b < 256 && c < 256 && d < 256
    ensures var w := a + 0x100 * b + 0x1_0000 * c + 0x100_0000 * d;
      Digit256(w, 0) == a && Digit256(w, 1) == b && Digit256(w, 2) == c && Digit256(w, 3) == d
  {
    var w := a + 0x100 * b + 0x1_0000 * c + 0x100_0000 * d;
    DivUnique(w, 0x100, b + 0x100 * c + 0x1_0000 * d, a);
    DivUnique(w, 0x1_0000, c + 0x100 * d, a + 0x100 * b);
    DivUnique(w, 0x100_0000, d, a + 0x100 * b + 0x1_0000 * c);
    DivUnique(b + 0x100 * c + 0x1_0000 * d, 0x100, c + 0x100 * d, b);
    DivUnique(c + 0x100 * d, 0x100, d, c);
    DivUnique(d, 0x100, 0, d);
  }

  lemma RowHoldsBytes(b: seq<nat>, x: nat)
    requires |b| == PAGE && IsBytes(b) && x < PAGE
    ensures ByteOfRow(RowOf(b), x) == b[x]
  {
    hide Digit256;
    var i, d := x / 4, x % 4;
    assert x == 4 * i + d;
    DigitsOfWord(b[4 * i], b[4 * i + 1], b[4 * i + 2], b[4 * i + 3]);
  }

  // ----- one page

  /** A frame is allocated, mapped at page `v` and filled. */
  function LoadPage(k: Kernel, p: nat, v: nat, row: seq<nat>): (r: Option<Kernel>)
    requires Shaped(k) && p in k.procs && v < USER_PAGES && |row| == ENTRIES
    ensures r.Some? ==> Shaped(r.value) && r.value.procs == k.procs && |r.value.mem| == |k.mem|
  {
    match MapFresh(k, p, TableIndex(v), EntryIndex(v))
    case None => None
    case Some(k1) =>
      var g := TakeFrame(k).value.1;
      Some(k1.(mem := k1.mem[g := row]))
  }

  /** The contents of the page a process sees at `v`. */
  function PageAt(k: Kernel, p: nat, v: nat): Option<seq<nat>>
    requires p in k.procs
  {
    match Mapped(k, p, v)
    case None => None
    case Some(e) => if FrameOf(e) < |k.mem| then Some(k.mem[FrameOf(e)]) else None
  }

  /** Writing the contents of a page frame leaves all tables in order. */
  lemma PageWritten(k: Kernel, own: Owners, sys: set<nat>, g: nat, row: seq<nat>)
    requires Owned(k, own, sys) && g in own && own[g].Page? && |row| == ENTRIES
    ensures g < |k.mem| && Owned(k.(mem := k.mem[g := row]), own, sys)
    ensures forall q, w: nat :: q in k.procs && w < USER_PAGES ==>
              Mapped(k.(mem := k.mem[g := row]), q, w) == Mapped(k, q, w)
  {
    FrameRowOwned(k, own, sys, g, row);
    var t := k.(mem := k.mem[g := row]);
    DirectoriesKept(k, t, own, g);
    forall q, w: nat | q in k.procs && w < USER_PAGES ensures Mapped(t, q, w) == Mapped(k, q, w) {
      var e := k.mem[k.procs[q].pd][TableIndex(w)];
      assert e == 0 || Names(own, e, Table(q, TableIndex(w)));
    }
  }

  /** A frame that holds a page is not touched when another page is mapped. */
  lemma MapKeepsPages(k: Kernel, own: Owners, sys: set<nat>, p: nat, v: nat, f: nat)
    requires Owned(k, own, sys) && p in k.procs && v < USER_PAGES
    requires MapFresh(k, p, TableIndex(v), EntryIndex(v)).Some?
    requires f in own && own[f].Page?
    ensures f < |k.mem| && MapFresh(k, p, TableIndex(v), EntryIndex(v)).value.mem[f] == k.mem[f]
  {
    var i := TableIndex(v);
    var e := k.mem[k.procs[p].pd][i];
    assert e == 0 || Names(own, e, Table(p, i));
    assert own[k.procs[p].pd] == Dir(p);
  }

  /** A mapped page is in a frame that belongs to it alone. */
  lemma MappedFrame(k: Kernel, own: Owners, sys: set<nat>, q: nat, w: nat)
    requires Owned(k, own, sys) && q in k.procs && w < USER_PAGES && IsMapped(k, q, w)
    ensures var f := FrameOf(Mapped(k, q, w).value);
      f in own && own[f] == Page(q, TableIndex(w), EntryIndex(w)) && f < |k.mem|
      && PageAt(k, q, w) == Some(k.mem[f])
  {
    var e := k.mem[k.procs[q].pd][TableIndex(w)];
    assert e == 0 || Names(own, e, Table(q, TableIndex(w)));
  }

  /** Loading page `v` puts its words there and changes no other page of any
      process. */
  ghost predicate PageLoaded(k: Kernel, t: Kernel, p: nat, v: nat, row: seq<nat>) {
    && t.procs == k.procs && p in k.procs && |t.mem| == |k.mem|
    && PageAt(t, p, v) == Some(row)
    && (forall q, w: nat :: q in k.procs && w < USER_PAGES && !(q == p && w == v) ==>
          PageAt(t, q, w) == PageAt(k, q, w))
    && (forall q, w: nat :: q in k.procs && w < USER_PAGES && !(q == p && w == v) ==>
          IsMapped(t, q, w) == IsMapped(k, q, w))
    && IsMapped(t, p, v) && t.current == k.current && t.esp0 == k.esp0
  }

  lemma LoadPageEffect(k: Kernel, own: Owners, sys: set<nat>, p: nat, v: nat, row: seq<nat>) returns (own1: Owners)
    requires Owned(k, own, sys) && p in k.procs && v < USER_PAGES && |row| == ENTRIES
    requires TableReady(k, p, TableIndex(v), EntryIndex(v)) && LoadPage(k, p, v, row).Some?
    ensures var t := LoadPage(k, p, v, row).value;
      PageLoaded(k, t, p, v, row) && Owned(t, own1, sys + LostRange(k, p, v, 1))
  {
    hide Owned, MapFresh, TableReady, Mapped, TableIndex, EntryIndex, Translate, LostRange;
    var i, j := TableIndex(v), EntryIndex(v);
    PagesInTables();
    ShapedKnown(k, own, sys);
    ReadyAllowed(k, p, v);
    MapOneOwned(k, own, sys, p, v);
    FrameTaken(k, own, sys, p, v);
    var k1 := MapFresh(k, p, i, j).value;
    own1 := OwnersAfterMap(k, own, p, i, j);
    var sys1 := sys + LostRange(k, p, v, 1);
    var g := TakeFrame(k).value.1;
    PageWritten(k1, own1, sys1, g, row);
    var t := LoadPage(k, p, v, row).value;
    ShapedKnown(k1, own1, sys1);
    OutsideAgrees(k, k1, p, v);
    FrameOfNew(k1, own1, sys1, p, v, g);
    forall q, w: nat | q in k.procs && w < USER_PAGES && !(q == p && w == v)
      ensures PageAt(t, q, w) == PageAt(k, q, w) && IsMapped(t, q, w) == IsMapped(k, q, w)
    {
      assert Mapped(t, q, w) == Mapped(k1, q, w) == Mapped(k, q, w);
      if IsMapped(k, q, w) {
        OtherPageKept(k, own, sys, p, v, q, w);
      }
    }
  }

  lemma ReadyAllowed(k: Kernel, p: nat, v: nat)
    requires Shaped(k) && p in k.procs && v < USER_PAGES && TableReady(k, p, TableIndex(v), EntryIndex(v))
    ensures Allowed(k, MapPage(p, v))
  {
  }

  lemma FrameTaken(k: Kernel, own: Owners, sys: set<nat>, p: nat, v: nat)
    requires Owned(k, own, sys) && p in k.procs && v < USER_PAGES && TableReady(k, p, TableIndex(v), EntryIndex(v))
    requires MapFresh(k, p, TableIndex(v), EntryIndex(v)).Some?
    ensures TakeFrame(k).Some?
    ensures var g := TakeFrame(k).value.1; var own1 := OwnersAfterMap(k, own, p, TableIndex(v), EntryIndex(v));
      g !in own && g in own1 && own1[g] == Page(p, TableIndex(v), EntryIndex(v))
  {
    PagesInTables();
    MapFreshRefines(k, own, sys, p, TableIndex(v), EntryIndex(v));
    UnmapOwned(k, own, sys, p, TableIndex(v), EntryIndex(v));
    ShapedKnown(k, own, sys);
  }

  lemma OutsideAgrees(k: Kernel, k1: Kernel, p: nat, v: nat)
    requires Shaped(k) && Shaped(k1) && p in k1.procs && RangeMapped(k, k1, p, v, 1)
    ensures forall q, w: nat :: q in k.procs && w < USER_PAGES && !(q == p && w == v) ==>
              Mapped(k1, q, w) == Mapped(k, q, w)
    ensures IsMapped(k1, p, v)
  {
    hide Mapped;
    assert v <= v < v + 1;
  }

  /** The frame taken for page `v` is the one the tables name there. */
  lemma FrameOfNew(k1: Kernel, own1: Owners, sys: set<nat>, p: nat, v: nat, g: nat)
    requires Owned(k1, own1, sys) && p in k1.procs && v < USER_PAGES && IsMapped(k1, p, v)
    requires g in own1 && own1[g] == Page(p, TableIndex(v), EntryIndex(v))
    ensures Mapped(k1, p, v) == Some(EntryFor(g, USER_FLAGS))
  {
  }

  lemma OtherPageKept(k: Kernel, own: Owners, sys: set<nat>, p: nat, v: nat, q: nat, w: nat)
    requires Owned(k, own, sys) && p in k.procs && v < USER_PAGES && q in k.procs && w < USER_PAGES
    requires IsMapped(k, q, w)
    requires MapFresh(k, p, TableIndex(v), EntryIndex(v)).Some? && TableReady(k, p, TableIndex(v), EntryIndex(v))
    ensures var f := FrameOf(Mapped(k, q, w).value);
      && f < |k.mem| && f != TakeFrame(k).value.1 && |MapFresh(k, p, TableIndex(v), EntryIndex(v)).value.mem| == |k.mem|
      && MapFresh(k, p, TableIndex(v), EntryIndex(v)).value.mem[f] == k.mem[f]
  {
    hide Owned, MapFresh, TableReady, Mapped, Translate;
    MappedFrame(k, own, sys, q, w);
    MapKeepsPages(k, own, sys, p, v, FrameOf(Mapped(k, q, w).value));
    FrameTaken(k, own, sys, p, v);
    ShapedKnown(k, own, sys);
  }

  // ----- a list of pages

  predicate PagesOk(pages: seq<PageLoad>) {
    forall i :: 0 <= i < |pages| ==> pages[i].v < USER_PAGES && |pages[i].row| == ENTRIES
  }

  function LoadAll(k: Kernel, p: nat, pages: seq<PageLoad>): (r: Option<Kernel>)
    requires Shaped(k) && p in k.procs && PagesOk(pages)
    ensures r.Some? ==> Shaped(r.value) && r.value.procs == k.procs && |r.value.mem| == |k.mem|
    decreases |pages|
  {
    if pages == [] then Some(k)
    else
      match LoadPage(k, p, pages[0].v, pages[0].row)
      case None => None
      case Some(k1) => LoadAll(k1, p, pages[1..])
  }

  /** Along the load, a table frame that is added is clear. */
  predicate TablesClear(k: Kernel, p: nat, pages: seq<PageLoad>)
    requires Shaped(k) && p in k.procs && PagesOk(pages)
    decreases |pages|
  {
    pages == [] ||
    (TableReady(k, p, TableIndex(pages[0].v), EntryIndex(pages[0].v)) &&
     match LoadPage(k, p, pages[0].v, pages[0].row)
     case None => true
     case Some(k1) => TablesClear(k1, p, pages[1..]))
  }

  predicate NoPageTwice(pages: seq<PageLoad>) {
    forall i, j :: 0 <= i < j < |pages| ==> pages[i].v != pages[j].v
  }

  predicate NothingThere(k: Kernel, p: nat, pages: seq<PageLoad>)
    requires p in k.procs
  {
    forall i :: 0 <= i < |pages| ==> !IsMapped(k, p, pages[i].v)
  }

  predicate Among(pages: seq<PageLoad>, v: nat) {
    exists i :: 0 <= i < |pages| && pages[i].v == v
  }

  /** The words page `v` gets last. */
  function LastRow(pages: seq<PageLoad>, v: nat): seq<nat>
    requires Among(pages, v)
  {
    if Among(pages[1..], v) then LastRow(pages[1..], v) else pages[0].row
  }

  lemma AmongFirst(pages: seq<PageLoad>, v: nat)
    requires pages != []
    ensures Among(pages, v) <==> pages[0].v == v || Among(pages[1..], v)
  {
    var rest := pages[1..];
    forall i | 0 <= i < |rest| ensures rest[i] == pages[i + 1] {
    }
    if i :| 0 <= i < |pages| && pages[i].v == v {
      if i > 0 { assert rest[i - 1].v == v; }
    }
  }

  /** The frames of pages that are loaded over. */
  function LostByLoad(k: Kernel, p: nat, pages: seq<PageLoad>): set<nat>
    requires Shaped(k) && p in k.procs && PagesOk(pages)
    decreases |pages|
  {
    if pages == [] then {}
    else
      LostRange(k, p, pages[0].v, 1) +
      match LoadPage(k, p, pages[0].v, pages[0].row)
      case None => {}
      case Some(k1) => LostByLoad(k1, p, pages[1..])
  }

  /** Each page of the list has the words it was given last, and no other page of
      any process changed. */
  ghost predicate AllLoaded(k: Kernel, t: Kernel, p: nat, pages: seq<PageLoad>) {
    && t.procs == k.procs && p in k.procs && t.current == k.current && t.esp0 == k.esp0
    && (forall q, w: nat :: q in k.procs && w < USER_PAGES ==> LoadedAt(k, t, p, pages, q, w))
  }

  ghost predicate LoadedAt(k: Kernel, t: Kernel, p: nat, pages: seq<PageLoad>, q: nat, w: nat)
    requires q in k.procs && q in t.procs
  {
    if q == p && Among(pages, w) then IsMapped(t, q, w) && PageAt(t, q, w) == Some(LastRow(pages, w))
    else PageAt(t, q, w) == PageAt(k, q, w) && IsMapped(t, q, w) == IsMapped(k, q, w)
  }

  /** Loading a list of pages, some of them perhaps twice or over mapped pages: every
      frame keeps its one owner but those of the pages loaded over. */
  lemma {:induction false} LoadAllEffect(k: Kernel, own: Owners, sys: set<nat>, p: nat,
      pages: seq<PageLoad>) returns (own': Owners)
    requires Owned(k, own, sys) && p in k.procs && PagesOk(pages)
    requires TablesClear(k, p, pages) && LoadAll(k, p, pages).Some?
    ensures var t := LoadAll(k, p, pages).value;
      Owned(t, own', sys + LostByLoad(k, p, pages)) && AllLoaded(k, t, p, pages)
    decreases |pages|
  {
    hide Owned, LoadPage, TableReady, TableIndex, EntryIndex, Shaped, PageLoaded, AllLoaded, LostRange;
    ShapedKnown(k, own, sys);
    if pages == [] {
      NothingLoaded(k, p);
      own' := own;
      assert sys + LostByLoad(k, p, pages) == sys;
    } else {
      var v, row := pages[0].v, pages[0].row;
      var own1 := LoadPageEffect(k, own, sys, p, v, row);
      var k1 := LoadPage(k, p, v, row).value;
      LoadedParts(k, k1, p, v, row);
      own' := LoadAllEffect(k1, own1, sys + LostRange(k, p, v, 1), p, pages[1..]);
      assert sys + LostRange(k, p, v, 1) + LostByLoad(k1, p, pages[1..]) == sys + LostByLoad(k, p, pages);
      LoadedFirst(k, k1, LoadAll(k1, p, pages[1..]).value, p, pages);
    }
  }

  lemma NothingLoaded(k: Kernel, p: nat)
    requires p in k.procs
    ensures AllLoaded(k, k, p, [])
  {
    hide PageAt, IsMapped;
  }

  lemma LoadedParts(k: Kernel, t: Kernel, p: nat, v: nat, row: seq<nat>)
    requires PageLoaded(k, t, p, v, row)
    ensures t.procs == k.procs && p in t.procs && IsMapped(t, p, v)
    ensures forall w: nat :: w < USER_PAGES && w != v ==> IsMapped(t, p, w) == IsMapped(k, p, w)
  {
    hide IsMapped, PageAt;
  }

  lemma LoadedFirst(k: Kernel, k1: Kernel, t: Kernel, p: nat, pages: seq<PageLoad>)
    requires pages != [] && PagesOk(pages)
    requires PageLoaded(k, k1, p, pages[0].v, pages[0].row) && AllLoaded(k1, t, p, pages[1..])
    ensures AllLoaded(k, t, p, pages)
  {
    hide PageAt, IsMapped, Among, LastRow;
    forall q, w: nat | q in k.procs && w < USER_PAGES ensures LoadedAt(k, t, p, pages, q, w) {
      assert LoadedAt(k1, t, p, pages[1..], q, w);
      AmongFirst(pages, w);
      LastRowFirst(pages, w);
    }
  }

  lemma LastRowFirst(pages: seq<PageLoad>, w: nat)
    requires pages != []
    ensures Among(pages, w) ==>
              LastRow(pages, w) == if Among(pages[1..], w) then LastRow(pages[1..], w) else pages[0].row
  {
    hide Among;
  }

  /** No frame is lost exactly when no page is loaded twice and none is mapped. */
  lemma {:induction false} NoneLostExactly(k: Kernel, own: Owners, sys: set<nat>, p: nat, pages: seq<PageLoad>)
    requires Owned(k, own, sys) && p in k.procs && PagesOk(pages)
    requires TablesClear(k, p, pages) && LoadAll(k, p, pages).Some?
    ensures LostByLoad(k, p, pages) == {} <==> NoPageTwice(pages) && NothingThere(k, p, pages)
    decreases |pages|
  {
    hide Owned, LoadPage, TableReady, IsMapped, TableIndex, EntryIndex, Shaped, PageLoaded, LostRange, NoPageTwice,
         NothingThere;
    ShapedKnown(k, own, sys);
    if pages == [] {
      NoPages(k, p);
    } else {
      var v, row := pages[0].v, pages[0].row;
      var own1 := LoadPageEffect(k, own, sys, p, v, row);
      var k1 := LoadPage(k, p, v, row).value;
      LoadedParts(k, k1, p, v, row);
      NoneLostExactly(k1, own1, sys + LostRange(k, p, v, 1), p, pages[1..]);
      LostOnePage(k, p, v);
      OverOnce(k, k1, p, pages);
    }
  }

  lemma NoPages(k: Kernel, p: nat)
    requires p in k.procs
    ensures NoPageTwice([]) && NothingThere(k, p, [])
  {
  }

  lemma LostOnePage(k: Kernel, p: nat, v: nat)
    requires p in k.procs
    ensures LostRange(k, p, v, 1) == {} <==> !IsMapped(k, p, v)
  {
    hide Mapped;
    if IsMapped(k, p, v) { assert FrameOf(Mapped(k, p, v).value) in LostRange(k, p, v, 1); }
  }

  lemma OverOnce(k: Kernel, k1: Kernel, p: nat, pages: seq<PageLoad>)
    requires pages != [] && PagesOk(pages) && p in k.procs && p in k1.procs && IsMapped(k1, p, pages[0].v)
    requires forall w: nat :: w < USER_PAGES && w != pages[0].v ==> IsMapped(k1, p, w) == IsMapped(k, p, w)
    ensures NoPageTwice(pages) && NothingThere(k, p, pages)
            <==> !IsMapped(k, p, pages[0].v) && NoPageTwice(pages[1..]) && NothingThere(k1, p, pages[1..])
  {
    hide IsMapped;
    var rest := pages[1..];
    forall i | 0 <= i < |rest| ensures rest[i] == pages[i + 1] {
    }
    if NoPageTwice(rest) && NothingThere(k1, p, rest) && !IsMapped(k, p, pages[0].v) {
      forall i | 0 <= i < |pages| ensures !IsMapped(k, p, pages[i].v) && (i > 0 ==> pages[i].v != pages[0].v) {
        if i > 0 { assert !IsMapped(k1, p, rest[i - 1].v); }
      }
      forall i, j | 0 <= i < j < |pages| ensures pages[i].v != pages[j].v {
        if i > 0 { assert rest[i - 1].v != rest[j - 1].v; }
      }
    }
  }

  // ----- the image

  function PageCountOf(seg: Segment): nat {
    (seg.memsz + 0xFFF) / PAGE
  }

  /** The bytes the loader puts into page `j` of a segment: from the file while
      they last, zeros behind. */
  function PageBytes(file: seq<nat>, seg: Segment, j: nat): (b: seq<nat>)
    requires seg.offset + seg.filesz <= |file|
    ensures |b| == PAGE
  {
    seq(PAGE, x requires 0 <= x < PAGE =>
      if j * PAGE + x < seg.filesz then file[seg.offset + j * PAGE + x] else 0)
  }

  /** The page the mapping call gets for page `j`: the address without its low bits. */
  function PageNumberOf(seg: Segment, j: nat): nat {
    seg.vaddr / PAGE + j
  }

  function SegmentPages(file: seq<nat>, seg: Segment, n: nat): (r: seq<PageLoad>)
    requires seg.offset + seg.filesz <= |file|
    ensures |r| == n && forall j :: 0 <= j < n ==>
              r[j] == PageLoad(PageNumberOf(seg, j), RowOf(PageBytes(file, seg, j)))
  {
    seq(n, j requires 0 <= j < n => PageLoad(PageNumberOf(seg, j), RowOf(PageBytes(file, seg, j))))
  }

  predicate InFile(file: seq<nat>, segs: seq<Segment>) {
    forall i :: 0 <= i < |segs| && segs[i].load ==> segs[i].offset + segs[i].filesz <= |file|
  }

  /** All pages of the loadable segments, in the order of the headers. */
  function ImagePages(file: seq<nat>, segs: seq<Segment>): seq<PageLoad>
    requires InFile(file, segs)
  {
    if segs == [] then []
    else
      var last := segs[|segs| - 1];
      ImagePages(file, segs[..|segs| - 1]) + if last.load then SegmentPages(file, last, PageCountOf(last)) else []
  }

  function SegmentEnd(seg: Segment): nat {
    Wrap(seg.vaddr + seg.memsz)
  }

  function ImageEnd(segs: seq<Segment>): nat {
    if segs == [] then 0
    else
      var last := segs[|segs| - 1];
      var end := ImageEnd(segs[..|segs| - 1]);
      if last.load && SegmentEnd(last) > end then SegmentEnd(last) else end
  }

  /** The segment loop of `elf_load`, and the first break and mapping address. */
  function LoadImage(k: Kernel, p: nat, file: seq<nat>, segs: seq<Segment>): (r: Option<Kernel>)
    requires Shaped(k) && p in k.procs && InFile(file, segs) && PagesOk(ImagePages(file, segs))
    ensures r.Some? ==> Shaped(r.value) && p in r.value.procs
  {
    match LoadAll(k, p, ImagePages(file, segs))
    case None => None
    case Some(t) =>
      Some(t.(procs := t.procs[p := t.procs[p].(programBreak := RoundUp(ImageEnd(segs)), mmapNext := MMAP_BASE)]))
  }

  /** A header behind the `i`-th loads page `v` again. */
  ghost predicate LoadedAgain(segs: seq<Segment>, i: nat, v: nat) {
    exists i2: nat, j2: nat :: InSegment(segs, i2, j2, v) && i < i2
  }

  /** Byte `x` of segment `i` lies in a page that no later header loads again. */
  ghost predicate Kept(segs: seq<Segment>, i: nat, x: nat) {
    && i < |segs| && segs[i].load && x < PageCountOf(segs[i]) * PAGE
    && !LoadedAgain(segs, i, PageNumberOf(segs[i], x / PAGE))
  }

  predicate InSegment(segs: seq<Segment>, i: nat, j: nat, v: nat) {
    i < |segs| && segs[i].load && j < PageCountOf(segs[i]) && PageNumberOf(segs[i], j) == v
  }

  /** Where page `j` of a segment is in the list, and that no later one is the same
      page but by a later header. */
  lemma {:induction false} PagesOfSegment(file: seq<nat>, segs: seq<Segment>, i: nat, j: nat) returns (x: nat)
    requires InFile(file, segs) && i < |segs| && segs[i].load && j < PageCountOf(segs[i])
    ensures x < |ImagePages(file, segs)|
    ensures ImagePages(file, segs)[x] == PageLoad(PageNumberOf(segs[i], j), RowOf(PageBytes(file, segs[i], j)))
    ensures !LoadedAgain(segs, i, PageNumberOf(segs[i], j)) ==>
              forall b :: x < b < |ImagePages(file, segs)| ==> ImagePages(file, segs)[b].v != PageNumberOf(segs[i], j)
    decreases |segs|
  {
    hide RowOf, PageBytes;
    var n := |segs| - 1;
    var v := PageNumberOf(segs[i], j);
    var all := ImagePages(file, segs);
    var before := ImagePages(file, segs[..n]);
    if i < n {
      x := PagesOfSegment(file, segs[..n], i, j);
      if !LoadedAgain(segs, i, v) {
        forall i2: nat, j2: nat ensures !(InSegment(segs[..n], i2, j2, v) && i < i2) {
          assert InSegment(segs[..n], i2, j2, v) ==> InSegment(segs, i2, j2, v);
        }
        forall b | x < b < |all| ensures all[b].v != v {
          if b >= |before| {
            assert all[b].v == PageNumberOf(segs[n], b - |before|) && !InSegment(segs, n, b - |before|, v);
          }
        }
      }
    } else {
      x := |before| + j;
      forall b | x < b < |all| ensures all[b].v != v {
        assert all[b].v == PageNumberOf(segs[n], b - |before|);
      }
    }
  }

  lemma {:induction false} LastRowAt(pages: seq<PageLoad>, x: nat)
    requires x < |pages| && forall b :: x < b < |pages| ==> pages[b].v != pages[x].v
    ensures Among(pages, pages[x].v) && LastRow(pages, pages[x].v) == pages[x].row
    decreases x
  {
    var rest := pages[1..];
    forall b | 0 <= b < |rest| ensures rest[b] == pages[b + 1] {
    }
    if x == 0 {
      assert !Among(rest, pages[0].v);
    } else {
      LastRowAt(rest, x - 1);
    }
  }

  /** The largest end among the loadable segments. */
  lemma {:induction false} EndIsLargest(segs: seq<Segment>)
    ensures forall i :: 0 <= i < |segs| && segs[i].load ==> SegmentEnd(segs[i]) <= ImageEnd(segs)
    ensures ImageEnd(segs) == 0 || exists i :: 0 <= i < |segs| && segs[i].load && SegmentEnd(segs[i]) == ImageEnd(segs)
    decreases |segs|
  {
    if segs != [] {
      var n := |segs| - 1;
      EndIsLargest(segs[..n]);
      assert forall i :: 0 <= i < n ==> segs[..n][i] == segs[i];
      if ImageEnd(segs) != 0 && ImageEnd(segs) == ImageEnd(segs[..n]) {
        var i :| 0 <= i < n && segs[..n][i].load && SegmentEnd(segs[..n][i]) == ImageEnd(segs[..n]);
        assert segs[i].load && SegmentEnd(segs[i]) == ImageEnd(segs);
      }
    }
  }

  /** What process `p` reads at virtual address `a`. */
  function ReadByte(k: Kernel, p: nat, a: nat): Option<nat>
    requires p in k.procs
  {
    match PageAt(k, p, a / PAGE)
    case None => None
    case Some(row) => if |row| == ENTRIES then Some(ByteOfRow(row, a % PAGE)) else None
  }

  lemma PageSplit(b: nat, x: nat)
    ensures (b * PAGE + x) / PAGE == b + x / PAGE && (b * PAGE + x) % PAGE == x % PAGE
            && x / PAGE * PAGE + x % PAGE == x
  {
  }

  lemma PageBytesAre(file: seq<nat>, seg: Segment, x: nat)
    requires IsBytes(file) && seg.offset + seg.filesz <= |file|
    ensures ByteOfRow(RowOf(PageBytes(file, seg, x / PAGE)), x % PAGE)
            == if x < seg.filesz then file[seg.offset + x] else 0
  {
    hide ByteOfRow, RowOf;
    PageSplit(0, x);
    RowHoldsBytes(PageBytes(file, seg, x / PAGE), x % PAGE);
  }

  /** The image: from the page its address lies in, a segment reads as its bytes in
      the file, then zeros to the end of its last page, in every page no later header
      loads again; the break is the largest end rounded up to a page; the frames stay
      owned but those of pages loaded over. */
  lemma ImageLoaded(k: Kernel, own: Owners, sys: set<nat>, p: nat, file: seq<nat>,
      segs: seq<Segment>) returns (own': Owners)
    requires Owned(k, own, sys) && p in k.procs && IsBytes(file) && InFile(file, segs)
             && PagesOk(ImagePages(file, segs))
    requires TablesClear(k, p, ImagePages(file, segs)) && LoadImage(k, p, file, segs).Some?
    ensures var t := LoadImage(k, p, file, segs).value;
      && Owned(t, own', sys + LostByLoad(k, p, ImagePages(file, segs)))
      && (forall i: nat, x: nat :: Kept(segs, i, x) ==> ReadsAs(t, p, file, segs[i], x))
      && t.procs == k.procs[p := k.procs[p].(programBreak := RoundUp(ImageEnd(segs)), mmapNext := 0x700_0000)]
      && t.current == k.current && t.esp0 == k.esp0
      && (forall q, w: nat :: q in k.procs && w < USER_PAGES && !(q == p && Among(ImagePages(file, segs), w)) ==>
            PageAt(t, q, w) == PageAt(k, q, w) && IsMapped(t, q, w) == IsMapped(k, q, w))
      && (forall w: nat :: w < USER_PAGES && Among(ImagePages(file, segs), w) ==> IsMapped(t, p, w))
  {
    hide Owned, TablesClear, LoadAll, PageAt, Shaped, PagesOk, ImagePages, RoundUp, IsMapped, AllLoaded, RowOf,
         ByteOfRow, LostByLoad, LoadedAgain, Among;
    ShapedKnown(k, own, sys);
    var pages := ImagePages(file, segs);
    own' := LoadAllEffect(k, own, sys, p, pages);
    var t1 := LoadAll(k, p, pages).value;
    var t := LoadImage(k, p, file, segs).value;
    RecordKeepsPages(t1, own', sys + LostByLoad(k, p, pages), p, RoundUp(ImageEnd(segs)), MMAP_BASE);
    LoadedAll(k, t1, p, pages);
    forall i: nat, x: nat | Kept(segs, i, x) ensures ReadsAs(t, p, file, segs[i], x) {
      SegmentReads(k, t1, t, p, file, segs, i, x);
    }
  }

  lemma SegmentReads(k: Kernel, t1: Kernel, t: Kernel, p: nat, file: seq<nat>, segs: seq<Segment>, i: nat, x: nat)
    requires IsBytes(file) && InFile(file, segs) && PagesOk(ImagePages(file, segs)) && p in t.procs && p in t1.procs
    requires AllLoaded(k, t1, p, ImagePages(file, segs)) && forall w: nat :: PageAt(t, p, w) == PageAt(t1, p, w)
    requires Kept(segs, i, x)
    ensures ReadsAs(t, p, file, segs[i], x)
  {
    hide PageAt, ImagePages, RowOf, ByteOfRow, IsMapped, LastRow, Among, LoadedAgain, PageBytes;
    PageSplit(segs[i].vaddr / PAGE, x);
    var at := PagesOfSegment(file, segs, i, x / PAGE);
    var pages := ImagePages(file, segs);
    PageBytesAre(file, segs[i], x);
    LastRowAt(pages, at);
    assert pages[at].v < USER_PAGES;
    assert LoadedAt(k, t1, p, pages, p, pages[at].v);
    assert PageAt(t, p, pages[at].v) == Some(pages[at].row);
  }

  /** Byte `x` of a segment, counted from the start of its first page. */
  predicate ReadsAs(t: Kernel, p: nat, file: seq<nat>, seg: Segment, x: nat)
    requires p in t.procs && seg.offset + seg.filesz <= |file|
  {
    ReadByte(t, p, seg.vaddr / PAGE * PAGE + x) == Some(if x < seg.filesz then file[seg.offset + x] else 0)
  }

  lemma LoadedAll(k: Kernel, t: Kernel, p: nat, pages: seq<PageLoad>)
    requires AllLoaded(k, t, p, pages)
    ensures t.procs == k.procs && p in k.procs && t.current == k.current && t.esp0 == k.esp0
    ensures forall q, w: nat :: q in k.procs && w < USER_PAGES && !(q == p && Among(pages, w)) ==>
              PageAt(t, q, w) == PageAt(k, q, w) && IsMapped(t, q, w) == IsMapped(k, q, w)
    ensures forall w: nat :: w < USER_PAGES && Among(pages, w) ==> IsMapped(t, p, w)
  {
    hide PageAt, Among, LastRow, IsMapped;
    forall q, w: nat | q in k.procs && w < USER_PAGES
      ensures if q == p && Among(pages, w) then IsMapped(t, q, w)
              else PageAt(t, q, w) == PageAt(k, q, w) && IsMapped(t, q, w) == IsMapped(k, q, w)
    {
      assert LoadedAt(k, t, p, pages, q, w);
    }
  }

  lemma RecordKeepsPages(t1: Kernel, own: Owners, sys: set<nat>, p: nat, b: nat, next: nat)
    requires Owned(t1, own, sys) && p in t1.procs
    ensures var t := t1.(procs := t1.procs[p := t1.procs[p].(programBreak := b, mmapNext := next)]);
      && Owned(t, own, sys) && t.procs.Keys == t1.procs.Keys
      && forall q, w: nat :: q in t1.procs ==>
           PageAt(t, q, w) == PageAt(t1, q, w) && IsMapped(t, q, w) == IsMapped(t1, q, w)
  {
  }

  /** What process `p` finds at address vaddr + x of a loaded segment: the byte that
      lies the address's offset in its page further on, as the mapping drops the
      offset and the copy does not add it. */
  function Shown(file: seq<nat>, seg: Segment, x: nat): nat
    requires seg.offset + seg.filesz <= |file|
  {
    var y := x + seg.vaddr % PAGE;
    if y < seg.filesz then file[seg.offset + y] else 0
  }

  lemma ReadsShifted(t: Kernel, p: nat, file: seq<nat>, seg: Segment, x: nat)
    requires p in t.procs && seg.offset + seg.filesz <= |file|
    requires forall y: nat :: y < PageCountOf(seg) * PAGE ==> ReadsAs(t, p, file, seg, y)
    requires InPages(seg, x)
    ensures ReadByte(t, p, seg.vaddr + x) == Some(Shown(file, seg, x))
  {
    hide ReadByte;
    PageSplit(0, seg.vaddr);
    assert ReadsAs(t, p, file, seg, x + seg.vaddr % PAGE);
  }

  /** Every byte of the segment's part of the file is where the program expects it. */
  ghost predicate ReadsRight(file: seq<nat>, seg: Segment)
    requires seg.offset + seg.filesz <= |file|
  {
    forall x: nat :: x < seg.filesz ==> Shown(file, seg, x) == file[seg.offset + x]
  }

  /** A segment with bytes in the file reads right for every file exactly when its
      address is page-aligned. */
  lemma ReadsRightExactly(seg: Segment)
    requires seg.filesz > 0
    ensures (forall file: seq<nat> :: IsBytes(file) && seg.offset + seg.filesz <= |file| ==> ReadsRight(file, seg))
            <==> seg.vaddr % PAGE == 0
  {
    var n := seg.offset + seg.filesz;
    var file: seq<nat> := seq(n, i requires 0 <= i < n => if i == seg.offset then 1 else 0);
    assert IsBytes(file);
    if seg.vaddr % PAGE != 0 {
      assert Shown(file, seg, 0) == 0 != file[seg.offset];
      assert !ReadsRight(file, seg);
    }
  }

  /** Address vaddr + x lies in the pages loaded for the segment. */
  predicate InPages(seg: Segment, x: nat) {
    x + seg.vaddr % PAGE < PageCountOf(seg) * PAGE
  }

  /** The whole memory image lies in the pages loaded exactly when the last page has
      room for the address's offset; a page-aligned segment always does. */
  lemma CoveredExactly(seg: Segment)
    requires seg.memsz > 0
    ensures (forall x: nat :: x < seg.memsz ==> InPages(seg, x))
            <==> seg.memsz + seg.vaddr % PAGE <= PageCountOf(seg) * PAGE
    ensures seg.vaddr % PAGE == 0 ==> forall x: nat :: x < seg.memsz ==> InPages(seg, x)
  {
    assert InPages(seg, seg.memsz - 1) <==> seg.memsz + seg.vaddr % PAGE <= PageCountOf(seg) * PAGE;
  }
}
