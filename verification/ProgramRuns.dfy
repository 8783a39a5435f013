/** Starting programs and every run of their calls: the layout of each process and
    the one owner of each frame, over all runs. */
module ProgramRuns {
  import opened AddressMap
  import opened Bits
  import opened Options
  import opened Frames
  import opened AddressSpaces
  import opened ProcessLives
  import opened PageGuards
  import opened MemoryCalls
  import opened ProcessCreation
  import opened ElfImage
  import opened ProcessLayouts

  // ----- starting a program

  function Start(k: Kernel, p: nat, context: seq<nat>, file: seq<nat>, segs: seq<Segment>): (r: Option<Kernel>)
    requires Shaped(k) && |context| == CONTEXT / 4 && InFile(file, segs) && PagesOk(ImagePages(file, segs))
    ensures r.Some? ==> Shaped(r.value) && p in r.value.procs
  {
    match CreateProcess(k, p, context)
    case None => None
    case Some(k1) => LoadImage(k1, p, file, segs)
  }

  /** Every table that has to be added gets a clear frame. */
  predicate StartReady(k: Kernel, p: nat, context: seq<nat>, file: seq<nat>, segs: seq<Segment>)
    requires Shaped(k) && |context| == CONTEXT / 4 && InFile(file, segs) && PagesOk(ImagePages(file, segs))
  {
    CreateReady(k, p, context) &&
    match CreateProcess(k, p, context)
    case None => true
    case Some(k1) => TablesClear(k1, p, ImagePages(file, segs))
  }

  function ImageOf(file: seq<nat>, segs: seq<Segment>): Image
    requires InFile(file, segs)
  {
    var pages := ImagePages(file, segs);
    Image(set i | 0 <= i < |pages| :: pages[i].v, RoundUp(ImageEnd(segs)))
  }

  /** What the file says: no page is loaded twice and the image ends below the
      mappings. (The end of a file that loads no page at all may also round to 0.) */
  predicate Fits(file: seq<nat>, segs: seq<Segment>)
    requires InFile(file, segs)
  {
    && NoPageTwice(ImagePages(file, segs))
    && (ImageEnd(segs) <= MMAP_BASE || (ImagePages(file, segs) == [] && RoundUp(ImageEnd(segs)) == 0))
  }

  /** All pages of the image lie below its end. */
  lemma {:induction false} PagesBelowEnd(file: seq<nat>, segs: seq<Segment>, i: nat)
    requires InFile(file, segs) && PagesOk(ImagePages(file, segs)) && i < |ImagePages(file, segs)|
    ensures ImagePages(file, segs)[i].v * PAGE < ImageEnd(segs)
    decreases |segs|
  {
    hide RowOf, PageBytes;
    var n := |segs| - 1;
    var before := ImagePages(file, segs[..n]);
    var last := segs[n];
    if i < |before| {
      forall j | 0 <= j < |before| ensures before[j] == ImagePages(file, segs)[j] {
      }
      PagesBelowEnd(file, segs[..n], i);
    } else {
      var j := i - |before|;
      assert ImagePages(file, segs)[i].v == PageNumberOf(last, j) && j < PageCountOf(last);
      assert ImagePages(file, segs)[|before| + PageCountOf(last) - 1].v == PageNumberOf(last, PageCountOf(last) - 1);
      PageOfSegment(last, j);
    }
  }

  lemma PageOfSegment(seg: Segment, j: nat)
    requires j < PageCountOf(seg) && PageNumberOf(seg, PageCountOf(seg) - 1) < USER_PAGES
    ensures PageNumberOf(seg, j) * PAGE < SegmentEnd(seg)
  {
    assert seg.vaddr == seg.vaddr / PAGE * PAGE + seg.vaddr % PAGE;
    assert j * PAGE < seg.memsz;
    assert PageNumberOf(seg, j) * PAGE == seg.vaddr / PAGE * PAGE + j * PAGE;
    assert seg.memsz <= PageCountOf(seg) * PAGE;
    assert seg.vaddr + seg.memsz < WORD;
  }

  lemma RoundedEnd(e: nat)
    requires e < WORD
    ensures e <= MMAP_BASE ==> e <= RoundUp(e) <= MMAP_BASE && RoundUp(RoundUp(e)) == RoundUp(e)
    ensures e > MMAP_BASE ==> RoundUp(e) == 0 || RoundUp(e) > MMAP_BASE
    ensures RoundUp(0) == 0
  {
  }

  lemma EndIsWord(segs: seq<Segment>)
    ensures ImageEnd(segs) < WORD
  {
  }

  /** Under what the file says, the image's pages are below its rounded end, and not
      in the stack. */
  lemma ImageBelow(file: seq<nat>, segs: seq<Segment>)
    requires InFile(file, segs) && PagesOk(ImagePages(file, segs)) && ImageEnd(segs) <= MMAP_BASE
    ensures forall w :: w in ImageOf(file, segs).pages ==> w < ImageOf(file, segs).end / PAGE && !InStack(w)
  {
    EndIsWord(segs);
    RoundedEnd(ImageEnd(segs));
    hide RoundUp, ImagePages, RowOf;
    var pages := ImagePages(file, segs);
    RoundUpPages(ImageEnd(segs));
    forall i | 0 <= i < |pages| ensures pages[i].v < RoundUp(ImageEnd(segs)) / PAGE {
      PagesBelowEnd(file, segs, i);
    }
  }

  lemma AmongIs(file: seq<nat>, segs: seq<Segment>, w: nat)
    requires InFile(file, segs)
    ensures Among(ImagePages(file, segs), w) <==> w in ImageOf(file, segs).pages
  {
    hide ImagePages;
  }

  /** A program that ends on a page-aligned segment has the page below its end. */
  lemma TopPageLoaded(file: seq<nat>, segs: seq<Segment>, i: nat)
    requires InFile(file, segs) && PagesOk(ImagePages(file, segs)) && ImageEnd(segs) <= MMAP_BASE
    requires i < |segs| && segs[i].load && segs[i].memsz > 0 && segs[i].vaddr % PAGE == 0
    requires SegmentEnd(segs[i]) == ImageEnd(segs)
    ensures var img := ImageOf(file, segs); img.end > 0 && img.end / PAGE - 1 in img.pages
  {
    var n := PageCountOf(segs[i]);
    var x := PagesOfSegment(file, segs, i, n - 1);
    var pages := ImagePages(file, segs);
    assert pages[x].v == segs[i].vaddr / PAGE + n - 1;
    PageOfSegment(segs[i], n - 1);
    var last := PagesOfSegment(file, segs, i, n - 1);
    EndRounded(segs[i]);
    assert pages[x].v in ImageOf(file, segs).pages;
  }

  lemma EndRounded(seg: Segment)
    requires seg.vaddr % PAGE == 0 && seg.memsz > 0 && PageNumberOf(seg, PageCountOf(seg) - 1) < USER_PAGES
    ensures RoundUp(SegmentEnd(seg)) == (seg.vaddr / PAGE + PageCountOf(seg)) * PAGE
  {
    assert seg.vaddr == seg.vaddr / PAGE * PAGE;
    assert SegmentEnd(seg) == seg.vaddr + seg.memsz;
  }

  lemma {:induction false} LoadLostApart(k: Kernel, own: Owners, sys: set<nat>, p: nat, pages: seq<PageLoad>)
    requires Owned(k, own, sys) && p in k.procs && PagesOk(pages)
    requires TablesClear(k, p, pages) && LoadAll(k, p, pages).Some?
    ensures Shaped(k) && LostByLoad(k, p, pages) !! sys
    decreases |pages|
  {
    hide Owned, LoadPage, TableReady, TableIndex, EntryIndex, Shaped, PageLoaded, LostRange;
    ShapedKnown(k, own, sys);
    if pages != [] {
      var v, row := pages[0].v, pages[0].row;
      LostWasOwned(k, own, sys, p, v, 1);
      var own1 := LoadPageEffect(k, own, sys, p, v, row);
      var k1 := LoadPage(k, p, v, row).value;
      LoadLostApart(k1, own1, sys + LostRange(k, p, v, 1), p, pages[1..]);
    }
  }

  /** Starting a program lays its address space out, and keeps every frame with its
      one owner, exactly when the file loads no page twice and its image ends below
      the mapping base. Nothing else changes. */
  lemma StartLaysOutExactly(k: Kernel, own: Owners, sys: set<nat>, p: nat, context: seq<nat>, file: seq<nat>,
      segs: seq<Segment>) returns (own': Owners)
    requires Owned(k, own, sys) && p !in k.procs && |context| == CONTEXT / 4
    requires IsBytes(file) && InFile(file, segs) && PagesOk(ImagePages(file, segs))
    requires StartReady(k, p, context, file, segs) && Start(k, p, context, file, segs).Some?
    ensures var t := Start(k, p, context, file, segs).value;
      && (Accounted(t, sys) && Layout(t, p, ImageOf(file, segs)) <==> Fits(file, segs))
      && (Fits(file, segs) ==> Owned(t, own', sys))
      && t.procs == k.procs[p := t.procs[p]] && t.current == k.current && t.esp0 == k.esp0
      && forall q, w: nat :: q in k.procs && w < USER_PAGES ==> IsMapped(t, q, w) == IsMapped(k, q, w)
  {
    hide Owned, CreateProcess, CreateReady, TablesClear, LoadImage, PagesOk, IsMapped, InFile, ImagePages, Layout,
         RoundUp, LostByLoad, InStack, Among, PageAt, Start, StartReady, Fits, NothingThere, NoPageTwice, Accounted;
    ShapedKnown(k, own, sys);
    StartParts(k, p, context, file, segs);
    var k1 := CreateProcess(k, p, context).value;
    var own1 := CreateEffect(k, own, sys, p, context);
    ShapedKnown(k1, own1, sys);
    var pages := ImagePages(file, segs);
    LoadImageIs(k1, p, file, segs);
    own' := ImageLoaded(k1, own1, sys, p, file, segs);
    NoneLostExactly(k1, own1, sys, p, pages);
    LoadLostApart(k1, own1, sys, p, pages);
    var t := Start(k, p, context, file, segs).value;
    AccountedExactly(t, own', sys, LostByLoad(k1, p, pages));
    StartedLayout(k1, t, p, file, segs);
    FitsWhenClear(k1, p, file, segs);
    assert LostByLoad(k1, p, pages) == {} ==> sys + LostByLoad(k1, p, pages) == sys;
    FitsIs(file, segs);
    StartKeepsOthers(k, k1, t, p, pages);
  }

  /** Starting a program keeps the account of frames exactly when the file loads no
      page twice and none over the stack. */
  lemma StartAccountsExactly(k: Kernel, own: Owners, sys: set<nat>, p: nat, context: seq<nat>, file: seq<nat>,
      segs: seq<Segment>)
    requires Owned(k, own, sys) && p !in k.procs && |context| == CONTEXT / 4
    requires IsBytes(file) && InFile(file, segs) && PagesOk(ImagePages(file, segs))
    requires StartReady(k, p, context, file, segs) && Start(k, p, context, file, segs).Some?
    ensures Accounted(Start(k, p, context, file, segs).value, sys)
            <==> NoPageTwice(ImagePages(file, segs))
                 && forall i :: 0 <= i < |ImagePages(file, segs)| ==> !InStack(ImagePages(file, segs)[i].v)
  {
    hide Owned, CreateProcess, CreateReady, TablesClear, LoadImage, IsMapped, InFile, ImagePages, RoundUp, LostByLoad,
         InStack, Among, PageAt, Start, StartReady, NoPageTwice, Accounted;
    ShapedKnown(k, own, sys);
    StartParts(k, p, context, file, segs);
    var k1 := CreateProcess(k, p, context).value;
    var own1 := CreateEffect(k, own, sys, p, context);
    ShapedKnown(k1, own1, sys);
    var pages := ImagePages(file, segs);
    LoadImageIs(k1, p, file, segs);
    var own2 := ImageLoaded(k1, own1, sys, p, file, segs);
    NoneLostExactly(k1, own1, sys, p, pages);
    LoadLostApart(k1, own1, sys, p, pages);
    AccountedExactly(Start(k, p, context, file, segs).value, own2, sys, LostByLoad(k1, p, pages));
    forall i | 0 <= i < |pages| ensures IsMapped(k1, p, pages[i].v) <==> InStack(pages[i].v) {
      assert pages[i].v < USER_PAGES;
    }
  }

  lemma StartParts(k: Kernel, p: nat, context: seq<nat>, file: seq<nat>, segs: seq<Segment>)
    requires Shaped(k) && |context| == CONTEXT / 4 && InFile(file, segs) && PagesOk(ImagePages(file, segs))
    requires StartReady(k, p, context, file, segs) && Start(k, p, context, file, segs).Some?
    ensures CreateProcess(k, p, context).Some? && CreateReady(k, p, context)
    ensures var k1 := CreateProcess(k, p, context).value;
      TablesClear(k1, p, ImagePages(file, segs)) && Start(k, p, context, file, segs) == LoadImage(k1, p, file, segs)
  {
    hide CreateProcess, CreateReady, TablesClear, LoadImage;
  }

  lemma FitsIs(file: seq<nat>, segs: seq<Segment>)
    requires InFile(file, segs)
    ensures Fits(file, segs) <==>
              && NoPageTwice(ImagePages(file, segs))
              && (ImageEnd(segs) <= MMAP_BASE || (ImagePages(file, segs) == [] && RoundUp(ImageEnd(segs)) == 0))
  {
  }

  lemma LoadImageIs(k: Kernel, p: nat, file: seq<nat>, segs: seq<Segment>)
    requires Shaped(k) && p in k.procs && InFile(file, segs) && PagesOk(ImagePages(file, segs))
    ensures LoadImage(k, p, file, segs).Some? <==> LoadAll(k, p, ImagePages(file, segs)).Some?
  {
    hide LoadAll, ImagePages, RoundUp;
  }

  lemma StartKeepsOthers(k: Kernel, k1: Kernel, t: Kernel, p: nat, pages: seq<PageLoad>)
    requires p !in k.procs && p in k1.procs && k1.procs == k.procs[p := k1.procs[p]] && t.procs.Keys == k1.procs.Keys
    requires forall q, w: nat :: q in k.procs && w < USER_PAGES ==> Mapped(k1, q, w) == Mapped(k, q, w)
    requires forall q, w: nat :: q in k1.procs && w < USER_PAGES && !(q == p && Among(pages, w)) ==>
               PageAt(t, q, w) == PageAt(k1, q, w) && IsMapped(t, q, w) == IsMapped(k1, q, w)
    ensures forall q, w: nat :: q in k.procs && w < USER_PAGES ==> IsMapped(t, q, w) == IsMapped(k, q, w)
  {
    hide Mapped, PageAt, Among;
    forall q, w: nat | q in k.procs && w < USER_PAGES ensures IsMapped(t, q, w) == IsMapped(k, q, w) {
      assert Mapped(k1, q, w) == Mapped(k, q, w);
      assert IsMapped(t, q, w) == IsMapped(k1, q, w);
    }
  }

  /** The image of a file that fits meets no stack page. */
  lemma FitsWhenClear(k1: Kernel, p: nat, file: seq<nat>, segs: seq<Segment>)
    requires p in k1.procs && InFile(file, segs) && PagesOk(ImagePages(file, segs))
    requires forall w: nat :: w < USER_PAGES ==> (IsMapped(k1, p, w) <==> InStack(w))
    ensures Fits(file, segs) ==> NoPageTwice(ImagePages(file, segs)) && NothingThere(k1, p, ImagePages(file, segs))
  {
    hide ImagePages, IsMapped, InStack, RoundUp;
    var pages := ImagePages(file, segs);
    if Fits(file, segs) && pages != [] {
      ImageBelow(file, segs);
      forall i | 0 <= i < |pages| ensures !IsMapped(k1, p, pages[i].v) {
        assert pages[i].v in ImageOf(file, segs).pages && pages[i].v < USER_PAGES;
      }
    }
  }

  lemma StartedLayout(k1: Kernel, t: Kernel, p: nat, file: seq<nat>, segs: seq<Segment>)
    requires p in k1.procs && InFile(file, segs) && PagesOk(ImagePages(file, segs))
    requires t.procs == k1.procs[p := k1.procs[p].(programBreak := RoundUp(ImageEnd(segs)), mmapNext := MMAP_BASE)]
    requires k1.procs[p].regions == []
    requires forall w: nat :: w < USER_PAGES ==> (IsMapped(k1, p, w) <==> InStack(w))
    requires forall w: nat :: w < USER_PAGES && !Among(ImagePages(file, segs), w) ==>
               IsMapped(t, p, w) == IsMapped(k1, p, w)
    requires forall w: nat :: w < USER_PAGES && Among(ImagePages(file, segs), w) ==> IsMapped(t, p, w)
    ensures Layout(t, p, ImageOf(file, segs))
            <==> ImageEnd(segs) <= MMAP_BASE || (ImagePages(file, segs) == [] && RoundUp(ImageEnd(segs)) == 0)
  {
    hide ImagePages, IsMapped, InStack, RoundUp, Among, PagesOk;
    var r, img, pages := t.procs[p], ImageOf(file, segs), ImagePages(file, segs);
    EndIsWord(segs);
    RoundedEnd(ImageEnd(segs));
    RoundUpPages(ImageEnd(segs));
    if ImageEnd(segs) <= MMAP_BASE { ImageBelow(file, segs); }
    forall w: nat | w < USER_PAGES ensures IsMapped(t, p, w) <==> w in img.pages || InStack(w) {
      AmongIs(file, segs, w);
    }
    if pages != [] { assert pages[0].v in img.pages; }
    assert forall w: nat :: !InRegions(r, w);
    if ImageEnd(segs) <= MMAP_BASE || (pages == [] && RoundUp(ImageEnd(segs)) == 0) {
      assert Bounded(r, img);
      forall w: nat | w < USER_PAGES ensures IsMapped(t, p, w) <==> Covers(r, img, w) {
        assert !InHeap(r, img, w);
      }
    }
  }
}
