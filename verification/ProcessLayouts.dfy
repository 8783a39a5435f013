/** What lies where in a process's address space, and which calls keep it so: the
    image, the heap up to the break, the mapping regions, the stack, and nothing
    else. */
module ProcessLayouts {
  import opened AddressMap
  import opened Bits
  import opened Frames
  import opened AddressSpaces
  import opened ProcessLives
  import opened PageGuards
  import opened MemoryCalls
  import opened MappingRegions
  import opened ProcessCreation
  import opened Sequences

  /** The pages the loader filled and the end of the image, rounded up to a page. */
  datatype Image = Image(pages: set<nat>, end: nat)

  predicate InHeap(r: Process, img: Image, w: nat) {
    img.end / PAGE <= w < RoundUp(r.programBreak) / PAGE
  }

  predicate InRegions(r: Process, w: nat) {
    exists a :: 0 <= a < |r.regions| && InRegion(r.regions[a], w)
  }

  predicate Covers(r: Process, img: Image, w: nat) {
    w in img.pages || InHeap(r, img, w) || InRegions(r, w) || InStack(w)
  }

  /** The break lies between the image and the mappings, the mappings below the stack. */
  ghost predicate Bounded(r: Process, img: Image) {
    && RegionsOk(r) && img.end % PAGE == 0
    && img.end <= r.programBreak <= 0x700_0000 && r.mmapNext <= 0x7FF_C000
    && forall w :: w in img.pages ==> w < img.end / PAGE
  }

  /** Exactly the pages of the image, the heap, the regions and the stack are mapped. */
  ghost predicate Layout(k: Kernel, p: nat, img: Image) {
    && p in k.procs && Bounded(k.procs[p], img)
    && forall w: nat :: w < USER_PAGES ==> (IsMapped(k, p, w) <==> Covers(k.procs[p], img, w))
  }

  /** The four areas of the address space are apart. */
  lemma AreasApart(r: Process, img: Image, w: nat)
    requires Bounded(r, img)
    ensures w in img.pages ==> w < img.end / PAGE
    ensures img.end / PAGE <= RoundUp(r.programBreak) / PAGE <= MMAP_BASE / PAGE
    ensures MMAP_BASE / PAGE <= r.mmapNext / PAGE <= STACK_BOTTOM / PAGE
    ensures InRegions(r, w) ==> MMAP_BASE / PAGE <= w < r.mmapNext / PAGE
    ensures InStack(w) ==> STACK_BOTTOM / PAGE <= w
  {
    if a :| 0 <= a < |r.regions| && InRegion(r.regions[a], w) {
    }
  }

  // ----- accounts and lost frames

  /** The old account of the kernel's frames still fits exactly when none is lost. */
  lemma AccountedExactly(k: Kernel, own: Owners, sys: set<nat>, lost: set<nat>)
    requires Owned(k, own, sys + lost) && lost !! sys
    ensures Accounted(k, sys) <==> lost == {}
  {
    hide Owned;
    if lost == {} {
      assert sys + lost == sys;
    } else if Accounted(k, sys) {
      var f :| f in lost;
      assert f in sys + lost && f !in sys;
      var other :| Owned(k, other, sys);
      AccountsAgree(k, own, sys + lost, other, sys);
      assert false;
    }
  }

  lemma NoneLost(k: Kernel, p: nat, v: nat, n: nat)
    requires p in k.procs
    ensures LostRange(k, p, v, n) == {} <==> NoneMapped(k, p, v, n)
  {
    hide Mapped;
    if !NoneMapped(k, p, v, n) {
      var w: nat :| v <= w < v + n && IsMapped(k, p, w);
      assert FrameOf(Mapped(k, p, w).value) in LostRange(k, p, v, n);
    }
  }

  // ----- sbrk

  /** Under the layout no break can leave the user half. */
  lemma SbrkInUserHalf(b: nat, increment: int)
    requires b <= MMAP_BASE && -0x8000_0000 <= increment < 0x8000_0000
    ensures var after := NewBreak(b, increment);
      && after < 0x8800_0000 && InUserHalf(b, after)
      && RoundUp(b) / PAGE <= USER_PAGES && RoundUp(after) / PAGE <= USER_PAGES
      && LowPage(b, after) * PAGE == (if RoundUp(after) < RoundUp(b) then RoundUp(after) else RoundUp(b))
      && (RoundUp(after) > RoundUp(b) ==> LowPage(b, after) + PageCount(b, after) == RoundUp(after) / PAGE)
  {
  }

  lemma SbrkDefined(k: Kernel, p: nat, img: Image, increment: int)
    requires Layout(k, p, img) && -0x8000_0000 <= increment < 0x8000_0000
    ensures k.procs[p].programBreak < WORD
    ensures InUserHalf(k.procs[p].programBreak, NewBreak(k.procs[p].programBreak, increment))
  {
    SbrkInUserHalf(k.procs[p].programBreak, increment);
    hide NewBreak, InUserHalf, RegionsOk, Covers;
  }

  /** What growing meets: a region or the stack. */
  predicate GrowsInto(r: Process, after: nat, w: nat) {
    RoundUp(r.programBreak) / PAGE <= w < RoundUp(after) / PAGE && (InRegions(r, w) || InStack(w))
  }

  lemma GrowthIsFree(k: Kernel, p: nat, img: Image, after: nat)
    requires Layout(k, p, img) && InUserHalf(k.procs[p].programBreak, after)
    requires RoundUp(after) > RoundUp(k.procs[p].programBreak)
    ensures var b := k.procs[p].programBreak;
      NoneMapped(k, p, LowPage(b, after), PageCount(b, after)) <==> forall w: nat :: !GrowsInto(k.procs[p], after, w)
  {
    var r := k.procs[p];
    var b := r.programBreak;
    hide RoundUp, InRegions, InStack, RegionsOk;
    RoundUpPages(b);
    RoundUpPages(after);
    forall w: nat | RoundUp(b) / PAGE <= w < RoundUp(after) / PAGE
      ensures IsMapped(k, p, w) <==> GrowsInto(r, after, w)
    {
      AreasApart(r, img, w);
    }
    assert LowPage(b, after) == RoundUp(b) / PAGE && LowPage(b, after) + PageCount(b, after) == RoundUp(after) / PAGE;
    if NoneMapped(k, p, LowPage(b, after), PageCount(b, after)) {
      forall w: nat ensures !GrowsInto(r, after, w) {
        if RoundUp(b) / PAGE <= w < RoundUp(after) / PAGE { assert !IsMapped(k, p, w); }
      }
    }
  }

  /** sbrk keeps the account of frames exactly when it grows into no region and not
      into the stack. */
  lemma SbrkAccountsExactly(k: Kernel, own: Owners, sys: set<nat>, p: nat, img: Image, increment: int)
      returns (own': Owners)
    requires Owned(k, own, sys) && Layout(k, p, img) && -0x8000_0000 <= increment < 0x8000_0000
    requires SbrkReady(k, p, increment) && Sbrk(k, p, increment).Some?
    ensures var k' := Sbrk(k, p, increment).value; var after := NewBreak(k.procs[p].programBreak, increment);
      && Owned(k', own', sys + LostBySbrk(k, p, increment)) && LostBySbrk(k, p, increment) !! sys
      && k'.procs == k.procs[p := k.procs[p].(programBreak := after)]
      && k'.current == k.current && k'.esp0 == k.esp0
      && BreakMoved(k, k', p, k.procs[p].programBreak, after) && OthersSame(k, k', p)
      && (LostBySbrk(k, p, increment) == {} <==> forall w: nat :: !GrowsInto(k.procs[p], after, w))
      && (Accounted(k', sys) <==> forall w: nat :: !GrowsInto(k.procs[p], after, w))
  {
    var b := k.procs[p].programBreak;
    var after := NewBreak(b, increment);
    SbrkInUserHalf(b, increment);
    hide Owned, RangeReady, BreakMoved, OthersSame, RoundUp, NewBreak, Sbrk, LostRange, GrowsInto, NoneMapped,
         InUserHalf;
    own' := SbrkEffect(k, own, sys, p, increment);
    var lost := LostBySbrk(k, p, increment);
    var v, n := LowPage(b, after), PageCount(b, after);
    if RoundUp(after) > RoundUp(b) {
      UserRange(b, after);
      LostWasOwned(k, own, sys, p, v, n);
      NoneLost(k, p, v, n);
      GrowthIsFree(k, p, img, after);
    } else {
      NoGrowth(k.procs[p], after);
    }
    AccountedExactly(Sbrk(k, p, increment).value, own', sys, lost);
  }

  lemma UserRange(before: nat, after: nat)
    requires InUserHalf(before, after)
    ensures LowPage(before, after) + PageCount(before, after) <= USER_PAGES
  {
  }

  lemma NoGrowth(r: Process, after: nat)
    requires RoundUp(after) <= RoundUp(r.programBreak)
    ensures forall w: nat :: !GrowsInto(r, after, w)
  {
    RoundUpPages(after);
    RoundUpPages(r.programBreak);
    hide RoundUp, InRegions;
  }

  /** sbrk keeps the layout, and every frame its one owner, exactly when the new
      break lies between the end of the image and the mapping base: the call checks
      neither. */
  lemma SbrkKeepsLayoutExactly(k: Kernel, own: Owners, sys: set<nat>, p: nat, img: Image, increment: int)
    requires Owned(k, own, sys) && Layout(k, p, img) && -0x8000_0000 <= increment < 0x8000_0000
    requires SbrkReady(k, p, increment) && Sbrk(k, p, increment).Some?
    ensures var k' := Sbrk(k, p, increment).value;
      Accounted(k', sys) && Layout(k', p, img)
      <==> img.end <= NewBreak(k.procs[p].programBreak, increment) <= MMAP_BASE
  {
    hide Owned, SbrkReady, Sbrk, NewBreak, BreakMoved, GrowsInto, OthersSame, LostBySbrk, InUserHalf;
    ShapedKnown(k, own, sys);
    SbrkDefined(k, p, img, increment);
    var own' := SbrkAccountsExactly(k, own, sys, p, img, increment);
    var after := NewBreak(k.procs[p].programBreak, increment);
    if img.end <= after <= MMAP_BASE {
      forall w: nat ensures !GrowsInto(k.procs[p], after, w) {
        BelowMappings(k.procs[p], img, after, w);
      }
      MovedLayout(k, Sbrk(k, p, increment).value, p, img, after);
    }
  }

  lemma BelowMappings(r: Process, img: Image, after: nat, w: nat)
    requires Bounded(r, img) && after <= MMAP_BASE
    ensures !GrowsInto(r, after, w)
  {
    AreasApart(r, img, w);
  }

  lemma MovedLayout(k: Kernel, k': Kernel, p: nat, img: Image, after: nat)
    requires Layout(k, p, img) && BreakMoved(k, k', p, k.procs[p].programBreak, after)
    requires k'.procs == k.procs[p := k.procs[p].(programBreak := after)] && img.end <= after <= MMAP_BASE
    ensures Layout(k', p, img)
  {
    var r, r' := k.procs[p], k'.procs[p];
    hide IsMapped;
    assert Bounded(r', img);
    hide RegionsOk;
    forall w: nat | w < USER_PAGES ensures IsMapped(k', p, w) <==> Covers(r', img, w) {
      AreasApart(r, img, w);
      AreasApart(r', img, w);
      SameRegions(r, r', w);
      hide Bounded, InRegions, RoundUp;
    }
  }

  lemma SameRegions(r: Process, r': Process, w: nat)
    requires r'.regions == r.regions
    ensures InRegions(r', w) <==> InRegions(r, w)
  {
  }

  /** The pages of the image stay mapped exactly when the rounded new break is above
      them all, whatever the increment; and above the image the heap pages are
      exactly those below the rounded new break. */
  lemma ImageStaysExactly(k: Kernel, own: Owners, sys: set<nat>, p: nat, img: Image, increment: int)
    requires Owned(k, own, sys) && Layout(k, p, img) && -0x8000_0000 <= increment < 0x8000_0000
    requires SbrkReady(k, p, increment) && Sbrk(k, p, increment).Some?
    ensures var k' := Sbrk(k, p, increment).value; var after := NewBreak(k.procs[p].programBreak, increment);
      && p in k'.procs
      && ((forall w :: w in img.pages ==> IsMapped(k', p, w)) <==>
            forall w :: w in img.pages ==> w < RoundUp(after) / PAGE)
      && (img.end > 0 && img.end / PAGE - 1 in img.pages ==>
            ((forall w :: w in img.pages ==> IsMapped(k', p, w)) <==> RoundUp(after) >= img.end))
      && forall w: nat :: img.end / PAGE <= w < MMAP_BASE / PAGE ==> (IsMapped(k', p, w) <==> w < RoundUp(after) / PAGE)
  {
    hide Owned, SbrkReady, Sbrk, NewBreak, GrowsInto, OthersSame, LostBySbrk, RegionsOk, InRegions, InStack,
         IsMapped, InUserHalf;
    ShapedKnown(k, own, sys);
    SbrkDefined(k, p, img, increment);
    var own' := SbrkAccountsExactly(k, own, sys, p, img, increment);
    var after := NewBreak(k.procs[p].programBreak, increment);
    RoundUpPages(after);
    forall w: nat | w < MMAP_BASE / PAGE
      ensures img.end / PAGE <= w ==> (IsMapped(Sbrk(k, p, increment).value, p, w) <==> w < RoundUp(after) / PAGE)
      ensures w in img.pages ==> (IsMapped(Sbrk(k, p, increment).value, p, w) <==> w < RoundUp(after) / PAGE)
    {
      AreasApart(k.procs[p], img, w);
      hide RoundUp, Bounded;
      assert IsMapped(k, p, w) <==> Covers(k.procs[p], img, w);
    }
    AreasApart(k.procs[p], img, 0);
    hide RoundUp, BreakMoved, Layout;
    assert forall w :: w in img.pages ==> w < img.end / PAGE && w < MMAP_BASE / PAGE;
  }

  // ----- mmap and munmap

  lemma MmapLost(k: Kernel, p: nat, img: Image, n: nat)
    requires Layout(k, p, img) && k.procs[p].mmapNext / PAGE + n <= USER_PAGES
    ensures NoneMapped(k, p, k.procs[p].mmapNext / PAGE, n) <==> k.procs[p].mmapNext + n * PAGE <= STACK_BOTTOM
  {
    var r := k.procs[p];
    var v := r.mmapNext / PAGE;
    hide RoundUp, InRegions, IsMapped;
    AreasApart(r, img, v);
    if r.mmapNext + n * PAGE <= STACK_BOTTOM {
      forall w: nat | v <= w < v + n ensures !IsMapped(k, p, w) {
        AreasApart(r, img, w);
      }
    } else {
      var w := STACK_BOTTOM / PAGE;
      assert InStack(w) && v <= w < v + n;
      assert IsMapped(k, p, w);
    }
  }

  /** mmap keeps the account of frames exactly when no page of the new region was
      mapped. */
  lemma MmapAccounts(k: Kernel, own: Owners, sys: set<nat>, p: nat, size: nat) returns (own': Owners)
    requires Owned(k, own, sys) && p in k.procs && RegionsOk(k.procs[p])
    requires k.procs[p].mmapNext / PAGE + PagesFor(size) <= USER_PAGES && Mmap(k, p, size).Some?
    requires RangeReady(k, p, k.procs[p].mmapNext / PAGE, PagesFor(size))
    ensures var free := NoneMapped(k, p, k.procs[p].mmapNext / PAGE, PagesFor(size));
      (Accounted(Mmap(k, p, size).value, sys) <==> free) && (free ==> Owned(Mmap(k, p, size).value, own', sys))
  {
    hide Owned, RangeReady, Mmap, LostRange, NoneMapped, PagesFor, IsMapped, RegionsOk;
    ShapedKnown(k, own, sys);
    var v, n := k.procs[p].mmapNext / PAGE, PagesFor(size);
    MmapEffect(k, own, sys, p, size);
    own' := OwnersAfterMapRange(k, own, p, v, n);
    NoneLost(k, p, v, n);
    LostWasOwned(k, own, sys, p, v, n);
    AccountedExactly(Mmap(k, p, size).value, own', sys, LostRange(k, p, v, n));
    if LostRange(k, p, v, n) == {} { assert sys + LostRange(k, p, v, n) == sys; }
  }

  /** mmap keeps the layout, and every frame its one owner, exactly when the new
      region ends below the stack: the address it hands out only ever rises, and the
      call does not check it. */
  lemma MmapKeepsLayoutExactly(k: Kernel, own: Owners, sys: set<nat>, p: nat, img: Image, size: nat)
      returns (own': Owners)
    requires Owned(k, own, sys) && Layout(k, p, img)
    requires k.procs[p].mmapNext / PAGE + PagesFor(size) <= USER_PAGES && Mmap(k, p, size).Some?
    requires RangeReady(k, p, k.procs[p].mmapNext / PAGE, PagesFor(size))
    ensures var k' := Mmap(k, p, size).value; var next := k.procs[p].mmapNext + PagesFor(size) * PAGE;
      && (Accounted(k', sys) <==> next <= STACK_BOTTOM)
      && (Accounted(k', sys) && Layout(k', p, img) <==> next <= STACK_BOTTOM)
      && (next <= STACK_BOTTOM ==> Owned(k', own', sys))
  {
    hide Owned, RangeReady, Mmap, LostRange, NoneMapped, PagesFor, IsMapped, Covers, RegionsOk;
    own' := MmapAccounts(k, own, sys, p, size);
    MmapLost(k, p, img, PagesFor(size));
    if k.procs[p].mmapNext + PagesFor(size) * PAGE <= STACK_BOTTOM {
      MmapLayout(k, own, sys, p, img, size);
    }
  }

  lemma MmapLayout(k: Kernel, own: Owners, sys: set<nat>, p: nat, img: Image, size: nat)
    requires Owned(k, own, sys) && Layout(k, p, img)
    requires k.procs[p].mmapNext / PAGE + PagesFor(size) <= USER_PAGES && Mmap(k, p, size).Some?
    requires RangeReady(k, p, k.procs[p].mmapNext / PAGE, PagesFor(size))
    requires k.procs[p].mmapNext + PagesFor(size) * PAGE <= STACK_BOTTOM
    ensures Layout(Mmap(k, p, size).value, p, img)
  {
    hide Owned, RangeReady, Mmap, LostRange, PagesFor, IsMapped, Covers, RegionsOk, OwnersAfterMapRange, MapRange;
    ShapedKnown(k, own, sys);
    MmapEffect(k, own, sys, p, size);
    MmapKeepsRegions(k, p, size);
    GrownLayout(k, Mmap(k, p, size).value, p, img, Region(k.procs[p].mmapNext, PagesFor(size) * PAGE));
  }

  lemma GrownLayout(k: Kernel, k': Kernel, p: nat, img: Image, r: Region)
    requires Layout(k, p, img) && r.base + r.len <= STACK_BOTTOM
    requires k'.procs == k.procs[p := k.procs[p].(mmapNext := r.base + r.len, regions := k.procs[p].regions + [r])]
    requires RegionsOk(k'.procs[p])
    requires forall q, w: nat :: q in k.procs && w < USER_PAGES ==>
               if q == p && InRegion(r, w) then IsMapped(k', q, w) else Mapped(k', q, w) == Mapped(k, q, w)
    ensures Layout(k', p, img)
  {
    var before, after := k.procs[p], k'.procs[p];
    hide Mapped, RoundUp, RegionsOk;
    forall w: nat | w < USER_PAGES ensures IsMapped(k', p, w) <==> Covers(after, img, w) {
      RegionAdded(before.regions, r, w);
      assert InRegions(after, w) <==> InRegions(before, w) || InRegion(r, w);
      hide InRegions;
      assert IsMapped(k, p, w) <==> Covers(before, img, w);
      if !InRegion(r, w) { assert Mapped(k', p, w) == Mapped(k, p, w); }
    }
  }

  lemma RegionAdded(rs: seq<Region>, r: Region, w: nat)
    ensures (exists a :: 0 <= a < |rs + [r]| && InRegion((rs + [r])[a], w))
            <==> InRegion(r, w) || exists a :: 0 <= a < |rs| && InRegion(rs[a], w)
  {
    var all := rs + [r];
    assert all[|rs|] == r;
    if a :| 0 <= a < |rs| && InRegion(rs[a], w) { assert all[a] == rs[a]; }
  }

  /** munmap keeps the layout, always. */
  lemma MunmapKeepsLayout(k: Kernel, own: Owners, sys: set<nat>, p: nat, img: Image, addr: nat)
    requires Owned(k, own, sys) && Layout(k, p, img)
    ensures MunmapInRange(k.procs[p], addr)
    ensures Munmap(k, p, addr).Some? ==>
              Accounted(Munmap(k, p, addr).value, sys) && Layout(Munmap(k, p, addr).value, p, img)
  {
    hide Owned, Munmap, IsMapped, MunmapInRange;
    ShapedKnown(k, own, sys);
    RegionsInUserHalf(k.procs[p], img, addr);
    MunmapEffect(k, own, sys, p, addr);
    if Munmap(k, p, addr).Some? {
      MunmapKeepsRegions(k, p, addr);
      var i := RegionAt(k.procs[p].regions, addr);
      ShrunkLayout(k, Munmap(k, p, addr).value, p, img, i);
    }
  }

  lemma RegionsInUserHalf(r: Process, img: Image, addr: nat)
    requires Bounded(r, img)
    ensures MunmapInRange(r, addr)
  {
  }

  lemma ShrunkLayout(k: Kernel, k': Kernel, p: nat, img: Image, i: nat)
    requires Layout(k, p, img) && i < |k.procs[p].regions|
    requires k'.procs == k.procs[p := k.procs[p].(regions := Dropped(k.procs[p].regions, i))]
    requires RegionsOk(k'.procs[p])
    requires forall q, w: nat :: q in k.procs && w < USER_PAGES ==>
               if q == p && InRegion(k.procs[p].regions[i], w) then !IsMapped(k', q, w)
               else Mapped(k', q, w) == Mapped(k, q, w)
    ensures Layout(k', p, img)
  {
    var before, after := k.procs[p], k'.procs[p];
    hide Mapped, RoundUp;
    forall w: nat | w < USER_PAGES ensures IsMapped(k', p, w) <==> Covers(after, img, w) {
      AreasApart(before, img, w);
      RegionRemoved(before, after, i, w);
      hide InRegions;
      assert IsMapped(k, p, w) <==> Covers(before, img, w);
      if !InRegion(before.regions[i], w) { assert Mapped(k', p, w) == Mapped(k, p, w); }
      else { InOneRegion(before, img, i, w); }
    }
  }

  lemma RegionRemoved(r: Process, r': Process, i: nat, w: nat)
    requires RegionsOk(r) && i < |r.regions| && r'.regions == Dropped(r.regions, i)
    ensures InRegions(r', w) <==> InRegions(r, w) && !InRegion(r.regions[i], w)
  {
    if b :| 0 <= b < |r'.regions| && InRegion(r'.regions[b], w) {
      var a := if b < i then b else b + 1;
      assert r'.regions[b] == r.regions[a] && InRegion(r.regions[a], w);
      OneRegion(r, a, i, w);
    }
    if a :| 0 <= a < |r.regions| && InRegion(r.regions[a], w) {
      if a != i { assert r'.regions[if a < i then a else a - 1] == r.regions[a]; }
    }
  }

  /** A page lies in one region at most. */
  lemma OneRegion(r: Process, a: nat, b: nat, w: nat)
    requires RegionsOk(r) && a < |r.regions| && b < |r.regions| && a != b
    requires InRegion(r.regions[a], w)
    ensures !InRegion(r.regions[b], w)
  {
    var x, y := if a < b then a else b, if a < b then b else a;
    assert r.regions[x].base + r.regions[x].len <= r.regions[y].base;
  }

  lemma InOneRegion(r: Process, img: Image, i: nat, w: nat)
    requires Bounded(r, img) && i < |r.regions| && InRegion(r.regions[i], w)
    ensures InRegions(r, w) && w !in img.pages && !InHeap(r, img, w) && !InStack(w)
  {
    assert InRegions(r, w);
    AreasApart(r, img, w);
  }

  // ----- what a call leaves alone

  /** Another process's layout does not change. */
  lemma OtherLayoutKept(k: Kernel, k': Kernel, q: nat, img: Image)
    requires Layout(k, q, img) && q in k'.procs && k'.procs[q] == k.procs[q]
    requires forall w: nat :: w < USER_PAGES ==> IsMapped(k', q, w) == IsMapped(k, q, w)
    ensures Layout(k', q, img)
  {
    hide IsMapped, Bounded, Covers;
  }
}
