/** mmap and munmap: regions above the heap and the pages behind them. */
module MappingRegions {
  import opened Bits
  import opened Frames
  import opened Options
  import opened AddressSpaces
  import opened ProcessLives
  import opened MemoryCalls
  import opened Sequences

  /** The pages mmap allocates for a 32-bit size. */
  function PagesFor(size: nat): nat {
    Wrap(size + 0xFFF) / PAGE
  }

  /** A size gets a region that holds it exactly when it is neither 0 nor within
      the last page of 32 bits: those get no page at all. */
  lemma PagesHold(size: nat)
    requires size < WORD
    ensures 0 < PagesFor(size) <==> 0 < size <= 0xFFFF_F000
    ensures 0 < PagesFor(size) ==> size <= PagesFor(size) * PAGE < size + PAGE
    ensures PagesFor(size) == 0 <==> size == 0 || size > 0xFFFF_F000
  {
  }

  /** Regions lie above the heap, on page boundaries, one behind the other, and
      below the next base to hand out. */
  predicate RegionsOk(r: Process) {
    && r.mmapNext % PAGE == 0 && 0x700_0000 <= r.mmapNext
    && (forall a :: 0 <= a < |r.regions| ==>
          && r.regions[a].base % PAGE == 0 && r.regions[a].len % PAGE == 0
          && 0x700_0000 <= r.regions[a].base && r.regions[a].base + r.regions[a].len <= r.mmapNext)
    && forall a, b :: 0 <= a < b < |r.regions| ==> r.regions[a].base + r.regions[a].len <= r.regions[b].base
  }

  function WithRegions(k: Kernel, p: nat, next: nat, regions: seq<Region>): (r: Kernel)
    requires Shaped(k) && p in k.procs
    ensures Shaped(r)
  {
    k.(procs := k.procs[p := k.procs[p].(mmapNext := next, regions := regions)])
  }

  function Mmap(k: Kernel, p: nat, size: nat): (r: Option<Kernel>)
    requires Shaped(k) && p in k.procs && k.procs[p].mmapNext / PAGE + PagesFor(size) <= USER_PAGES
    ensures r.Some? <==> MapRange(k, p, k.procs[p].mmapNext / PAGE, PagesFor(size)).Some?
    ensures r.Some? ==> Shaped(r.value) && p in r.value.procs
  {
    var base, n := k.procs[p].mmapNext, PagesFor(size);
    match MapRange(k, p, base / PAGE, n)
    case None => None
    case Some(k1) => Some(WithRegions(k1, p, base + n * PAGE, k.procs[p].regions + [Region(base, n * PAGE)]))
  }

  /** The first region with this base, or the number of regions. */
  function RegionAt(regions: seq<Region>, addr: nat): (i: nat)
    ensures i <= |regions| && (i < |regions| ==> regions[i].base == addr)
    ensures forall a :: 0 <= a < i ==> regions[a].base != addr
  {
    if regions == [] || regions[0].base == addr then 0 else 1 + RegionAt(regions[1..], addr)
  }

  predicate MunmapInRange(r: Process, addr: nat) {
    var i := RegionAt(r.regions, addr);
    i < |r.regions| ==> addr / PAGE + r.regions[i].len / PAGE <= USER_PAGES
  }

  /** `None` is the error return for an address that is no region's base. */
  function Munmap(k: Kernel, p: nat, addr: nat): (r: Option<Kernel>)
    requires Shaped(k) && p in k.procs && MunmapInRange(k.procs[p], addr)
    ensures r.Some? ==> Shaped(r.value) && p in r.value.procs
  {
    var rs := k.procs[p].regions;
    var i := RegionAt(rs, addr);
    if i == |rs| then None
    else Some(WithRegions(UnmapRange(k, p, addr / PAGE, rs[i].len / PAGE), p, k.procs[p].mmapNext, Dropped(rs, i)))
  }

  // ----- regions stay apart

  lemma MmapKeepsRegions(k: Kernel, p: nat, size: nat)
    requires Shaped(k) && p in k.procs && RegionsOk(k.procs[p])
    requires k.procs[p].mmapNext / PAGE + PagesFor(size) <= USER_PAGES && Mmap(k, p, size).Some?
    ensures RegionsOk(Mmap(k, p, size).value.procs[p])
  {
    hide Shaped, MapRange, PagesFor;
  }

  lemma MunmapKeepsRegions(k: Kernel, p: nat, addr: nat)
    requires Shaped(k) && p in k.procs && RegionsOk(k.procs[p])
    requires MunmapInRange(k.procs[p], addr) && Munmap(k, p, addr).Some?
    ensures RegionsOk(Munmap(k, p, addr).value.procs[p])
  {
    hide Shaped, UnmapRange;
  }

  /** Two regions share a base only if the one mapped first is empty. */
  lemma SharedBase(r: Process, a: nat, b: nat)
    requires RegionsOk(r) && a < b < |r.regions| && r.regions[a].base == r.regions[b].base
    ensures r.regions[a].len == 0
  {
    assert r.regions[a].base + r.regions[a].len <= r.regions[b].base;
  }

  predicate InRegion(r: Region, w: nat) {
    r.base / PAGE <= w < r.base / PAGE + r.len / PAGE
  }

  lemma RegionsMapped(k: Kernel, p: nat, next: nat, regions: seq<Region>)
    requires Shaped(k) && p in k.procs
    ensures forall q, w: nat :: q in k.procs ==> Mapped(WithRegions(k, p, next, regions), q, w) == Mapped(k, q, w)
  {
  }

  /** mmap maps the pages of the new region and changes no other page of any
      process; the frames of pages it maps over are lost. */
  lemma MmapEffect(k: Kernel, own: Owners, sys: set<nat>, p: nat, size: nat)
    requires Owned(k, own, sys) && p in k.procs && RegionsOk(k.procs[p])
    requires k.procs[p].mmapNext / PAGE + PagesFor(size) <= USER_PAGES && Mmap(k, p, size).Some?
    requires RangeReady(k, p, k.procs[p].mmapNext / PAGE, PagesFor(size))
    ensures var k' := Mmap(k, p, size).value;
      var r := Region(k.procs[p].mmapNext, PagesFor(size) * PAGE);
      && Owned(k', OwnersAfterMapRange(k, own, p, r.base / PAGE, PagesFor(size)),
               sys + LostRange(k, p, r.base / PAGE, PagesFor(size)))
      && k'.procs == k.procs[p := k.procs[p].(mmapNext := r.base + r.len, regions := k.procs[p].regions + [r])]
      && k'.current == k.current && k'.esp0 == k.esp0
      && forall q, w: nat :: q in k.procs && w < USER_PAGES ==>
           if q == p && InRegion(r, w) then IsMapped(k', q, w) else Mapped(k', q, w) == Mapped(k, q, w)
  {
    hide Owned, Shaped, RangeReady, MapRange, PagesFor, Translate, OwnersAfterMapRange, LostRange;
    ShapedKnown(k, own, sys);
    var base, n := k.procs[p].mmapNext, PagesFor(size);
    var lost := LostRange(k, p, base / PAGE, n);
    MapRangeEffect(k, own, sys, p, base / PAGE, n);
    var k1 := MapRange(k, p, base / PAGE, n).value;
    var rs := k.procs[p].regions + [Region(base, n * PAGE)];
    RecordOwned(k1, OwnersAfterMapRange(k, own, p, base / PAGE, n), sys + lost, p,
                k1.procs[p].(mmapNext := base + n * PAGE, regions := rs));
    RegionsMapped(k1, p, base + n * PAGE, rs);
    RangePages(k, k1, p, base / PAGE, n);
    var k' := Mmap(k, p, size).value;
    assert k' == WithRegions(k1, p, base + n * PAGE, rs);
    hide Mapped, RangeMapped, DirectoriesGrow, AgreeOutside, Mmap;
    forall q, w: nat | q in k.procs && w < USER_PAGES
      ensures if q == p && base / PAGE <= w < base / PAGE + n then IsMapped(k', q, w)
              else Mapped(k', q, w) == Mapped(k, q, w)
    {
      assert Mapped(k', q, w) == Mapped(k1, q, w);
      assert IsMapped(k', q, w) <==> IsMapped(k1, q, w);
    }
  }

  lemma RangePages(k: Kernel, k1: Kernel, p: nat, v: nat, n: nat)
    requires Shaped(k) && Shaped(k1) && p in k.procs && p in k1.procs && RangeMapped(k, k1, p, v, n)
    ensures k1.procs == k.procs && k1.current == k.current && k1.esp0 == k.esp0
    ensures forall q, w: nat :: q in k.procs && w < USER_PAGES && !(q == p && v <= w < v + n) ==>
              Mapped(k1, q, w) == Mapped(k, q, w)
    ensures forall w: nat :: v <= w < v + n ==> IsMapped(k1, p, w)
  {
  }

  /** munmap takes away the pages of exactly one region, the first with that base,
      and that region from the list; with no such region it does nothing. */
  lemma MunmapEffect(k: Kernel, own: Owners, sys: set<nat>, p: nat, addr: nat)
    requires Owned(k, own, sys) && p in k.procs && RegionsOk(k.procs[p]) && MunmapInRange(k.procs[p], addr)
    ensures var rs := k.procs[p].regions; var i := RegionAt(rs, addr);
      && (Munmap(k, p, addr).None? <==> forall a :: 0 <= a < |rs| ==> rs[a].base != addr)
      && (Munmap(k, p, addr).Some? ==>
            var k' := Munmap(k, p, addr).value;
            && Owned(k', OwnersAfterUnmapRange(k, own, p, addr / PAGE, rs[i].len / PAGE), sys)
            && i < |rs| && rs[i].base == addr
            && k'.procs == k.procs[p := k.procs[p].(regions := Dropped(rs, i))]
            && k'.current == k.current && k'.esp0 == k.esp0
            && forall q, w: nat :: q in k.procs && w < USER_PAGES ==>
                 if q == p && InRegion(rs[i], w) then !IsMapped(k', q, w)
                 else Mapped(k', q, w) == Mapped(k, q, w))
  {
    hide Owned, Shaped, UnmapRange, Translate, OwnersAfterUnmapRange;
    ShapedKnown(k, own, sys);
    var rs := k.procs[p].regions;
    var i := RegionAt(rs, addr);
    if i < |rs| {
      var v, n := addr / PAGE, rs[i].len / PAGE;
      UnmapRangeEffect(k, own, sys, p, v, n);
      var k1 := UnmapRange(k, p, v, n);
      RecordOwned(k1, OwnersAfterUnmapRange(k, own, p, v, n), sys, p, k1.procs[p].(regions := Dropped(rs, i)));
      RegionsMapped(k1, p, k.procs[p].mmapNext, Dropped(rs, i));
      UnrangePages(k, k1, p, v, n);
      var k' := Munmap(k, p, addr).value;
      assert k' == WithRegions(k1, p, k.procs[p].mmapNext, Dropped(rs, i));
      hide Mapped, RangeUnmapped, Munmap, Dropped;
      forall q, w: nat | q in k.procs && w < USER_PAGES
        ensures if q == p && v <= w < v + n then !IsMapped(k', q, w) else Mapped(k', q, w) == Mapped(k, q, w)
      {
        assert Mapped(k', q, w) == Mapped(k1, q, w);
        assert IsMapped(k', q, w) <==> IsMapped(k1, q, w);
      }
    }
  }

  lemma UnrangePages(k: Kernel, k1: Kernel, p: nat, v: nat, n: nat)
    requires Shaped(k) && Shaped(k1) && p in k.procs && p in k1.procs && RangeUnmapped(k, k1, p, v, n)
    ensures k1.procs == k.procs && k1.current == k.current && k1.esp0 == k.esp0
    ensures forall q, w: nat :: q in k.procs && w < USER_PAGES && !(q == p && v <= w < v + n) ==>
              Mapped(k1, q, w) == Mapped(k, q, w)
    ensures forall w: nat :: v <= w < v + n ==> !IsMapped(k1, p, w)
  {
  }

  /** mmap followed by munmap of the returned base gives back the regions and all
      translations exactly when no page of the new region was mapped before and no
      empty region was already at that base: munmap would take that one instead and
      leave the pages mapped. */
  lemma MmapMunmap(k: Kernel, own: Owners, sys: set<nat>, p: nat, size: nat)
    requires Owned(k, own, sys) && p in k.procs && RegionsOk(k.procs[p])
    requires PagesFor(size) > 0 && k.procs[p].mmapNext / PAGE + PagesFor(size) <= USER_PAGES
    requires RangeReady(k, p, k.procs[p].mmapNext / PAGE, PagesFor(size)) && Mmap(k, p, size).Some?
    ensures var k1 := Mmap(k, p, size).value; var base := k.procs[p].mmapNext;
      && p in k1.procs && MunmapInRange(k1.procs[p], base) && Munmap(k1, p, base).Some?
      && var k2 := Munmap(k1, p, base).value;
         k2.procs.Keys == k.procs.Keys &&
         ((k2.procs[p].regions == k.procs[p].regions
           && forall q, w: nat :: q in k.procs && w < USER_PAGES ==> Mapped(k2, q, w) == Mapped(k, q, w))
          <==> NoneMapped(k, p, base / PAGE, PagesFor(size))
               && forall a :: 0 <= a < |k.procs[p].regions| ==> k.procs[p].regions[a].base != base)
  {
    hide Owned, Shaped, RangeReady, MapRange, PagesFor, Translate, OwnersAfterMapRange, OwnersAfterUnmapRange, Mmap,
         Munmap, Mapped, LostRange, NoneMapped, RegionsOk, Dropped;
    ShapedKnown(k, own, sys);
    MmapEffect(k, own, sys, p, size);
    MmapKeepsRegions(k, p, size);
    var k1, base, n := Mmap(k, p, size).value, k.procs[p].mmapNext, PagesFor(size);
    var own1 := OwnersAfterMapRange(k, own, p, base / PAGE, n);
    var sys1 := sys + LostRange(k, p, base / PAGE, n);
    ShapedKnown(k1, own1, sys1);
    FirstAtNext(k.procs[p], Region(base, n * PAGE));
    var i := RegionAt(k1.procs[p].regions, base);
    MunmapEffect(k1, own1, sys1, p, base);
    var k2 := Munmap(k1, p, base).value;
    if i < |k.procs[p].regions| {
      EmptyTakenInstead(k, k2, p, i, Region(base, n * PAGE));
    } else {
      NewTaken(k.procs[p].regions, Region(base, n * PAGE));
      BothUnmapped(k, k1, k2, p, Region(base, n * PAGE));
      RangeIsRegion(k, p, Region(base, n * PAGE));
    }
  }

  /** Which region munmap finds at the next base: the new one, or an empty one with
      only empty ones behind it. */
  lemma FirstAtNext(r: Process, new': Region)
    requires RegionsOk(r) && new'.base == r.mmapNext
    ensures var i := RegionAt(r.regions + [new'], new'.base);
      && i <= |r.regions| && (r.regions + [new'])[i].base == new'.base
      && (i == |r.regions| <==> forall a :: 0 <= a < |r.regions| ==> r.regions[a].base != new'.base)
      && (i < |r.regions| ==> forall a :: i <= a < |r.regions| ==> r.regions[a].len == 0)
  {
    hide RegionAt;
    var all := r.regions + [new'];
    var i := RegionAt(all, new'.base);
    assert all[|r.regions|] == new';
    assert forall a :: 0 <= a < |r.regions| ==> all[a] == r.regions[a];
  }

  lemma NewTaken(rs: seq<Region>, r: Region)
    ensures Dropped(rs + [r], |rs|) == rs && (rs + [r])[|rs|] == r
  {
  }

  /** munmap took the empty region at `i`: the new region is still in the list. */
  lemma EmptyTakenInstead(k: Kernel, k2: Kernel, p: nat, i: nat, r: Region)
    requires p in k.procs && p in k2.procs && r.len > 0 && i < |k.procs[p].regions|
    requires k2.procs[p].regions == Dropped(k.procs[p].regions + [r], i)
    requires forall a :: i <= a < |k.procs[p].regions| ==> k.procs[p].regions[a].len == 0
    ensures k2.procs[p].regions != k.procs[p].regions
  {
    var rs := k.procs[p].regions;
    assert k2.procs[p].regions[|rs| - 1] == (rs + [r])[|rs|] == r;
    assert rs[|rs| - 1].len == 0;
  }

  lemma RangeIsRegion(k: Kernel, p: nat, r: Region)
    requires p in k.procs
    ensures NoneMapped(k, p, r.base / PAGE, r.len / PAGE) <==> forall w: nat :: InRegion(r, w) ==> !IsMapped(k, p, w)
  {
    hide IsMapped;
    if NoneMapped(k, p, r.base / PAGE, r.len / PAGE) {
    } else {
      var w: nat :| r.base / PAGE <= w < r.base / PAGE + r.len / PAGE && IsMapped(k, p, w);
      assert InRegion(r, w);
    }
  }

  lemma BothUnmapped(k: Kernel, k1: Kernel, k2: Kernel, p: nat, r: Region)
    requires k1.procs.Keys == k.procs.Keys && k2.procs.Keys == k.procs.Keys && p in k.procs
    requires r.base / PAGE + r.len / PAGE <= USER_PAGES
    requires forall q, w: nat :: q in k.procs && w < USER_PAGES ==>
               if q == p && InRegion(r, w) then IsMapped(k1, q, w) else Mapped(k1, q, w) == Mapped(k, q, w)
    requires forall q, w: nat :: q in k1.procs && w < USER_PAGES ==>
               if q == p && InRegion(r, w) then !IsMapped(k2, q, w) else Mapped(k2, q, w) == Mapped(k1, q, w)
    ensures (forall q, w: nat :: q in k.procs && w < USER_PAGES ==> Mapped(k2, q, w) == Mapped(k, q, w))
            <==> forall w: nat :: InRegion(r, w) ==> !IsMapped(k, p, w)
  {
    hide Mapped;
    if w: nat :| InRegion(r, w) && IsMapped(k, p, w) {
      assert !IsMapped(k2, p, w);
      assert Mapped(k2, p, w) != Mapped(k, p, w);
    } else {
      forall q, w: nat | q in k.procs && w < USER_PAGES ensures Mapped(k2, q, w) == Mapped(k, q, w) {
        if q == p && InRegion(r, w) { assert !IsMapped(k2, q, w) && !IsMapped(k, q, w); }
      }
    }
  }
}
