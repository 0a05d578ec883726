/** The kernel heap of slab.c: pages, zones of equal chunks, and large blocks. */
module Slab {
  import opened Sequences
  import opened Machine
  import opened PageList
  import opened SlabZones
  import opened SlabBooks

  const ZONE_RELEASE_THRESH: int := 2

  /** RT_ALIGN(size, RT_MM_PAGE_SIZE) >> RT_MM_PAGE_BITS, in 64 bits. */
  function PagesFor(size: nat): nat {
    (size + PAGE - 1) % SIZE_LIMIT / PAGE
  }

  /** The pages hold the request, and none is spare, exactly for the sizes whose rounding does not wrap. */
  lemma PagesForExact(size: nat)
    requires size < SIZE_LIMIT
    ensures size <= PagesFor(size) * PAGE <==> size <= SIZE_LIMIT - PAGE
    ensures size <= SIZE_LIMIT - PAGE ==> PagesFor(size) * PAGE < size + PAGE
    ensures size > SIZE_LIMIT - PAGE ==> PagesFor(size) == 0
    ensures size <= SIZE_LIMIT - PAGE ==> forall n: nat :: n < PagesFor(size) <==> n * PAGE < size
  {
    if size <= SIZE_LIMIT - PAGE {
      assert (size + PAGE - 1) % SIZE_LIMIT == size + PAGE - 1;
    } else {
      assert (size + PAGE - 1) % SIZE_LIMIT == size + PAGE - 1 - SIZE_LIMIT;
    }
  }

  /** No run of pages has room for `size` bytes, or rounding them up to pages wraps. */
  ghost predicate NoRun(runs: seq<Run>, size: nat) {
    size > SIZE_LIMIT - PAGE || forall i | 0 <= i < |runs| :: runs[i].len * PAGE < size
  }

  /** The zones that serve a small request are those of its chunk size with a free chunk. */
  lemma ListForExact(heap: Heap, size: nat, z: nat)
    requires heap.Valid() && 0 < size < heap.zoneLimit
    ensures heap.zoneLimit <= ZONE_LIMIT && |heap.zoneArray| == NZONES
    ensures z in heap.ListFor(size) <==>
            z in heap.zones && heap.zones[z].chunk == ZoneIndex(size).chunk && heap.zones[z].nfree > 0
  {
    hide Ledger, Territory, ZoneIndex, ChunkSize;
    OneChunkSizePerIndex(size);
    var i := ZoneIndex(size).index;
    assert ListOk(heap.zoneArray[i], heap.zones, i);
    if z in heap.zones {
      assert ZoneOk(heap.zones[z], z * PAGE, heap.zoneSize);
      assert ChunkSize(heap.zones[z].index) == ZoneIndex(size).chunk ==> heap.zones[z].index == i;
    }
  }

  lemma NoRunExact(runs: seq<Run>, size: nat)
    requires 0 < size < SIZE_LIMIT
    ensures NoRun(runs, size) <==> PagesFor(size) == 0 || forall i | 0 <= i < |runs| :: runs[i].len < PagesFor(size)
  {
    hide PagesFor;
    PagesForExact(size);
  }

  ghost predicate Sizes(zoneSize: nat, zoneLimit: nat, zonePages: nat) {
    && (zoneSize == MIN_ZONE || zoneSize == 2 * MIN_ZONE || zoneSize == MAX_ZONE) && zoneSize == zonePages * PAGE
    && zoneLimit == Min(zoneSize / 4, ZONE_LIMIT)
  }

  /** Live small blocks keep their chunk size. */
  ghost predicate SameChunks(small: map<nat, nat>, zones: map<nat, Zone>, zones': map<nat, Zone>) {
    forall q | q in small :: small[q] in zones && small[q] in zones' && zones'[small[q]].chunk == zones[small[q]].chunk
  }

  /** A live block begins at `p`: a small one, or a large one at the start of its first page. */
  ghost predicate LiveAt(small: map<nat, nat>, big: map<nat, nat>, p: nat) {
    p in small || (p % PAGE == 0 && p / PAGE in big)
  }

  /** Where a small block is taken from: the first zone in service with a free chunk, a cached zone, or a new one. */
  ghost predicate Source(list: seq<nat>, cache: seq<nat>, known: set<nat>, z: nat) {
    if list != [] then z == list[0] else if cache != [] then z == cache[0] else z !in known
  }

  /** The entries of the `cnt` pages from `z` on say that they are free. */
  ghost predicate Cleared(usage: seq<Usage>, usage': seq<Usage>, z: nat, cnt: nat) {
    && |usage'| == |usage|
    && (forall x | 0 <= x < |usage| :: usage'[x] == if z <= x < z + cnt then Usage(PageType.Free, 0) else usage[x])
  }

  class Heap {
    const pages: Pages
    const npages: nat
    const table: nat                    // pages of the memusage array
    const zoneSize: nat
    const zoneLimit: nat
    const zonePages: nat
    var usage: seq<Usage>               // memusage
    var zones: map<nat, Zone>           // zones in service, by their first page
    var zoneArray: seq<seq<nat>>
    var zoneFree: seq<nat>
    var zoneFreeCnt: nat

    ghost var owner: map<nat, Owner>
    ghost var small: map<nat, nat>      // live small blocks: address to zone
    ghost var big: map<nat, nat>        // live large blocks: first page to number of pages

    ghost function Known(): set<nat>
      reads this
    {
      zones.Keys + Members(zoneFree)
    }

    /** The page books, with `known` the zones in existence. */
    ghost predicate Paged(known: set<nat>)
      reads this, pages
    {
      && pages.Valid() && |usage| == npages
      && Territory(pages.runs, owner, npages)
      && Ledger(owner, usage, known, big, zonePages, table)
    }

    ghost predicate Served()
      reads this
    {
      && Sizes(zoneSize, zoneLimit, zonePages) && 0 < table <= npages
      && Cached() && |zoneArray| == NZONES
      && Enrolled(zones, zoneArray, small, zoneSize) && OneIdle(zones)
    }

    ghost predicate Cached()
      reads this
    {
      && NoRepeats(zoneFree) && zones.Keys !! Members(zoneFree)
      && zoneFreeCnt == |zoneFree| <= ZONE_RELEASE_THRESH
    }

    ghost predicate Valid()
      reads this, pages
    {
      Served() && Paged(Known())
    }

    ghost predicate Live(p: nat)
      reads this
    {
      LiveAt(small, big, p)
    }

    /** rt_system_heap_init over `npages` pages, whose contents `garbage` are whatever memory held. */
    constructor (npages: nat, garbage: seq<Usage>)
      requires 0 < npages && npages * PAGE < 0x1_0000_0000
      requires |garbage| == npages
      ensures Valid() && this.npages == npages && 4 * npages <= table * PAGE < 4 * npages + PAGE
      ensures zoneSize > MIN_ZONE ==> zoneSize < npages * PAGE / 1024
      ensures zoneSize < MAX_ZONE ==> zoneSize * 2 >= npages * PAGE / 1024
      ensures small == map[] && big == map[]
      ensures pages.runs == if npages == table then [] else [Run(table, npages - table)]
    {
      hide Canonical, InRuns, Added, Ledger, Territory, Enrolled, OneIdle, Claimed;
      var size := ZoneSizeFor(npages * PAGE);
      var tablePages := RoundUp(npages * 4, PAGE) / PAGE;
      RoundedUp(npages * 4, PAGE);
      var list := new Pages(npages);
      ghost var all := list.runs;
      var r := list.Alloc(tablePages);
      this.npages, this.pages, this.table := npages, list, tablePages;
      zoneSize, zonePages := size, size / PAGE;
      zoneLimit := if size / 4 > ZONE_LIMIT then ZONE_LIMIT else size / 4;
      usage, zones, zoneArray, zoneFree, zoneFreeCnt := garbage, map[], seq(NZONES, _ => []), [], 0;
      owner, small, big := Claimed(map[], 0, tablePages, Table), map[], map[];
      new;
      InitialPages(all, list.runs, npages, tablePages, r);
      InitialBooks(usage, zonePages, tablePages);
      assert Known() == {};
      InitialRoster(zoneArray, zoneSize);
    }

    /** rt_malloc for requests of at least `zone_limit`: whole pages. */
    method MallocLarge(size: nat) returns (r: Option<nat>)
      requires Valid() && 0 < size < SIZE_LIMIT
      modifies this`usage, this`owner, this`big, pages
      ensures Valid()
      ensures r.None? <==> old(NoRun(pages.runs, size))
      ensures r.None? ==> pages.runs == old(pages.runs) && big == old(big)
      ensures r.Some? ==>
                && NewPages(old(big), big, r.value, size)
                && LowestRun(old(pages.runs), r.value / PAGE, big[r.value / PAGE])
                && Added(pages.runs, old(pages.runs), r.value / PAGE, big[r.value / PAGE])
    {
      hide Ledger, Territory, Enrolled, OneIdle, InRuns, Added, Unowned, PagesFor, Canonical, Claimed, Members, Sizes;
      PagesForExact(size);
      NoRunExact(pages.runs, size);
      var n := PagesFor(size);
      var b := pages.Alloc(n);
      if b.None? {
        return None;
      }
      TerritoryClaim(old(pages.runs), pages.runs, owner, npages, b.value, n, BlockPage(b.value));
      LedgerClaimBlock(owner, usage, Known(), big, zonePages, table, b.value, n);
      owner, big := Claimed(owner, b.value, n, BlockPage(b.value)), big[b.value := n];
      usage := usage[b.value := Usage(Large, n)];
      return Some(b.value * PAGE);
    }

    /** The first branch of rt_malloc for small requests: a zone of class `zi` has a free chunk. */
    method TakeFrom(zi: nat) returns (p: nat)
      requires Valid() && zi < NZONES && zoneArray[zi] != []
      modifies this`zones, this`zoneArray, this`small
      ensures Valid()
      ensures p !in old(small) && p in small && small == old(small)[p := small[p]]
      ensures small[p] in zones && zones[small[p]].index == zi && InUse(zones[small[p]], p)
      ensures small[p] == old(zoneArray[zi][0]) && zones.Keys == old(zones.Keys)
      ensures zoneArray == old(zoneArray) || zoneArray == old(zoneArray)[zi := old(zoneArray[zi])[1..]]
      ensures SameChunks(old(small), old(zones), zones)
    {
      hide Ledger, Territory, InRuns, Canonical, Members, Sizes, InUse, Enrolled, OneIdle, SameChunks, Counted,
          TakeChunk;
      SizesSquare(zoneSize, zoneLimit, zonePages);
      var z: nat := zoneArray[zi][0];
      TakeReady(zones, zoneArray, small, zi, zoneSize);
      var (zone', q) := TakeChunk(zones[z]);
      ghost var arr' := if zone'.nfree == 0 then zoneArray[zi := zoneArray[zi][1..]] else zoneArray;
      TakeBooks(zones, zoneArray, arr', small, owner, usage, Known(), big, zonePages, table, zi, z, zone', q);
      if zone'.nfree == 0 {
        zoneArray := zoneArray[zi := zoneArray[zi][1..]];
      }
      assert zones[z := zone'].Keys == zones.Keys;
      zones, small := zones[z := zone'], small[q := z];
      p := q;
    }

    /** A zone for rt_malloc to open: a cached one, or new pages. */
    method FindZone() returns (r: Option<nat>)
      requires Valid()
      modifies this`usage, this`zoneFree, this`zoneFreeCnt, this`owner, pages
      ensures Served()
      ensures r.None? ==> Paged(Known()) && zoneFree == old(zoneFree) && pages.runs == old(pages.runs)
      ensures r.None? <==> old(zoneFree) == [] && forall i | 0 <= i < |old(pages.runs)| ::
              old(pages.runs)[i].len < zonePages
      ensures r.Some? ==> r.value !in Known() && Paged(Known() + {r.value})
      ensures old(zoneFree) != [] ==>
                && r.Some? && r.value == old(zoneFree)[0] && zoneFree == old(zoneFree)[1..]
                && pages.runs == old(pages.runs)
      ensures old(zoneFree) == [] ==> zoneFree == []
      ensures old(zoneFree) == [] && r.Some? ==>
                && Added(pages.runs, old(pages.runs), r.value, zonePages)
                && LowestRun(old(pages.runs), r.value, zonePages)
    {
      hide Ledger, Territory, Enrolled, OneIdle, InRuns, Added, Unowned, Canonical, Claimed, ZoneUsage, NoRepeats;
      SizesSquare(zoneSize, zoneLimit, zonePages);
      if zoneFree != [] {
        var z := zoneFree[0];
        HeadSplit(zoneFree);
        assert Members(zoneFree) == Members(zoneFree[1..]) + {z};
        assert Known() == zones.Keys + Members(zoneFree[1..]) + {z};
        zoneFree, zoneFreeCnt := zoneFree[1..], zoneFreeCnt - 1;
        return Some(z);
      }
      r := pages.Alloc(zonePages);
      if r.Some? {
        TerritoryClaim(old(pages.runs), pages.runs, owner, npages, r.value, zonePages, ZonePage(r.value));
        WriteUsage(r.value);
        LedgerClaimZone(owner, old(usage), usage, Known(), big, zonePages, table, r.value);
        owner := Claimed(owner, r.value, zonePages, ZonePage(r.value));
      }
    }

    /** Mark the pages of zone `z` as small, each with its offset in the zone. */
    method WriteUsage(z: nat)
      requires z + zonePages <= |usage|
      modifies this`usage
      ensures ZoneUsage(old(usage), usage, z, zonePages)
    {
      for off := 0 to zonePages
        invariant ZoneUsage(old(usage), usage, z, off)
      {
        usage := usage[z + off := Usage(Small, off)];
      }
    }

    /** Start using zone `z` for size class `c`, and hand out its first chunk. */
    method OpenZone(z: nat, c: SizeClass) returns (p: nat)
      requires Served() && z !in Known() && Paged(Known() + {z})
      requires c.index < NZONES && c.chunk == ChunkSize(c.index) && 0 < c.chunk <= zoneSize / 4
      modifies this`zones, this`zoneArray, this`small
      ensures Valid()
      ensures p !in old(small) && p in small && small == old(small)[p := z]
      ensures z in zones && zones[z].index == c.index && InUse(zones[z], p) && zones.Keys == old(zones.Keys) + {z}
      ensures zoneArray == old(zoneArray)[c.index := [z] + old(zoneArray[c.index])]
      ensures SameChunks(old(small), old(zones), zones)
    {
      hide Ledger, Territory, Enrolled, OneIdle, InRuns, Canonical, InUse, SameChunks, ChunkSize, ChunkOffset,
          NoRepeats;
      SizesSquare(zoneSize, zoneLimit, zonePages);
      NewZoneOk(z * PAGE, c, zoneSize);
      var zone := NewZone(z * PAGE, c, zoneSize);
      OpenBooks(zones, zoneArray, small, owner, usage, Known() + {z}, big, zonePages, table, z, zone, zone.base);
      p := zone.base;
      assert zones[z := zone].Keys + Members(zoneFree) == Known() + {z};
      zoneArray := zoneArray[c.index := [z] + zoneArray[c.index]];
      zones, small := zones[z := zone], small[p := z];
    }

    /** rt_malloc for requests below `zone_limit`. */
    method MallocSmall(size: nat) returns (r: Option<nat>)
      requires Valid() && 0 < size < zoneLimit
      modifies this, pages
      ensures Valid() && big == old(big)
      ensures r.None? <==> old(Refused(size))
      ensures r.None? ==> small == old(small) && pages.runs == old(pages.runs)
      ensures r.Some? ==>
                && NewChunk(old(small), small, zones, r.value, ZoneIndex(size).chunk)
                && Source(old(ListFor(size)), old(zoneFree), old(Known()), small[r.value])
      ensures SameChunks(old(small), old(zones), zones)
    {
      hide Ledger, Territory, Enrolled, OneIdle, InRuns, Canonical, Cached, InUse, ZoneIndex, ChunkSize, SameChunks,
          Paged;
      OneChunkSizePerIndex(size);
      ChunkHolds(size);
      var c := ZoneIndex(size);
      ghost var zones0 := zones;
      SameChunksRefl(zones, small, zoneSize, zoneArray);
      if zoneArray[c.index] != [] {
        var p := TakeFrom(c.index);
        ChunkOfClass(zones, small, zoneArray, zoneSize, p);
        return Some(p);
      }
      var z := FindZone();
      if z.None? {
        return None;
      }
      var p := OpenZone(z.value, c);
      ChunkOfClass(zones, small, zoneArray, zoneSize, p);
      return Some(p);
    }

    /** The zones in service with a free chunk of the class that serves a small request. */
    ghost function ListFor(size: nat): seq<nat>
      requires |zoneArray| == NZONES && zoneLimit <= ZONE_LIMIT
      reads this
    {
      if 0 < size < zoneLimit then
        OneChunkSizePerIndex(size);
        zoneArray[ZoneIndex(size).index]
      else []
    }

    /** When rt_malloc fails: nothing asked for, or no run of pages long enough where one is needed. */
    ghost predicate Refused(size: nat)
      requires size < SIZE_LIMIT && |zoneArray| == NZONES && zoneLimit <= ZONE_LIMIT
      reads this, pages
    {
      if size == 0 then true
      else if size >= zoneLimit then NoRun(pages.runs, size)
      else ListFor(size) == [] && zoneFree == [] && forall i | 0 <= i < |pages.runs| :: pages.runs[i].len < zonePages
    }

    /**
     rt_malloc.  It hands out one block that was not live, a chunk of the smallest
     class that fits or whole pages, and fails only for want of a run of pages.
     */
    method Malloc(size: nat) returns (r: Option<nat>)
      requires Valid() && size < SIZE_LIMIT
      modifies this, pages
      ensures Valid()
      ensures r.None? <==> old(Refused(size))
      ensures r.None? ==> small == old(small) && big == old(big) && pages.runs == old(pages.runs)
      ensures r.Some? && size < zoneLimit ==>
                && big == old(big) && NewChunk(old(small), small, zones, r.value, ZoneIndex(size).chunk)
                && Source(old(ListFor(size)), old(zoneFree), old(Known()), small[r.value])
      ensures r.Some? && size >= zoneLimit ==>
                && small == old(small) && NewPages(old(big), big, r.value, size)
                && LowestRun(old(pages.runs), r.value / PAGE, big[r.value / PAGE])
                && Added(pages.runs, old(pages.runs), r.value / PAGE, big[r.value / PAGE])
      ensures SameChunks(old(small), old(zones), zones)
    {
      hide Ledger, Territory, InRuns, Canonical, Cached, Paged, InUse, ZoneIndex, Enrolled, OneIdle, NewChunk,
          SameChunks, NewPages, NoRun;
      SameChunksRefl(zones, small, zoneSize, zoneArray);
      if size == 0 {
        return None;
      }
      if size >= zoneLimit {
        r := MallocLarge(size);
        return;
      }
      r := MallocSmall(size);
    }

    /** rt_free of a large block. */
    method FreeLarge(p: nat)
      requires Valid() && p % PAGE == 0 && p / PAGE in big
      modifies this`usage, this`owner, this`big, pages
      ensures Valid()
      ensures big == old(big) - {p / PAGE}
    {
      hide Ledger, Territory, Enrolled, OneIdle, InRuns, Added, Canonical, Released, Members, Sizes, Taken;
      var b: nat := p / PAGE;
      UsageOfBlock(owner, usage, Known(), big, zonePages, table, b);
      var size := usage[b].size;
      LedgerReleaseBlock(owner, usage, Known(), big, zonePages, table, b);
      OwnedTaken(pages.runs, owner, npages, b, size);
      usage := usage[b := Usage(Large, 0)];
      pages.Free(b, size);
      TerritoryRelease(old(pages.runs), pages.runs, owner, npages, b, size);
      owner, big := Released(owner, b, size), big - {b};
    }

    /** rt_free of a small block: back to its zone, which may then leave service. */
    method FreeSmall(p: nat)
      requires Valid() && p in small
      modifies this, pages
      ensures Valid()
      ensures small == old(small) - {p} && big == old(big)
      ensures Retired(old(zones), old(small), old(zoneFree), zones, zoneFree, p)
      ensures Relisted(old(zones), old(small), old(zoneArray), zoneArray, p)
      ensures SameChunks(small, old(zones), zones)
    {
      hide Ledger, Territory, Enrolled, OneIdle, InRuns, Canonical, Members, Sizes, InUse, PutChunk, SameChunks, ZoneOk,
          LastOfMany, Dropped;
      SizesSquare(zoneSize, zoneLimit, zonePages);
      FindZoneOf(zones, zoneArray, small, owner, usage, Known(), big, zonePages, table, p);
      var z := p / PAGE - usage[p / PAGE].size;
      var zi := zones[z].index;
      var zone' := PutChunk(zones[z], p);
      ghost var arr' := if zones[z].nfree == 0 then zoneArray[zi := [z] + zoneArray[zi]] else zoneArray;
      PutBooks(zones, zoneArray, arr', small, zoneSize, z, p);
      LeavesExact(zones, zoneArray, arr', small, zoneSize, z, p);
      if zones[z].nfree == 0 {
        zoneArray := zoneArray[zi := [z] + zoneArray[zi]];
      }
      assert zones[z := zone'].Keys == zones.Keys;
      zones, small := zones[z := zone'], small - {p};
      if zone'.nfree == zone'.nmax && zoneArray[zi] != [z] {
        ghost var zones1 := zones;
        Retire(z);
        RetiredSame(small, old(zones), zones1, zones, zoneArray, zoneSize, z);
      }
    }

    /** Take zone `z`, which has no live chunk, out of service: cache it, or give its pages back. */
    method Retire(z: nat)
      requires Sizes(zoneSize, zoneLimit, zonePages) && 0 < table <= npages && Cached() && |zoneArray| == NZONES
      requires Enrolled(zones, zoneArray, small, zoneSize) && Paged(Known())
      requires z in zones && zones[z].nfree == zones[z].nmax && zones[z].index < NZONES
               && z in zoneArray[zones[z].index]
      requires OneIdle(zones - {z})
      modifies this`zones, this`zoneArray, this`zoneFree, this`zoneFreeCnt, this`usage, this`owner, pages
      ensures Valid()
      ensures zones == old(zones) - {z}
      ensures zoneFree == (if old(zoneFreeCnt) < ZONE_RELEASE_THRESH then [z] else []) + old(zoneFree)
      ensures if old(zoneFreeCnt) < ZONE_RELEASE_THRESH then usage == old(usage)
              else Cleared(old(usage), usage, z, zonePages)
      ensures zoneArray == old(zoneArray)[old(zones)[z].index := zoneArray[old(zones)[z].index]]
      ensures Dropped(old(zoneArray)[old(zones)[z].index], zoneArray[old(zones)[z].index], z)
    {
      hide Ledger, Territory, Enrolled, OneIdle, InRuns, Canonical, Sizes, InUse;
      SizesSquare(zoneSize, zoneLimit, zonePages);
      var zi := zones[z].index;
      var j := 0;
      while zoneArray[zi][j] != z
        invariant j < |zoneArray[zi]| && forall k | 0 <= k < j :: zoneArray[zi][k] != z
        decreases |zoneArray[zi]| - j
      {
        j := j + 1;
      }
      RosterRetire(zones, zoneArray, small, zoneSize, z, j);
      zoneArray := zoneArray[zi := zoneArray[zi][..j] + zoneArray[zi][j + 1..]];
      RecacheKnown(zones, zoneFree, z);
      zones := zones - {z};
      PushHead(zoneFree, z);
      zoneFree, zoneFreeCnt := [z] + zoneFree, zoneFreeCnt + 1;
      if zoneFreeCnt > ZONE_RELEASE_THRESH {
        ReleaseZone();
      }
    }

    /** Give the pages of the zone cached last back to the page allocator. */
    method ReleaseZone()
      requires Paged(Known()) && zoneFree != [] && NoRepeats(zoneFree) && zones.Keys !! Members(zoneFree)
      requires zoneFreeCnt == |zoneFree| && zonePages > 0
      modifies this`zoneFree, this`zoneFreeCnt, this`usage, this`owner, pages
      ensures Paged(Known()) && zoneFree == old(zoneFree)[1..] && zoneFreeCnt == old(zoneFreeCnt) - 1
      ensures NoRepeats(zoneFree) && zones.Keys !! Members(zoneFree)
      ensures Cleared(old(usage), usage, old(zoneFree)[0], zonePages)
    {
      hide Ledger, Territory, InRuns, Added, Canonical, Released, Taken, NoRepeats;
      var z := zoneFree[0];
      HeadSplit(zoneFree);
      assert Known() - {z} == zones.Keys + Members(zoneFree[1..]);
      ZonePagesOwned(owner, usage, Known(), big, zonePages, table, z);
      OwnedTaken(pages.runs, owner, npages, z, zonePages);
      zoneFree, zoneFreeCnt := zoneFree[1..], zoneFreeCnt - 1;
      ClearUsage(z);
      LedgerReleaseZone(owner, old(usage), usage, old(Known()), big, zonePages, table, z);
      pages.Free(z, zonePages);
      TerritoryRelease(old(pages.runs), pages.runs, owner, npages, z, zonePages);
      owner := Released(owner, z, zonePages);
    }

    method ClearUsage(z: nat)
      requires z + zonePages <= |usage|
      modifies this`usage
      ensures Cleared(old(usage), usage, z, zonePages)
    {
      for i := 0 to zonePages
        invariant Cleared(old(usage), usage, z, i)
      {
        usage := usage[z + i := Usage(PageType.Free, 0)];
      }
    }

    /** rt_free of a live block takes exactly that block out of the live ones. */
    method Free(p: nat)
      requires Valid() && Live(p)
      modifies this, pages
      ensures Valid()
      ensures p in old(small) ==> small == old(small) - {p} && big == old(big)
      ensures p in old(small) ==>
                && Retired(old(zones), old(small), old(zoneFree), zones, zoneFree, p)
                && Relisted(old(zones), old(small), old(zoneArray), zoneArray, p)
      ensures p !in old(small) ==>
                && small == old(small) && big == old(big) - {p / PAGE} && zones == old(zones)
                && zoneFree == old(zoneFree) && zoneArray == old(zoneArray)
      ensures forall q :: Live(q) <==> old(Live(q)) && q != p
      ensures SameChunks(small, old(zones), zones)
    {
      hide Ledger, Territory, Enrolled, OneIdle, InRuns, Canonical, Members, Sizes, InUse, SameChunks, Cached,
          Retired, Relisted;
      LiveKind(zones, zoneArray, small, owner, usage, Known(), big, zoneSize, zoneLimit, zonePages, table, p);
      SameChunksRefl(zones, small, zoneSize, zoneArray);
      if usage[p / PAGE].kind == Large {
        FreeLarge(p);
        return;
      }
      FreeSmall(p);
    }
  }

  /** memusage tells the two kinds of live block apart. */
  lemma LiveKind(zones: map<nat, Zone>, arr: seq<seq<nat>>, small: map<nat, nat>, owner: map<nat, Owner>,
                 usage: seq<Usage>, known: set<nat>,
                 big: map<nat, nat>, zoneSize: nat, zoneLimit: nat, cnt: nat, table: nat, p: nat)
    requires Enrolled(zones, arr, small, zoneSize) && Ledger(owner, usage, known, big, cnt, table)
    requires Sizes(zoneSize, zoneLimit, cnt) && zones.Keys <= known
    requires p in small || (p % PAGE == 0 && p / PAGE in big)
    ensures p / PAGE < |usage|
    ensures usage[p / PAGE].kind == Large <==> p !in small
    ensures p in small ==> p / PAGE !in big
  {
    if p in small {
      UsageOfChunk(zones, small, owner, usage, known, big, cnt, table, p);
    } else {
      UsageOfBlock(owner, usage, known, big, cnt, table, p / PAGE);
    }
  }

  lemma FindZoneOf(zones: map<nat, Zone>, arr: seq<seq<nat>>, small: map<nat, nat>, owner: map<nat, Owner>,
                   usage: seq<Usage>, known: set<nat>,
                   big: map<nat, nat>, cnt: nat, table: nat, p: nat)
    requires Enrolled(zones, arr, small, cnt * PAGE) && Ledger(owner, usage, known, big, cnt, table)
    requires zones.Keys <= known && p in small
    ensures p / PAGE < |usage| && p / PAGE - usage[p / PAGE].size == small[p]
    ensures small[p] in zones && zones[small[p]].index < NZONES
  {
    hide Ledger, InUse;
    UsageOfChunk(zones, small, owner, usage, known, big, cnt, table, p);
    ZoneIndexOk(zones[small[p]], small[p] * PAGE, cnt * PAGE);
  }

  lemma OwnedTaken(runs: seq<Run>, owner: map<nat, Owner>, npages: nat, p: nat, n: nat)
    requires Territory(runs, owner, npages) && forall x | p <= x < p + n :: x in owner
    ensures Taken(runs, p, n)
  {
  }

  lemma ZonePagesOwned(owner: map<nat, Owner>, usage: seq<Usage>, known: set<nat>, big: map<nat, nat>, cnt: nat,
                       table: nat, z: nat)
    requires Ledger(owner, usage, known, big, cnt, table) && z in known
    ensures z + cnt <= |usage| && forall x | z <= x < z + cnt :: x in owner
  {
    assert ZoneHeld(owner, usage, z, cnt);
  }

  lemma RecacheKnown(zones: map<nat, Zone>, cache: seq<nat>, z: nat)
    requires z in zones && zones.Keys !! Members(cache)
    ensures (zones - {z}).Keys + Members([z] + cache) == zones.Keys + Members(cache)
    ensures (zones - {z}).Keys !! Members([z] + cache) && z !in cache
  {
    assert z in Members([z] + cache) by { assert ([z] + cache)[0] == z; }
    assert forall x :: x in Members([z] + cache) <==> x == z || x in Members(cache);
    assert z !in Members(cache);
  }

  /** What returning chunk `p` of zone `z` does to the books; `z` is the only zone that may have become idle. */
  lemma PutBooks(zones: map<nat, Zone>, arr: seq<seq<nat>>, arr': seq<seq<nat>>, small: map<nat, nat>, zoneSize: nat,
                 z: nat, p: nat)
    requires Enrolled(zones, arr, small, zoneSize) && OneIdle(zones) && |arr| == NZONES
    requires p in small && small[p] == z && z in zones && zones[z].index < NZONES
    requires arr' == if zones[z].nfree == 0 then arr[zones[z].index := [z] + arr[zones[z].index]] else arr
    ensures var zone' := PutChunk(zones[z], p);
            && Enrolled(zones[z := zone'], arr', small - {p}, zoneSize)
            && zone'.index == zones[z].index && z in arr'[zone'.index]
            && OneIdle(zones[z := zone'] - {z})
            && (zone'.nfree != zone'.nmax || arr'[zone'.index] == [z] ==> OneIdle(zones[z := zone']))
            && SameChunks(small - {p}, zones, zones[z := zone'])
  {
    hide InUse;
    RosterPut(zones, arr, arr', small, zoneSize, p);
    var zone' := PutChunk(zones[z], p);
    var zones', zi := zones[z := zone'], zone'.index;
    PutChunkOk(zones[z], z * PAGE, zoneSize, p);
    assert ListOk(arr'[zi], zones', zi);
    assert zone'.nfree > 0 by { NfreeNotNegative(zones[z], z * PAGE, zoneSize); }
    if arr'[zi] == [z] {
      forall y | y in zones' && zones'[y].index == zi && zones'[y].nfree == zones'[y].nmax ensures y == z {
        assert ZoneOk(zones'[y], y * PAGE, zoneSize);
        assert y in arr'[zi];
      }
    }
  }

  /** Chunk `p` is the last live one of its zone, and its class has another zone with a free chunk. */
  ghost predicate LastOfMany(zones: map<nat, Zone>, small: map<nat, nat>, p: nat) {
    && p in small && small[p] in zones
    && (forall q | q in small && small[q] == small[p] :: q == p)
    && (exists y :: y in zones && y != small[p] && zones[y].index == zones[small[p]].index && zones[y].nfree > 0)
  }

  /** When chunk `p` is freed, its zone leaves service exactly then; it is cached if fewer than two zones are. */
  ghost predicate Retired(zones: map<nat, Zone>, small: map<nat, nat>, cache: seq<nat>, zones': map<nat, Zone>,
                          cache': seq<nat>, p: nat) {
    && p in small && small[p] in zones
    && zones'.Keys == (if LastOfMany(zones, small, p) then zones.Keys - {small[p]} else zones.Keys)
    && cache' == (if LastOfMany(zones, small, p) && |cache| < ZONE_RELEASE_THRESH then [small[p]] else []) + cache
  }

  /** A zone that had no free chunk goes to the front of the list of its class; one that leaves service leaves it. */
  ghost predicate Relisted(zones: map<nat, Zone>, small: map<nat, nat>, arr: seq<seq<nat>>, arr': seq<seq<nat>>,
                           p: nat) {
    && p in small && small[p] in zones
    && var z, zi := small[p], zones[small[p]].index;
       && zi < |arr| == |arr'| && (forall i | 0 <= i < |arr| && i != zi :: arr'[i] == arr[i])
       && var list := if zones[z].nfree == 0 then [z] + arr[zi] else arr[zi];
          if LastOfMany(zones, small, p) then Dropped(list, arr'[zi], z) else arr'[zi] == list
  }

  lemma LeavesExact(zones: map<nat, Zone>, arr: seq<seq<nat>>, arr': seq<seq<nat>>, small: map<nat, nat>, zoneSize: nat,
                    z: nat, p: nat)
    requires Enrolled(zones, arr, small, zoneSize) && |arr| == NZONES
    requires p in small && small[p] == z && z in zones && zones[z].index < NZONES
    requires var zone' := PutChunk(zones[z], p);
             Enrolled(zones[z := zone'], arr', small - {p}, zoneSize) && zone'.index == zones[z].index
             && z in arr'[zone'.index]
    ensures var zone' := PutChunk(zones[z], p);
            zone'.nfree == zone'.nmax && arr'[zone'.index] != [z] <==> LastOfMany(zones, small, p)
  {
    hide InUse, PutChunk, ZoneOk, ChunksLive;
    var zone' := PutChunk(zones[z], p);
    LastOfZone(zones[z := zone'], small, zoneSize, z, p);
    OthersListed(zones, zones[z := zone'], arr'[zone'.index], z);
  }

  lemma LastOfZone(zones': map<nat, Zone>, small: map<nat, nat>, zoneSize: nat, z: nat, p: nat)
    requires ZonesOk(zones', zoneSize) && ChunksLive(zones', small - {p}) && z in zones'
    ensures zones'[z].nfree == zones'[z].nmax <==> forall q | q in small && small[q] == z :: q == p
  {
    hide InUse;
    assert ZoneOk(zones'[z], z * PAGE, zoneSize);
    IdleIffUnused(zones'[z]);
    forall q ensures InUse(zones'[z], q) <==> q in small && small[q] == z && q != p {
      assert q in small - {p} <==> q in small && q != p;
    }
  }

  lemma OthersListed(zones: map<nat, Zone>, zones': map<nat, Zone>, list: seq<nat>, z: nat)
    requires z in zones && z in zones' && zones' == zones[z := zones'[z]] && zones'[z].index == zones[z].index
    requires ListOk(list, zones', zones[z].index) && z in list
    ensures list != [z] <==> exists y :: y in zones && y != z && zones[y].index == zones[z].index && zones[y].nfree > 0
  {
    if list != [z] {
      OtherMember(list, z);
    }
    forall y | y in zones && y != z && zones[y].index == zones[z].index && zones[y].nfree > 0 ensures y in list {
      assert zones'[y] == zones[y];
    }
  }

  lemma OtherMember(list: seq<nat>, z: nat)
    requires NoRepeats(list) && z in list && list != [z]
    ensures exists y :: y in list && y != z
  {
    assert list[0] in list;
    if |list| > 1 {
      assert list[1] in list;
    }
  }

  lemma RetiredSame(small: map<nat, nat>, zones0: map<nat, Zone>, zones1: map<nat, Zone>, zones2: map<nat, Zone>,
                    arr: seq<seq<nat>>, zoneSize: nat, z: nat)
    requires SameChunks(small, zones0, zones1) && zones2 == zones1 - {z}
    requires Enrolled(zones2, arr, small, zoneSize)
    ensures SameChunks(small, zones0, zones2)
  {
  }

  /** At `p` begins a new live block of whole pages that hold `size` bytes, none of them spare. */
  ghost predicate NewPages(big: map<nat, nat>, big': map<nat, nat>, p: nat, size: nat) {
    && p % PAGE == 0 && p / PAGE !in big && p / PAGE in big' && big' == big[p / PAGE := big'[p / PAGE]]
    && size <= big'[p / PAGE] * PAGE < size + PAGE
  }

  /** `p` is a new live chunk of `chunk` bytes. */
  ghost predicate NewChunk(small: map<nat, nat>, small': map<nat, nat>, zones': map<nat, Zone>, p: nat, chunk: nat) {
    && p !in small && p in small' && small' == small[p := small'[p]]
    && small'[p] in zones' && zones'[small'[p]].chunk == chunk
  }

  lemma SameChunksRefl(zones: map<nat, Zone>, small: map<nat, nat>, zoneSize: nat, arr: seq<seq<nat>>)
    requires Enrolled(zones, arr, small, zoneSize)
    ensures SameChunks(small, zones, zones)
  {
  }

  lemma ChunkOfClass(zones: map<nat, Zone>, small: map<nat, nat>, arr: seq<seq<nat>>, zoneSize: nat, p: nat)
    requires Enrolled(zones, arr, small, zoneSize) && p in small
    ensures small[p] in zones && zones[small[p]].chunk == ChunkSize(zones[small[p]].index)
  {
  }

  lemma OpenBooks(zones: map<nat, Zone>, arr: seq<seq<nat>>, small: map<nat, nat>, owner: map<nat, Owner>,
                  usage: seq<Usage>,
                  known: set<nat>, big: map<nat, nat>, cnt: nat, table: nat, z: nat, zone: Zone, p: nat)
    requires Enrolled(zones, arr, small, cnt * PAGE) && Ledger(owner, usage, known, big, cnt, table)
    requires zones.Keys <= known && z in known && z !in zones && |arr| == NZONES && zone.index < NZONES
    requires ZoneOk(zone, z * PAGE, cnt * PAGE) && 0 < zone.nfree < zone.nmax
    requires forall q :: InUse(zone, q) <==> q == p
    ensures p !in small
    ensures Enrolled(zones[z := zone], arr[zone.index := [z] + arr[zone.index]], small[p := z], cnt * PAGE)
    ensures OneIdle(zones) ==> OneIdle(zones[z := zone])
    ensures SameChunks(small, zones, zones[z := zone])
  {
    hide Ledger, ZoneOk;
    assert InUse(zone, p);
    ChunkPage(zone, z, cnt, p);
    NotLive(zones, small, owner, usage, known, big, cnt, table, z, p);
    RosterNew(zones, arr, small, cnt * PAGE, z, zone, p);
  }

  lemma SizesSquare(zoneSize: nat, zoneLimit: nat, zonePages: nat)
    requires Sizes(zoneSize, zoneLimit, zonePages)
    ensures zoneSize == zonePages * PAGE && zonePages > 0
  {
  }

  lemma TakeReady(zones: map<nat, Zone>, arr: seq<seq<nat>>, small: map<nat, nat>, zi: nat, zoneSize: nat)
    requires Enrolled(zones, arr, small, zoneSize) && zi < NZONES && |arr| == NZONES && arr[zi] != []
    ensures var z: nat := arr[zi][0];
            z in zones && ZoneOk(zones[z], z * PAGE, zoneSize) && Counted(zones[z]) && zones[z].nfree > 0
                && zones[z].index == zi
  {
    assert ListOk(arr[zi], zones, zi);
    assert arr[zi][0] in arr[zi];
  }

  /** What handing out the next chunk of the first zone of class `zi` does to the books. */
  lemma TakeBooks(zones: map<nat, Zone>, arr: seq<seq<nat>>, arr': seq<seq<nat>>, small: map<nat, nat>,
                  owner: map<nat, Owner>, usage: seq<Usage>,
                  known: set<nat>, big: map<nat, nat>, cnt: nat, table: nat, zi: nat, z: nat, zone': Zone, p: nat)
    requires Enrolled(zones, arr, small, cnt * PAGE) && Ledger(owner, usage, known, big, cnt, table)
             && zones.Keys <= known
    requires zi < NZONES && |arr| == NZONES && arr[zi] != [] && z == arr[zi][0]
    requires z in zones && ZoneOk(zones[z], z * PAGE, cnt * PAGE) && Counted(zones[z]) && zones[z].nfree > 0
             && (zone', p) == TakeChunk(zones[z])
    requires arr' == if zone'.nfree == 0 then arr[zi := arr[zi][1..]] else arr
    ensures p !in small
    ensures Enrolled(zones[z := zone'], arr', small[p := z], cnt * PAGE)
    ensures OneIdle(zones) ==> OneIdle(zones[z := zone'])
    ensures InUse(zone', p) && zone'.index == zones[z].index && zone'.chunk == zones[z].chunk
    ensures SameChunks(small, zones, zones[z := zone'])
  {
    hide Ledger, ZoneOk, TakeChunk;
    TakeChunkOk(zones[z], z * PAGE, cnt * PAGE);
    ChunkPage(zone', z, cnt, p);
    NotLive(zones, small, owner, usage, known, big, cnt, table, z, p);
    RosterTake(zones, arr, arr', small, cnt * PAGE, zi, zone', p);
  }

  /** The zone size grows with the heap, up to 128 KB. */
  method ZoneSizeFor(limsize: nat) returns (size: nat)
    ensures size == MIN_ZONE || size == 2 * MIN_ZONE || size == MAX_ZONE
    ensures size > MIN_ZONE ==> size < limsize / 1024
    ensures size < MAX_ZONE ==> size * 2 >= limsize / 1024
  {
    size := MIN_ZONE;
    while size < MAX_ZONE && size * 2 < limsize / 1024
      invariant size == MIN_ZONE || size == 2 * MIN_ZONE || size == MAX_ZONE
      invariant size > MIN_ZONE ==> size < limsize / 1024
    {
      size := size * 2;
    }
  }

  lemma InitialPages(all: seq<Run>, runs: seq<Run>, npages: nat, taken: nat, r: Option<nat>)
    requires all == [Run(0, npages)] && 0 < taken <= npages && Canonical(runs)
    requires forall p: int :: InRuns(all, p) <==> 0 <= p < npages
    requires r.None? <==> taken == 0 || forall i | 0 <= i < |all| :: all[i].len < taken
    requires r.Some? ==> Added(runs, all, r.value, taken)
    requires r.Some? ==> exists i | 0 <= i < |all| :: all[i].start == r.value
    ensures r == Some(0)
    ensures Territory(runs, Claimed(map[], 0, taken, Table), npages)
    ensures runs == if npages == taken then [] else [Run(taken, npages - taken)]
  {
    assert all[0].len >= taken;
    TerritoryClaim(all, runs, map[], npages, 0, taken, Table);
    FirstRun(runs, npages, taken);
  }

  lemma InitialBooks(usage: seq<Usage>, cnt: nat, table: nat)
    ensures Ledger(Claimed(map[], 0, table, Table), usage, {}, map[], cnt, table)
  {
  }

  lemma InitialRoster(arr: seq<seq<nat>>, zoneSize: nat)
    requires |arr| == NZONES && forall i | 0 <= i < NZONES :: arr[i] == []
    ensures Enrolled(map[], arr, map[], zoneSize) && OneIdle(map[])
  {
    forall i: nat | i < NZONES ensures ListOk(arr[i], map[], i) {
    }
  }

  lemma FirstRun(runs: seq<Run>, npages: nat, taken: nat)
    requires Canonical(runs) && 0 < taken <= npages
    requires forall p: int :: InRuns(runs, p) <==> taken <= p < npages
    ensures runs == if npages == taken then [] else [Run(taken, npages - taken)]
  {
    if npages == taken {
      NoPages(runs);
    } else {
      var one := [Run(taken, npages - taken)];
      PagesOne(one[0]);
      SamePages(runs, one);
    }
  }
}
