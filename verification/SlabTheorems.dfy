/** What the slab heap's invariant means for its callers. */
module SlabTheorems {
  import opened Machine
  import opened PageList
  import opened SlabZones
  import opened SlabBooks
  import opened Slab

  /** The bytes of a live small block. */
  ghost predicate SmallBytes(zones: map<nat, Zone>, small: map<nat, nat>, p: nat, a: nat) {
    p in small && small[p] in zones && p <= a < p + zones[small[p]].chunk
  }

  /** The bytes of a live large block. */
  ghost predicate BigBytes(big: map<nat, nat>, b: nat, a: nat) {
    b in big && b * PAGE <= a < (b + big[b]) * PAGE
  }

  /** Live small blocks do not overlap. */
  lemma SmallApart(zones: map<nat, Zone>, arr: seq<seq<nat>>, small: map<nat, nat>, owner: map<nat, Owner>,
                   usage: seq<Usage>, known: set<nat>,
                   big: map<nat, nat>, cnt: nat, table: nat, p: nat, q: nat, a: nat)
    requires Enrolled(zones, arr, small, cnt * PAGE) && Ledger(owner, usage, known, big, cnt, table)
             && zones.Keys <= known && cnt > 0
    requires SmallBytes(zones, small, p, a) && SmallBytes(zones, small, q, a)
    ensures p == q
  {
    hide ZoneOk, Ledger;
    var y: nat, z: nat := small[p], small[q];
    ChunkPage(zones[y], y, cnt, p);
    ChunkPage(zones[z], z, cnt, q);
    if y < z {
      ZonesApart(owner, usage, known, big, cnt, table, y, z);
    } else if z < y {
      ZonesApart(owner, usage, known, big, cnt, table, z, y);
    } else if p < q {
      ChunksApart(zones[y], p, q);
    } else if q < p {
      ChunksApart(zones[y], q, p);
    }
  }

  /** Every byte of a live small block is on a page of its zone, past the zone header; large blocks own their pages. */
  lemma BytesOwned(zones: map<nat, Zone>, arr: seq<seq<nat>>, small: map<nat, nat>, owner: map<nat, Owner>,
                   usage: seq<Usage>, known: set<nat>,
                   big: map<nat, nat>, cnt: nat, table: nat, a: nat)
    requires Enrolled(zones, arr, small, cnt * PAGE) && Ledger(owner, usage, known, big, cnt, table)
             && zones.Keys <= known
    ensures forall p | SmallBytes(zones, small, p, a) ::
              small[p] * PAGE + ZONE_HEADER <= a && a / PAGE in owner && owner[a / PAGE] == ZonePage(small[p])
    ensures forall b: nat | BigBytes(big, b, a) :: a / PAGE in owner && owner[a / PAGE] == BlockPage(b)
  {
    hide ZoneOk;
    forall p | SmallBytes(zones, small, p, a)
      ensures small[p] * PAGE + ZONE_HEADER <= a && a / PAGE in owner && owner[a / PAGE] == ZonePage(small[p])
    {
      var z: nat := small[p];
      ChunkPage(zones[z], z, cnt, p);
      assert ZoneHeld(owner, usage, z, cnt);
      assert z <= a / PAGE < z + cnt;
    }
    forall b: nat | BigBytes(big, b, a) ensures a / PAGE in owner && owner[a / PAGE] == BlockPage(b) {
      assert BlockHeld(owner, usage, b, big[b]);
      assert b <= a / PAGE < b + big[b];
    }
  }

  /** No byte belongs to two live blocks, to a live block and a zone header, or to a live block and a free page. */
  lemma LiveApart(heap: Heap, a: nat)
    requires heap.Valid()
    ensures forall p, q | SmallBytes(heap.zones, heap.small, p, a) && SmallBytes(heap.zones, heap.small, q, a) :: p == q
    ensures forall b, c | BigBytes(heap.big, b, a) && BigBytes(heap.big, c, a) :: b == c
    ensures forall p, b | SmallBytes(heap.zones, heap.small, p, a) :: !BigBytes(heap.big, b, a)
    ensures forall z, p | z in heap.Known() && z * PAGE <= a < z * PAGE + ZONE_HEADER ::
            !SmallBytes(heap.zones, heap.small, p, a)
    ensures InRuns(heap.pages.runs, a / PAGE) ==>
              forall p :: !SmallBytes(heap.zones, heap.small, p, a) && !BigBytes(heap.big, p, a)
  {
    hide Ledger, Enrolled, SmallBytes, BigBytes, OneIdle, Canonical, InRuns, ZoneOk;
    SizesSquare(heap.zoneSize, heap.zoneLimit, heap.zonePages);
    BytesOwned(heap.zones, heap.zoneArray, heap.small, heap.owner, heap.usage, heap.Known(), heap.big, heap.zonePages,
               heap.table, a);
    forall p, q | SmallBytes(heap.zones, heap.small, p, a) && SmallBytes(heap.zones, heap.small, q, a) ensures p == q {
      SmallApart(heap.zones, heap.zoneArray, heap.small, heap.owner, heap.usage, heap.Known(), heap.big, heap.zonePages,
                 heap.table, p, q, a);
    }
    forall z, p | z in heap.Known() && z * PAGE <= a < z * PAGE + ZONE_HEADER
        ensures !SmallBytes(heap.zones, heap.small, p, a) {
      HeaderPage(heap.owner, heap.usage, heap.Known(), heap.big, heap.zonePages, heap.table, z, a);
    }
  }

  lemma HeaderPage(owner: map<nat, Owner>, usage: seq<Usage>, known: set<nat>, big: map<nat, nat>, cnt: nat, table: nat,
                   z: nat, a: nat)
    requires Ledger(owner, usage, known, big, cnt, table) && z in known && cnt > 0
    requires z * PAGE <= a < z * PAGE + ZONE_HEADER
    ensures a / PAGE in owner && owner[a / PAGE] == ZonePage(z)
  {
    assert ZoneHeld(owner, usage, z, cnt);
    assert a / PAGE == z;
  }

  // ---------------------------------------------------------------- the bytes asked for

  datatype Call = Get(size: nat) | Put(p: nat)

  /** A call adds the block it was given, or takes one out. */
  function Asked(asked: map<nat, nat>, c: Call, r: Option<nat>): map<nat, nat> {
    if c.Put? then asked - {c.p} else if r.Some? then asked[r.value := c.size] else asked
  }

  /** The blocks that a run of calls has been given and has not freed, with the sizes it asked for. */
  ghost function Outstanding(calls: seq<Call>, answers: seq<Option<nat>>): map<nat, nat>
    requires |answers| == |calls|
  {
    if calls == [] then map[]
    else
      var n := |calls| - 1;
      var before := Outstanding(calls[..n], answers[..n]);
      Asked(before, calls[n], answers[n])
  }

  lemma OutstandingNext(calls: seq<Call>, answers: seq<Option<nat>>, c: Call, r: Option<nat>)
    requires |answers| == |calls|
    ensures Outstanding(calls + [c], answers + [r]) == Asked(Outstanding(calls, answers), c, r)
  {
    assert (calls + [c])[..|calls|] == calls && (answers + [r])[..|calls|] == answers;
  }

  /** The size of the live block at `p`: a chunk, or whole pages. */
  ghost function Room(zones: map<nat, Zone>, small: map<nat, nat>, big: map<nat, nat>, p: nat): int {
    if p in small && small[p] in zones then zones[small[p]].chunk
    else if p % PAGE == 0 && p / PAGE in big then big[p / PAGE] * PAGE
    else -1
  }

  /** The live blocks are those in `asked`, and each has room for what was asked for. */
  ghost predicate Roomy(zones: map<nat, Zone>, small: map<nat, nat>, big: map<nat, nat>, asked: map<nat, nat>) {
    && (forall p | p in asked :: asked[p] <= Room(zones, small, big, p))
    && (forall p | LiveAt(small, big, p) :: p in asked)
  }

  /** A call that a caller with the blocks `asked` may make. */
  predicate CallOk(asked: map<nat, nat>, c: Call) {
    if c.Get? then c.size < SIZE_LIMIT else c.p in asked
  }

  /** No byte asked for belongs to two blocks; none lies in a zone header or on a free page. */
  lemma RequestsApart(heap: Heap, asked: map<nat, nat>, p: nat, a: nat)
    requires heap.Valid() && Roomy(heap.zones, heap.small, heap.big, asked)
    requires p in asked && p <= a < p + asked[p]
    ensures forall q | q in asked && q <= a < q + asked[q] :: q == p
    ensures forall z: nat | z in heap.Known() :: !(z * PAGE <= a < z * PAGE + ZONE_HEADER)
    ensures !InRuns(heap.pages.runs, a / PAGE)
  {
    hide InRuns, Roomy, SmallBytes, BigBytes;
    LiveApart(heap, a);
    ByteHeld(heap.zones, heap.small, heap.big, asked, p, a);
    forall q | q in asked && q <= a < q + asked[q] ensures q == p {
      ByteHeld(heap.zones, heap.small, heap.big, asked, q, a);
    }
    forall z: nat | z in heap.Known() ensures !(z * PAGE <= a < z * PAGE + ZONE_HEADER) {
      HeaderByte(heap, z, a);
    }
  }

  lemma ByteHeld(zones: map<nat, Zone>, small: map<nat, nat>, big: map<nat, nat>, asked: map<nat, nat>, p: nat, a: nat)
    requires Roomy(zones, small, big, asked) && p in asked && p <= a < p + asked[p]
    ensures SmallBytes(zones, small, p, a) || (p % PAGE == 0 && BigBytes(big, p / PAGE, a))
  {
    if p % PAGE == 0 && p / PAGE in big {
      assert (p / PAGE + big[p / PAGE]) * PAGE == p + big[p / PAGE] * PAGE;
    }
  }

  /** A byte of a zone header is on a page of that zone, so in no large block. */
  lemma HeaderByte(heap: Heap, z: nat, a: nat)
    requires heap.Valid() && z in heap.Known()
    ensures z * PAGE <= a < z * PAGE + ZONE_HEADER ==> forall b: nat :: !BigBytes(heap.big, b, a)
  {
    hide Ledger, Enrolled, SmallBytes, BigBytes, OneIdle, Canonical, InRuns, ZoneOk;
    SizesSquare(heap.zoneSize, heap.zoneLimit, heap.zonePages);
    BytesOwned(heap.zones, heap.zoneArray, heap.small, heap.owner, heap.usage, heap.Known(), heap.big, heap.zonePages,
               heap.table, a);
    if z * PAGE <= a < z * PAGE + ZONE_HEADER {
      HeaderPage(heap.owner, heap.usage, heap.Known(), heap.big, heap.zonePages, heap.table, z, a);
    }
  }

  lemma RoomySame(zones: map<nat, Zone>, zones': map<nat, Zone>, small: map<nat, nat>, big: map<nat, nat>,
                  asked: map<nat, nat>)
    requires Roomy(zones, small, big, asked) && SameChunks(small, zones, zones')
    ensures Roomy(zones', small, big, asked)
  {
    forall q | q in asked ensures asked[q] <= Room(zones', small, big, q) {
      assert asked[q] <= Room(zones, small, big, q);
    }
  }

  lemma RoomyChunk(zones: map<nat, Zone>, zones': map<nat, Zone>, small: map<nat, nat>, small': map<nat, nat>,
                   big: map<nat, nat>, asked: map<nat, nat>, p: nat, size: nat, chunk: nat)
    requires Roomy(zones, small, big, asked) && NewChunk(small, small', zones', p, chunk) && size <= chunk
    requires SameChunks(small, zones, zones')
    ensures Roomy(zones', small', big, asked[p := size])
    ensures p / PAGE !in big ==> p !in asked
  {
    forall q | q in asked && q != p ensures asked[q] <= Room(zones', small', big, q) {
      assert asked[q] <= Room(zones, small, big, q);
    }
    forall q | LiveAt(small', big, q) ensures q in asked[p := size] {
      assert q != p ==> LiveAt(small, big, q);
    }
  }

  lemma RoomyPages(zones: map<nat, Zone>, small: map<nat, nat>, big: map<nat, nat>, big': map<nat, nat>,
                   asked: map<nat, nat>, p: nat, size: nat)
    requires Roomy(zones, small, big, asked) && NewPages(big, big', p, size) && p !in small
    ensures Roomy(zones, small, big', asked[p := size])
    ensures p !in asked
  {
    var b := p / PAGE;
    assert p == b * PAGE;
    forall q | q in asked && q != p ensures asked[q] <= Room(zones, small, big', q) {
      assert asked[q] <= Room(zones, small, big, q);
    }
    forall q: nat | LiveAt(small, big', q) ensures q in asked[p := size] {
      assert q / PAGE != b ==> LiveAt(small, big, q);
    }
  }

  lemma RoomyPut(zones: map<nat, Zone>, zones': map<nat, Zone>, small: map<nat, nat>, small': map<nat, nat>,
                 big: map<nat, nat>, asked: map<nat, nat>, p: nat)
    requires Roomy(zones, small, big, asked) && SameChunks(small', zones, zones')
    requires small' == small - {p} && p / PAGE !in big
    ensures Roomy(zones', small', big, asked - {p})
  {
    forall q | LiveAt(small', big, q) ensures q in asked - {p} {
      assert LiveAt(small, big, q);
    }
    forall q | q in asked && q != p ensures asked[q] <= Room(zones', small', big, q) {
      assert asked[q] <= Room(zones, small, big, q);
    }
  }

  lemma RoomyPutPages(zones: map<nat, Zone>, zones': map<nat, Zone>, small: map<nat, nat>, big: map<nat, nat>,
                      asked: map<nat, nat>, p: nat)
    requires Roomy(zones, small, big, asked) && SameChunks(small, zones, zones')
    requires p !in small && p % PAGE == 0 && p / PAGE in big
    ensures Roomy(zones', small, big - {p / PAGE}, asked - {p})
  {
    var b, big' := p / PAGE, big - {p / PAGE};
    assert p == b * PAGE;
    forall q | q in asked && q != p ensures asked[q] <= Room(zones', small, big', q) {
      assert asked[q] <= Room(zones, small, big, q);
      assert q % PAGE == 0 ==> q == q / PAGE * PAGE;
    }
    forall q | LiveAt(small, big', q) ensures q in asked - {p} {
      assert LiveAt(small, big, q);
    }
  }

  lemma KindApart(heap: Heap, p: nat)
    requires heap.Valid()
    ensures p in heap.small ==> p / PAGE !in heap.big
    ensures heap.zoneLimit <= ZONE_LIMIT
  {
    hide Ledger, Enrolled, OneIdle, Canonical, InRuns, Territory;
    if p in heap.small {
      LiveKind(heap.zones, heap.zoneArray, heap.small, heap.owner, heap.usage, heap.Known(), heap.big, heap.zoneSize,
               heap.zoneLimit, heap.zonePages, heap.table, p);
    }
  }

  lemma AskedLive(zones: map<nat, Zone>, small: map<nat, nat>, big: map<nat, nat>, asked: map<nat, nat>, p: nat)
    requires Roomy(zones, small, big, asked) && p in asked
    ensures LiveAt(small, big, p)
  {
    assert asked[p] <= Room(zones, small, big, p);
  }

  /** One call. */
  method Take(heap: Heap, c: Call, ghost asked: map<nat, nat>) returns (r: Option<nat>)
    requires heap.Valid() && CallOk(asked, c) && Roomy(heap.zones, heap.small, heap.big, asked)
    modifies heap, heap.pages
    ensures heap.Valid() && Roomy(heap.zones, heap.small, heap.big, Asked(asked, c, r))
    ensures c.Get? && r.Some? ==> r.value !in asked
  {
    hide Ledger, Enrolled, OneIdle, Canonical, InRuns, Territory, Roomy, SameChunks, ZoneIndex, Sizes, Retired;
    r := None;
    ghost var zones, small, big := heap.zones, heap.small, heap.big;
    match c {
      case Get(size) =>
        r := heap.Malloc(size);
        if r.Some? {
          KindApart(heap, r.value);
          if size < heap.zoneLimit {
            ChunkHolds(size);
            RoomyChunk(zones, heap.zones, small, heap.small, big, asked, r.value, size, ZoneIndex(size).chunk);
          } else {
            RoomySame(zones, heap.zones, small, big, asked);
            RoomyPages(heap.zones, small, big, heap.big, asked, r.value, size);
          }
        } else {
          RoomySame(zones, heap.zones, small, big, asked);
        }
      case Put(p) =>
        KindApart(heap, p);
        AskedLive(zones, small, big, asked, p);
        heap.Free(p);
        if p in small {
          RoomyPut(zones, heap.zones, small, heap.small, big, asked, p);
        } else {
          RoomyPutPages(zones, heap.zones, small, big, asked, p);
        }
    }
  }

  /**
   Any run of calls, from a heap without live blocks, up to a release of something that is not live: the live blocks
   are those that were handed out and not freed since, each has room for what was asked for, and so, by
   RequestsApart, no byte asked for belongs to two of them.
   */
  method Run(heap: Heap, calls: seq<Call>) returns (answers: seq<Option<nat>>)
    requires heap.Valid() && heap.small == map[] && heap.big == map[]
    modifies heap, heap.pages
    ensures heap.Valid() && |answers| <= |calls|
    ensures |answers| < |calls| ==> !CallOk(Outstanding(calls[..|answers|], answers), calls[|answers|])
    ensures Roomy(heap.zones, heap.small, heap.big, Outstanding(calls[..|answers|], answers))
    ensures forall i | 0 <= i < |answers| && calls[i].Get? && answers[i].Some? ::
              answers[i].value !in Outstanding(calls[..i], answers[..i])
  {
    hide Ledger, Enrolled, OneIdle, Canonical, InRuns, Territory, Roomy, Outstanding, Asked, CallOk;
    answers := [];
    var asked: map<nat, nat> := map[];
    NothingAsked(heap.zones);
    var i := 0;
    while i < |calls| && CallOk(asked, calls[i])
      invariant heap.Valid() && i == |answers| <= |calls|
      invariant asked == Outstanding(calls[..i], answers) && Roomy(heap.zones, heap.small, heap.big, asked)
      invariant forall k | 0 <= k < i && calls[k].Get? && answers[k].Some? ::
                  answers[k].value !in Outstanding(calls[..k], answers[..k])
    {
      var r := Take(heap, calls[i], asked);
      OutstandingNext(calls[..i], answers, calls[i], r);
      assert calls[..i + 1] == calls[..i] + [calls[i]];
      asked := Asked(asked, calls[i], r);
      ghost var before := answers;
      answers := answers + [r];
      assert answers[..i] == before && forall k | 0 <= k < i :: answers[..k] == before[..k];
      i := i + 1;
    }
  }

  lemma NothingAsked(zones: map<nat, Zone>)
    ensures Roomy(zones, map[], map[], map[]) && Outstanding([], []) == map[]
  {
  }

  // ---------------------------------------------------------------- what stays behind

  lemma {:induction false} DistinctClasses(s: set<nat>, zones: map<nat, Zone>, limit: nat)
    requires forall z | z in s :: z in zones && zones[z].index < limit
    requires forall y, z | y in s && z in s && zones[y].index == zones[z].index :: y == z
    ensures |s| <= limit
    decreases limit
  {
    if limit == 0 {
      assert forall z :: z !in s;
    } else if z :| z in s && zones[z].index == limit - 1 {
      DistinctClasses(s - {z}, zones, limit - 1);
    } else {
      DistinctClasses(s, zones, limit - 1);
    }
  }

  /**
   With no live block left, the heap holds back at most one zone a class and the cached ones; the
   rest is free pages.
   */
  lemma LittleHeldBack(heap: Heap)
    requires heap.Valid() && heap.small == map[] && heap.big == map[]
    ensures |heap.Known()| <= NZONES + ZONE_RELEASE_THRESH
    ensures forall x: nat | heap.table <= x < heap.npages && !InRuns(heap.pages.runs, x) ::
              exists z :: z in heap.Known() && z <= x < z + heap.zonePages
  {
    hide Canonical, InRuns, Enrolled, OneIdle, Ledger;
    FewZones(heap.zones, heap.zoneArray, heap.zoneSize);
    MemberCount(heap.zoneFree);
    assert |heap.zones.Keys + Members(heap.zoneFree)| == |heap.zones.Keys| + |Members(heap.zoneFree)|;
    forall x: nat | heap.table <= x < heap.npages && !InRuns(heap.pages.runs, x)
      ensures exists z :: z in heap.Known() && z <= x < z + heap.zonePages
    {
      assert x in heap.owner;
      OwnedByZone(heap.owner, heap.usage, heap.Known(), heap.zonePages, heap.table, x);
    }
  }

  lemma FewZones(zones: map<nat, Zone>, arr: seq<seq<nat>>, zoneSize: nat)
    requires Enrolled(zones, arr, map[], zoneSize) && OneIdle(zones)
    ensures |zones.Keys| <= NZONES
  {
    forall z | z in zones ensures zones[z].nfree == zones[z].nmax && zones[z].index < NZONES {
      ZoneIndexOk(zones[z], z * PAGE, zoneSize);
      NoneInUse(zones, map[], z);
      IdleIffUnused(zones[z]);
    }
    DistinctClasses(zones.Keys, zones, NZONES);
  }

  lemma NoneInUse(zones: map<nat, Zone>, small: map<nat, nat>, z: nat)
    requires ChunksLive(zones, small) && small == map[] && z in zones
    ensures forall p :: !InUse(zones[z], p)
  {
    forall p ensures !InUse(zones[z], p) {
      assert InUse(zones[z], p) ==> p in small;
    }
  }

  lemma OwnedByZone(owner: map<nat, Owner>, usage: seq<Usage>, known: set<nat>, cnt: nat, table: nat, x: nat)
    requires Ledger(owner, usage, known, map[], cnt, table) && x in owner && x >= table
    ensures exists z :: z in known && z <= x < z + cnt
  {
    assert OwnerOk(owner[x], x, known, map[], cnt, table);
  }

  /** Freeing all live blocks, in any order, leaves only what LittleHeldBack allows. */
  method FreeAll(heap: Heap, ptrs: seq<nat>)
    requires heap.Valid()
    requires forall i, j | 0 <= i < j < |ptrs| :: ptrs[i] != ptrs[j]
    requires forall p :: p in ptrs <==> heap.Live(p)
    modifies heap, heap.pages
    ensures heap.Valid() && heap.small == map[] && heap.big == map[]
    ensures |heap.Known()| <= NZONES + ZONE_RELEASE_THRESH
  {
    hide Sizes, Ledger, Enrolled, Territory, Canonical, OneIdle;
    var i := 0;
    while i < |ptrs|
      invariant i <= |ptrs| && heap.Valid()
      invariant forall p :: p in ptrs[i..] <==> heap.Live(p)
    {
      var p := ptrs[i];
      assert ptrs[i..] == [p] + ptrs[i + 1..];
      assert p !in ptrs[i + 1..];
      heap.Free(p);
      i := i + 1;
    }
    assert forall b | b in heap.big :: heap.Live(b * PAGE);
    forall p ensures !heap.Live(p) {
      assert p !in ptrs[i..];
    }
    assert forall p | p in heap.small :: heap.Live(p);
    LittleHeldBack(heap);
  }
}
