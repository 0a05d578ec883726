/**
 The bookkeeping of slab.c as values: who owns each page (the ledger) and which
 zones serve each size class (the roster).
 */
module SlabBooks {
  import opened Sequences
  import opened PageList
  import opened SlabZones

  // ---------------------------------------------------------------- the ledger of pages

  datatype PageType = Free | Small | Large

  /** A memusage entry. */
  datatype Usage = Usage(kind: PageType, size: nat)

  datatype Owner = Table | ZonePage(z: nat) | BlockPage(b: nat)

  /** The pages without an owner are exactly the free ones. */
  ghost predicate Territory(runs: seq<Run>, owner: map<nat, Owner>, npages: nat) {
    && (forall x: int :: InRuns(runs, x) <==> 0 <= x < npages && x !in owner)
    && (forall x | x in owner :: x < npages)
  }

  ghost predicate ZoneHeld(owner: map<nat, Owner>, usage: seq<Usage>, z: nat, cnt: nat) {
    z + cnt <= |usage| && forall x | z <= x < z + cnt ::
        x in owner && owner[x] == ZonePage(z)
        && usage[x] == Usage(Small, x - z)
  }

  ghost predicate BlockHeld(owner: map<nat, Owner>, usage: seq<Usage>, b: nat, n: nat) {
    && n > 0 && b + n <= |usage| && usage[b] == Usage(Large, n)
    && forall x | b <= x < b + n :: x in owner && owner[x] == BlockPage(b)
  }

  /** No page is lost: its owner exists and extends over it. */
  ghost predicate OwnerOk(o: Owner, x: nat, known: set<nat>, big: map<nat, nat>, cnt: nat, table: nat) {
    match o
    case Table => x < table
    case ZonePage(z) => z in known && z <= x < z + cnt
    case BlockPage(b) => b in big && b <= x < b + big[b]
  }

  /** Zones and large blocks own their pages, and memusage says so. */
  ghost predicate Ledger(owner: map<nat, Owner>, usage: seq<Usage>, known: set<nat>, big: map<nat, nat>, cnt: nat,
                         table: nat) {
    && (forall z {:trigger ZoneHeld(owner, usage, z, cnt)} | z in known :: ZoneHeld(owner, usage, z, cnt))
    && (forall b {:trigger BlockHeld(owner, usage, b, big[b])} | b in big :: BlockHeld(owner, usage, b, big[b]))
    && (forall x {:trigger OwnerOk(owner[x], x, known, big, cnt, table)} | x in owner ::
        OwnerOk(owner[x], x, known, big, cnt, table))
  }

  ghost function Claimed(owner: map<nat, Owner>, p: nat, n: nat, o: Owner): (r: map<nat, Owner>)
    ensures forall x :: x in r <==> x in owner || p <= x < p + n
    ensures forall x | x in r :: r[x] == if p <= x < p + n then o else owner[x]
  {
    if n == 0 then owner else Claimed(owner, p, n - 1, o)[p + n - 1 := o]
  }

  ghost function Released(owner: map<nat, Owner>, p: nat, n: nat): (r: map<nat, Owner>)
    ensures forall x :: x in r <==> x in owner && !(p <= x < p + n)
    ensures forall x | x in r :: r[x] == owner[x]
  {
    map x | x in owner && !(p <= x < p + n) :: owner[x]
  }

  ghost predicate Unowned(owner: map<nat, Owner>, p: nat, n: nat) {
    forall x | p <= x < p + n :: x !in owner
  }

  /** The free list gave up `n` pages at `p`, and `o` owns them now. */
  lemma TerritoryClaim(runs: seq<Run>, runs': seq<Run>, owner: map<nat, Owner>, npages: nat, p: nat, n: nat, o: Owner)
    requires Territory(runs, owner, npages) && Added(runs', runs, p, n)
    ensures Territory(runs', Claimed(owner, p, n, o), npages)
    ensures Unowned(owner, p, n) && (n > 0 ==> p + n <= npages)
  {
    hide InRuns;
    AddedPages(runs', runs, p, n);
    if n > 0 {
      assert InRuns(runs, p + n - 1);
    }
  }

  lemma TerritoryRelease(runs: seq<Run>, runs': seq<Run>, owner: map<nat, Owner>, npages: nat, p: nat, n: nat)
    requires Territory(runs, owner, npages) && Added(runs, runs', p, n)
    requires forall x | p <= x < p + n :: x in owner
    ensures Territory(runs', Released(owner, p, n), npages)
  {
    hide InRuns;
    forall x: int ensures InRuns(runs', x) <==> 0 <= x < npages && x !in Released(owner, p, n) {
      assert InRuns(runs', x) <==> InRuns(runs, x) || p <= x < p + n;
      if p <= x < p + n {
        var y: nat := x;
        assert y in owner && y !in Released(owner, p, n);
      }
    }
  }

  lemma LedgerClaimBlock(owner: map<nat, Owner>, usage: seq<Usage>, known: set<nat>, big: map<nat, nat>, cnt: nat,
                         table: nat, b: nat, n: nat)
    requires Ledger(owner, usage, known, big, cnt, table) && Unowned(owner, b, n) && n > 0 && b + n <= |usage|
    ensures Ledger(Claimed(owner, b, n, BlockPage(b)), usage[b := Usage(Large, n)], known, big[b := n], cnt, table)
    ensures b !in big
  {
    var owner', usage', big' := Claimed(owner, b, n, BlockPage(b)), usage[b := Usage(Large, n)], big[b := n];
    assert b in big ==> BlockHeld(owner, usage, b, big[b]) && b in owner;
    forall z | z in known ensures ZoneHeld(owner', usage', z, cnt) {
      assert ZoneHeld(owner, usage, z, cnt);
      assert forall x | z <= x < z + cnt :: x in owner && owner'[x] == owner[x] && usage'[x] == usage[x];
    }
    forall c | c in big' ensures BlockHeld(owner', usage', c, big'[c]) {
      if c != b {
        assert BlockHeld(owner, usage, c, big[c]) && c in owner;
        assert forall x | c <= x < c + big[c] :: x in owner && owner'[x] == owner[x];
      }
    }
    forall x | x in owner' ensures OwnerOk(owner'[x], x, known, big', cnt, table) {
      assert !(b <= x < b + n) ==> OwnerOk(owner[x], x, known, big, cnt, table);
    }
  }

  lemma LedgerReleaseBlock(owner: map<nat, Owner>, usage: seq<Usage>, known: set<nat>, big: map<nat, nat>, cnt: nat,
                           table: nat, b: nat)
    requires Ledger(owner, usage, known, big, cnt, table) && b in big && b < |usage|
    ensures Ledger(Released(owner, b, big[b]), usage[b := Usage(Large, 0)], known, big - {b}, cnt, table)
  {
    assert BlockHeld(owner, usage, b, big[b]);
    var owner', usage', big' := Released(owner, b, big[b]), usage[b := Usage(Large, 0)], big - {b};
    forall z | z in known ensures ZoneHeld(owner', usage', z, cnt) {
      assert ZoneHeld(owner, usage, z, cnt);
      assert forall x | z <= x < z + cnt ::
          x in owner && owner[x] == ZonePage(z) && x in owner'
          && usage'[x] == usage[x];
    }
    forall c | c in big' ensures BlockHeld(owner', usage', c, big'[c]) {
      assert BlockHeld(owner, usage, c, big[c]);
      assert forall x | c <= x < c + big[c] :: x in owner && owner[x] == BlockPage(c) && x in owner';
      assert c < |usage| && usage'[c] == usage[c];
    }
    forall x | x in owner' ensures OwnerOk(owner'[x], x, known, big', cnt, table) {
      assert OwnerOk(owner[x], x, known, big, cnt, table);
      assert owner[x] != BlockPage(b);
    }
  }

  /** The memusage entries of a zone, as rt_malloc writes them. */
  ghost predicate ZoneUsage(usage: seq<Usage>, usage': seq<Usage>, z: nat, cnt: nat) {
    && |usage'| == |usage|
    && (forall x: nat | x < |usage| :: usage'[x] == if z <= x < z + cnt then Usage(Small, x - z) else usage[x])
  }

  lemma LedgerClaimZone(owner: map<nat, Owner>, usage: seq<Usage>, usage': seq<Usage>, known: set<nat>,
                        big: map<nat, nat>, cnt: nat, table: nat, z: nat)
    requires Ledger(owner, usage, known, big, cnt, table) && Unowned(owner, z, cnt) && cnt > 0 && z + cnt <= |usage|
    requires ZoneUsage(usage, usage', z, cnt)
    ensures Ledger(Claimed(owner, z, cnt, ZonePage(z)), usage', known + {z}, big, cnt, table)
    ensures z !in known
  {
    var owner', known' := Claimed(owner, z, cnt, ZonePage(z)), known + {z};
    assert z in known ==> ZoneHeld(owner, usage, z, cnt) && z in owner;
    forall y | y in known' ensures ZoneHeld(owner', usage', y, cnt) {
      if y != z {
        assert ZoneHeld(owner, usage, y, cnt);
        assert forall x | y <= x < y + cnt :: x in owner && owner'[x] == owner[x] && usage'[x] == usage[x];
      }
    }
    forall c | c in big ensures BlockHeld(owner', usage', c, big[c]) {
      assert BlockHeld(owner, usage, c, big[c]);
      assert forall x | c <= x < c + big[c] :: x in owner && owner'[x] == owner[x] && usage'[x] == usage[x];
    }
    forall x | x in owner' ensures OwnerOk(owner'[x], x, known', big, cnt, table) {
      assert !(z <= x < z + cnt) ==> OwnerOk(owner[x], x, known, big, cnt, table);
    }
  }

  lemma LedgerReleaseZone(owner: map<nat, Owner>, usage: seq<Usage>, usage': seq<Usage>, known: set<nat>,
                          big: map<nat, nat>, cnt: nat, table: nat, z: nat)
    requires Ledger(owner, usage, known, big, cnt, table) && z in known
    requires |usage'| == |usage| && forall x: nat | x < |usage| && !(z <= x < z + cnt) :: usage'[x] == usage[x]
    ensures Ledger(Released(owner, z, cnt), usage', known - {z}, big, cnt, table)
  {
    assert ZoneHeld(owner, usage, z, cnt);
    var owner', known' := Released(owner, z, cnt), known - {z};
    forall y | y in known' ensures ZoneHeld(owner', usage', y, cnt) {
      assert ZoneHeld(owner, usage, y, cnt);
      assert forall x | y <= x < y + cnt ::
          x in owner && owner[x] == ZonePage(y) && x in owner'
          && usage'[x] == usage[x];
    }
    forall c | c in big ensures BlockHeld(owner', usage', c, big[c]) {
      assert BlockHeld(owner, usage, c, big[c]);
      assert forall x | c <= x < c + big[c] :: x in owner && owner[x] == BlockPage(c) && x in owner';
      assert usage'[c] == usage[c];
    }
    forall x | x in owner' ensures OwnerOk(owner'[x], x, known', big, cnt, table) {
      assert OwnerOk(owner[x], x, known, big, cnt, table);
    }
  }

  /** Zones do not overlap each other. */
  lemma ZonesApart(owner: map<nat, Owner>, usage: seq<Usage>, known: set<nat>, big: map<nat, nat>, cnt: nat, table: nat,
                   y: nat, z: nat)
    requires Ledger(owner, usage, known, big, cnt, table) && y in known && z in known && y < z && cnt > 0
    ensures y + cnt <= z
  {
    assert ZoneHeld(owner, usage, y, cnt) && ZoneHeld(owner, usage, z, cnt);
    assert z in owner && owner[z] == ZonePage(z);
  }

  // ---------------------------------------------------------------- the roster of zones

  ghost predicate ZonesOk(zones: map<nat, Zone>, zoneSize: nat) {
    forall z {:trigger zones[z]} | z in zones :: ZoneOk(zones[z], z * PAGE, zoneSize)
  }

  /** The live small blocks are exactly the chunks in use, each of its one zone. */
  ghost predicate ChunksLive(zones: map<nat, Zone>, small: map<nat, nat>) {
    && (forall p | p in small :: small[p] in zones && InUse(zones[small[p]], p))
    && (forall z, p | z in zones && InUse(zones[z], p) :: p in small && small[p] == z)
  }

  ghost predicate ListOk(list: seq<nat>, zones: map<nat, Zone>, i: nat) {
    && NoRepeats(list)
    && forall z :: z in list <==> z in zones && zones[z].index == i && zones[z].nfree > 0
  }

  /** `zone_array[i]` lists exactly the zones of class `i` that have a free chunk. */
  ghost predicate Listed(zones: map<nat, Zone>, arr: seq<seq<nat>>) {
    |arr| == NZONES && forall i: nat {:trigger ListOk(arr[i], zones, i)} | i < NZONES :: ListOk(arr[i], zones, i)
  }

  ghost predicate Enrolled(zones: map<nat, Zone>, arr: seq<seq<nat>>, small: map<nat, nat>, zoneSize: nat) {
    ZonesOk(zones, zoneSize) && ChunksLive(zones, small) && Listed(zones, arr)
  }

  /** Each class keeps at most one zone without live chunks. */
  ghost predicate OneIdle(zones: map<nat, Zone>) {
    forall y, z | y in zones && z in zones && zones[y].index == zones[z].index
                  && zones[y].nfree == zones[y].nmax && zones[z].nfree == zones[z].nmax :: y == z
  }

  /** Only zone `z` changed, and it kept its class. */
  lemma ListedUpdate(zones: map<nat, Zone>, arr: seq<seq<nat>>, arr': seq<seq<nat>>, z: nat, zone': Zone)
    requires Listed(zones, arr) && z in zones && zone'.index == zones[z].index < NZONES
    requires |arr'| == NZONES && forall i | 0 <= i < NZONES && i != zone'.index :: arr'[i] == arr[i]
    requires NoRepeats(arr'[zone'.index])
    requires forall y :: y in arr'[zone'.index] <==> if y == z then zone'.nfree > 0 else y in arr[zone'.index]
    ensures Listed(zones[z := zone'], arr')
  {
    forall i: nat | i < NZONES ensures ListOk(arr'[i], zones[z := zone'], i) {
      assert ListOk(arr[i], zones, i);
    }
  }

  lemma HeadSplit(s: seq<nat>)
    requires NoRepeats(s) && s != []
    ensures NoRepeats(s[1..]) && forall y :: y in s <==> y == s[0] || y in s[1..]
    ensures s[0] !in s[1..]
  {
    assert s == [s[0]] + s[1..];
  }

  lemma PushHead(s: seq<nat>, z: nat)
    requires NoRepeats(s) && z !in s
    ensures NoRepeats([z] + s) && forall y :: y in [z] + s <==> y == z || y in s
  {
  }

  /** The chunk that rt_malloc takes from the first zone of its class. */
  lemma RosterTake(zones: map<nat, Zone>, arr: seq<seq<nat>>, arr': seq<seq<nat>>, small: map<nat, nat>, zoneSize: nat,
                   zi: nat, zone': Zone, p: nat)
    requires Enrolled(zones, arr, small, zoneSize) && zi < NZONES && arr[zi] != []
    requires var z := arr[zi][0];
               z in zones && Counted(zones[z]) && zones[z].nfree > 0
               && (zone', p) == TakeChunk(zones[z])
    requires p !in small
    requires arr' == if zone'.nfree == 0 then arr[zi := arr[zi][1..]] else arr
    ensures Enrolled(zones[arr[zi][0] := zone'], arr', small[p := arr[zi][0]], zoneSize)
    ensures OneIdle(zones) ==> OneIdle(zones[arr[zi][0] := zone'])
  {
    hide InUse, TakeChunk, NoRepeats, OneIdle;
    var z: nat := arr[zi][0];
    assert ListOk(arr[zi], zones, zi);
    assert z in arr[zi];
    TakeChunkOk(zones[z], z * PAGE, zoneSize);
    HeadSplit(arr[zi]);
    ListedUpdate(zones, arr, arr', z, zone');
    LiveUpdate(zones, small, small[p := z], z, zone');
    TakenNotIdle(zones[z], zone', z * PAGE, zoneSize);
    OneIdleUpdate(zones, z, zone');
  }

  /** Only zone `z` changed; the live chunks of the others are the same. */
  lemma LiveUpdate(zones: map<nat, Zone>, small: map<nat, nat>, small': map<nat, nat>, z: nat, zone': Zone)
    requires ChunksLive(zones, small)
    requires forall q :: InUse(zone', q) <==> q in small' && small'[q] == z
    requires forall q, y | y in zones && y != z :: q in small' && small'[q] == y <==> q in small && small[q] == y
    requires forall q | q in small' :: small'[q] == z || small'[q] in zones
    ensures ChunksLive(zones[z := zone'], small')
  {
    hide InUse;
  }

  lemma OneIdleUpdate(zones: map<nat, Zone>, z: nat, zone': Zone)
    requires zone'.nfree < zone'.nmax
    ensures OneIdle(zones) ==> OneIdle(zones[z := zone'])
  {
  }

  lemma TakenNotIdle(zone: Zone, zone': Zone, start: nat, zoneSize: nat)
    requires ZoneOk(zone, start, zoneSize) && zone'.nfree == zone.nfree - 1
    requires zone'.nmax == zone.nmax
    ensures zone'.nfree < zone'.nmax
  {
    FreeCountMax(zone);
  }

  // ---------------------------------------------------------------- both books together

  /** A chunk lies on the pages of its zone. */
  lemma ChunkPage(zone: Zone, z: nat, cnt: nat, p: nat)
    requires ZoneOk(zone, z * PAGE, cnt * PAGE) && Carved(zone, p)
    ensures z <= p / PAGE < z + cnt
    ensures z * PAGE + ZONE_HEADER <= p && p + zone.chunk <= (z + cnt) * PAGE
  {
    ChunkInside(zone, z * PAGE, cnt * PAGE, p);
    ZoneIndexOk(zone, z * PAGE, cnt * PAGE);
  }

  /** A byte of zone `z` that is not one of its chunks in use is not a live small block. */
  lemma NotLive(zones: map<nat, Zone>, small: map<nat, nat>, owner: map<nat, Owner>, usage: seq<Usage>, known: set<nat>,
                big: map<nat, nat>,
                cnt: nat, table: nat, z: nat, p: nat)
    requires ZonesOk(zones, cnt * PAGE) && ChunksLive(zones, small) && Ledger(owner, usage, known, big, cnt, table)
    requires zones.Keys <= known && z in known && z <= p / PAGE < z + cnt
    requires z in zones ==> !InUse(zones[z], p)
    ensures p !in small
  {
    hide ZoneOk, Ledger;
    if p in small {
      var y: nat := small[p];
      ChunkPage(zones[y], y, cnt, p);
      if y < z {
        ZonesApart(owner, usage, known, big, cnt, table, y, z);
      } else if z < y {
        ZonesApart(owner, usage, known, big, cnt, table, z, y);
      }
    }
  }

  /** The memusage entry of the page of a live small block leads to its zone. */
  lemma UsageOfChunk(zones: map<nat, Zone>, small: map<nat, nat>, owner: map<nat, Owner>, usage: seq<Usage>,
                     known: set<nat>, big: map<nat, nat>,
                     cnt: nat, table: nat, p: nat)
    requires ZonesOk(zones, cnt * PAGE) && ChunksLive(zones, small) && Ledger(owner, usage, known, big, cnt, table)
    requires zones.Keys <= known && p in small
    ensures p / PAGE < |usage| && usage[p / PAGE].kind == Small && p / PAGE - usage[p / PAGE].size == small[p]
    ensures p / PAGE !in big
  {
    hide ZoneOk;
    var z: nat := small[p];
    ChunkPage(zones[z], z, cnt, p);
    assert ZoneHeld(owner, usage, z, cnt);
    assert p / PAGE in big ==> BlockHeld(owner, usage, p / PAGE, big[p / PAGE]);
  }

  lemma UsageOfBlock(owner: map<nat, Owner>, usage: seq<Usage>, known: set<nat>, big: map<nat, nat>, cnt: nat,
                     table: nat, b: nat)
    requires Ledger(owner, usage, known, big, cnt, table) && b in big
    ensures big[b] > 0 && b + big[b] <= |usage| && usage[b] == Usage(Large, big[b])
    ensures forall x | b <= x < b + big[b] :: x in owner
  {
    assert BlockHeld(owner, usage, b, big[b]);
  }

  /** The new zone of rt_malloc. */
  lemma RosterNew(zones: map<nat, Zone>, arr: seq<seq<nat>>, small: map<nat, nat>, zoneSize: nat, z: nat, zone: Zone,
                  p: nat)
    requires Enrolled(zones, arr, small, zoneSize) && z !in zones
    requires ZoneOk(zone, z * PAGE, zoneSize) && 0 < zone.nfree < zone.nmax
    requires forall q :: InUse(zone, q) <==> q == p
    requires p !in small
    ensures Enrolled(zones[z := zone], arr[zone.index := [z] + arr[zone.index]], small[p := z], zoneSize)
    ensures OneIdle(zones) ==> OneIdle(zones[z := zone])
  {
    hide InUse, NoRepeats, ZoneOk;
    assert zone.index < NZONES by { ZoneIndexOk(zone, z * PAGE, zoneSize); }
    var zones', arr' := zones[z := zone], arr[zone.index := [z] + arr[zone.index]];
    assert ListOk(arr[zone.index], zones, zone.index);
    PushHead(arr[zone.index], z);
    forall i: nat | i < NZONES ensures ListOk(arr'[i], zones', i) {
      assert ListOk(arr[i], zones, i);
    }
  }

  lemma ZoneIndexOk(zone: Zone, start: nat, zoneSize: nat)
    requires ZoneOk(zone, start, zoneSize)
    ensures zone.index < NZONES && zone.chunk > 0
  {
  }

  /** The chunk that rt_free returns to its zone. */
  lemma RosterPut(zones: map<nat, Zone>, arr: seq<seq<nat>>, arr': seq<seq<nat>>, small: map<nat, nat>, zoneSize: nat,
                  p: nat)
    requires Enrolled(zones, arr, small, zoneSize) && p in small
    requires small[p] in zones && zones[small[p]].index < |arr|
    requires var z, zi := small[p], zones[small[p]].index; arr' == if zones[z].nfree == 0 then arr[zi := [z] + arr[zi]]
             else arr
    ensures Enrolled(zones[small[p] := PutChunk(zones[small[p]], p)], arr', small - {p}, zoneSize)
  {
    hide InUse, NoRepeats;
    var z: nat := small[p];
    var zone' := PutChunk(zones[z], p);
    PutChunkOk(zones[z], z * PAGE, zoneSize, p);
    var zi := zones[z].index;
    assert ListOk(arr[zi], zones, zi);
    if zones[z].nfree == 0 {
      PushHead(arr[zi], z);
    }
    NfreeNotNegative(zones[z], z * PAGE, zoneSize);
    ListedUpdate(zones, arr, arr', z, zone');
  }

  lemma NfreeNotNegative(zone: Zone, start: nat, zoneSize: nat)
    requires ZoneOk(zone, start, zoneSize)
    ensures zone.nfree >= 0
  {
  }

  /** A zone without live chunks leaves service. */
  lemma RosterRetire(zones: map<nat, Zone>, arr: seq<seq<nat>>, small: map<nat, nat>, zoneSize: nat, z: nat, j: nat)
    requires Enrolled(zones, arr, small, zoneSize)
    requires z in zones && zones[z].nfree == zones[z].nmax && zones[z].index < |arr|
    requires j < |arr[zones[z].index]| && arr[zones[z].index][j] == z
    ensures var zi := zones[z].index;
            Enrolled(zones - {z}, arr[zi := arr[zi][..j] + arr[zi][j + 1..]], small, zoneSize)
  {
    hide InUse;
    var zi := zones[z].index;
    ZoneIndexOk(zones[z], z * PAGE, zoneSize);
    IdleIffUnused(zones[z]);
    var arr' := arr[zi := arr[zi][..j] + arr[zi][j + 1..]];
    assert ListOk(arr[zi], zones, zi);
    RemoveFromList(arr[zi], j);
    forall i: nat | i < NZONES ensures ListOk(arr'[i], zones - {z}, i) {
      assert ListOk(arr[i], zones, i);
    }
  }

  lemma RemoveFromList(s: seq<nat>, j: nat)
    requires NoRepeats(s) && j < |s|
    ensures var r := s[..j] + s[j + 1..]; NoRepeats(r) && forall y :: y in r <==> y in s && y != s[j]
  {
    var r := s[..j] + s[j + 1..];
    forall y ensures y in r <==> y in s && y != s[j] {
      if y in s && y != s[j] {
        var k :| 0 <= k < |s| && s[k] == y;
        assert r[if k < j then k else k - 1] == y;
      }
    }
  }
}
