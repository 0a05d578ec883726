/**
 The zones of slab.c as values: a zone is a stretch of pages cut into equal chunks
 behind a header.
 */
module SlabZones {
  import opened Machine
  import opened Sequences

  const PAGE: int := 4096            // RT_MM_PAGE_SIZE
  const NZONES: int := 72
  const ZONE_HEADER: int := 56       // sizeof(slab_zone)
  const MIN_CHUNK: int := 8          // MIN_CHUNK_SIZE
  const ZONE_LIMIT: int := 16384     // ZALLOC_ZONE_LIMIT
  const MIN_ZONE: int := 32768       // ZALLOC_MIN_ZONE_SIZE
  const MAX_ZONE: int := 131072      // ZALLOC_MAX_ZONE_SIZE

  // ---------------------------------------------------------------- size classes

  /** `n` rounded up to a multiple of `step`; the masks of the source, whose steps are powers of two. */
  function RoundUp(n: nat, step: nat): (r: nat)
    requires step > 0
    ensures n <= r < n + step
  {
    n + step - 1 - (n + step - 1) % step
  }

  datatype SizeClass = SizeClass(index: nat, chunk: nat)

  /** zoneindex, for the requests rt_malloc makes of it. */
  function ZoneIndex(bytes: nat): (c: SizeClass)
    requires 0 < bytes < ZONE_LIMIT
  {
    if bytes < 128 then var n := RoundUp(bytes, 8); SizeClass(n / 8 - 1, n)
    else if bytes < 256 then var n := RoundUp(bytes, 16); SizeClass(n / 16 + 7, n)
    else if bytes < 512 then var n := RoundUp(bytes, 32); SizeClass(n / 32 + 15, n)
    else if bytes < 1024 then var n := RoundUp(bytes, 64); SizeClass(n / 64 + 23, n)
    else if bytes < 2048 then var n := RoundUp(bytes, 128); SizeClass(n / 128 + 31, n)
    else if bytes < 4096 then var n := RoundUp(bytes, 256); SizeClass(n / 256 + 39, n)
    else if bytes < 8192 then var n := RoundUp(bytes, 512); SizeClass(n / 512 + 47, n)
    else var n := RoundUp(bytes, 1024); SizeClass(n / 1024 + 55, n)
  }

  /** The chunk size of each zone index. */
  function ChunkSize(index: nat): nat {
    if index < 16 then (index + 1) * 8
    else if index < 24 then (index - 7) * 16
    else if index < 32 then (index - 15) * 32
    else if index < 40 then (index - 23) * 64
    else if index < 48 then (index - 31) * 128
    else if index < 56 then (index - 39) * 256
    else if index < 64 then (index - 47) * 512
    else (index - 55) * 1024
  }

  lemma RoundedUp(n: nat, step: nat)
    requires step > 0
    ensures RoundUp(n, step) == RoundUp(n, step) / step * step
  {
    var m := n + step - 1;
    assert m == m / step * step + m % step;
    MulDiv(m / step, step);
  }

  /** Zone index and chunk size determine each other. */
  lemma OneChunkSizePerIndex(bytes: nat)
    requires 0 < bytes < ZONE_LIMIT
    ensures ZoneIndex(bytes).index < NZONES
    ensures ZoneIndex(bytes).chunk == ChunkSize(ZoneIndex(bytes).index)
    ensures forall i: nat | i < NZONES && ChunkSize(i) == ZoneIndex(bytes).chunk :: i == ZoneIndex(bytes).index
  {
    IndexOfClass(bytes);
    hide ZoneIndex, ChunkSize;
    var c := ZoneIndex(bytes);
    forall i: nat | i < NZONES && ChunkSize(i) == c.chunk ensures i == c.index {
      if i < c.index {
        ChunkSizesGrow(i, c.index);
      } else if c.index < i {
        ChunkSizesGrow(c.index, i);
      }
    }
  }

  lemma IndexOfClass(bytes: nat)
    requires 0 < bytes < ZONE_LIMIT
    ensures ZoneIndex(bytes).index < NZONES
    ensures ZoneIndex(bytes).chunk == ChunkSize(ZoneIndex(bytes).index)
  {
    hide RoundUp;
    RoundedUp(bytes, if bytes < 128 then 8 else if bytes < 256 then 16 else if bytes < 512 then 32 else if bytes < 1024
              then 64
                     else if bytes < 2048 then 128 else if bytes < 4096 then 256 else if bytes < 8192 then 512
                         else 1024);
  }

  lemma ChunkHolds(bytes: nat)
    requires 0 < bytes < ZONE_LIMIT
    ensures bytes <= ZoneIndex(bytes).chunk <= ZONE_LIMIT
    ensures bytes < MIN_ZONE / 4 ==> ZoneIndex(bytes).chunk <= MIN_ZONE / 4
  {
  }

  /** A request wastes less than an eighth of itself, or less than 8 bytes. */
  lemma LittleWaste(bytes: nat)
    requires 0 < bytes < ZONE_LIMIT
    ensures var w := ZoneIndex(bytes).chunk - bytes; w < MIN_CHUNK || w * 8 < bytes
  {
    hide RoundUp;
  }

  lemma ChunkSizesGrow(i: nat, j: nat)
    requires i < j < NZONES
    ensures 0 < ChunkSize(i) < ChunkSize(j) <= ZONE_LIMIT
    ensures ChunkSize(i) % MIN_CHUNK == 0
  {
  }

  /** The chosen chunk size is the smallest that holds the request. */
  lemma BestFit(bytes: nat, i: nat)
    requires 0 < bytes < ZONE_LIMIT && i < NZONES && bytes <= ChunkSize(i)
    ensures ZoneIndex(bytes).chunk <= ChunkSize(i)
  {
    var c := ZoneIndex(bytes);
    OneChunkSizePerIndex(bytes);
    if c.index > 0 {
      PreviousTooSmall(bytes);
      if i < c.index - 1 {
        ChunkSizesGrow(i, c.index - 1);
      }
      if c.index < i {
        ChunkSizesGrow(c.index, i);
      }
    }
  }

  lemma PreviousTooSmall(bytes: nat)
    requires 0 < bytes < ZONE_LIMIT && ZoneIndex(bytes).index > 0
    ensures ChunkSize(ZoneIndex(bytes).index - 1) < bytes
  {
  }

  // ---------------------------------------------------------------- one zone

  datatype Zone = Zone(index: nat, chunk: nat, base: nat, nmax: nat, nfree: int, uindex: nat, freechunk: seq<nat>)

  /** `(n | (n - 1)) + 1 == n << 1` */
  predicate PowerOfTwo(n: nat) {
    n == 1 || (n > 1 && n % 2 == 0 && PowerOfTwo(n / 2))
  }

  lemma {:induction false} PowerOfTwoExact(n: nat)
    ensures PowerOfTwo(n) <==> exists e: nat :: n == Pow(2, e)
  {
    if n == 1 {
      assert n == Pow(2, 0);
    } else if n > 1 {
      if PowerOfTwo(n) {
        PowerOfTwoExact(n / 2);
        var e: nat :| n / 2 == Pow(2, e);
        assert n == Pow(2, e + 1);
      }
      if e: nat :| n == Pow(2, e) {
        assert n / 2 == Pow(2, e - 1);
        PowerOfTwoExact(n / 2);
      }
    } else {
      assert forall e: nat :: Pow(2, e) > 0;
    }
  }

  /** Where the chunks of a zone begin: chunks of a power of two are aligned to their size. */
  function ChunkOffset(chunk: nat): (off: nat)
    requires chunk > 0
    ensures ZONE_HEADER <= off < ZONE_HEADER + chunk || off == ZONE_HEADER
    ensures off >= ZONE_HEADER + MIN_CHUNK ==> PowerOfTwo(chunk)
  {
    if PowerOfTwo(chunk) then RoundUp(ZONE_HEADER, chunk) else RoundUp(ZONE_HEADER, MIN_CHUNK)
  }

  function Quotient(a: nat, c: nat): nat
    requires c > 0
  {
    a / c
  }

  /** A new zone at byte `start`, its first chunk already taken. */
  function NewZone(start: nat, c: SizeClass, zoneSize: nat): Zone
    requires c.chunk > 0 && zoneSize >= ChunkOffset(c.chunk)
  {
    var off := ChunkOffset(c.chunk);
    var nmax := Quotient(zoneSize - off, c.chunk);
    Zone(c.index, c.chunk, start + off, nmax, nmax - 1, 0, [])
  }

  function At(zone: Zone, k: nat): nat {
    zone.base + k * zone.chunk
  }

  /** `p` is a chunk that has been handed out at some time. */
  ghost predicate Carved(zone: Zone, p: nat) {
    exists k: nat | k <= zone.uindex :: p == At(zone, k)
  }

  /** `p` is a chunk that is handed out now. */
  ghost predicate InUse(zone: Zone, p: nat) {
    Carved(zone, p) && p !in zone.freechunk
  }

  /** The size class of a zone and where its chunks lie. */
  ghost predicate Laid(zone: Zone, start: nat, zoneSize: nat) {
    && zone.index < NZONES && zone.chunk == ChunkSize(zone.index) && zone.chunk > 0
    && zone.base == start + ChunkOffset(zone.chunk)
    && 2 <= zone.nmax && ChunkOffset(zone.chunk) + zone.nmax * zone.chunk <= zoneSize
  }

  /** The free count of a zone, and its list of returned chunks. */
  ghost predicate Counted(zone: Zone) {
    && zone.uindex < zone.nmax
    && zone.nfree == zone.nmax - 1 - zone.uindex + |zone.freechunk|
    && NoRepeats(zone.freechunk)
    && (forall p | p in zone.freechunk :: Carved(zone, p))
  }

  ghost predicate ZoneOk(zone: Zone, start: nat, zoneSize: nat) {
    Laid(zone, start, zoneSize) && Counted(zone)
  }

  lemma MulMono(a: nat, b: nat, c: nat)
    requires a <= b
    ensures a * c <= b * c
  {
  }

  lemma MulNext(k: nat, c: nat)
    ensures (k + 1) * c == k * c + c
  {
  }

  lemma DivBounds(a: nat, c: nat)
    requires c > 0
    ensures a - c < Quotient(a, c) * c <= a
    ensures a >= 2 * c ==> Quotient(a, c) >= 2
  {
    var q := Quotient(a, c);
    assert a == q * c + a % c;
    if a >= 2 * c && q < 2 {
      MulMono(q, 1, c);
      assert false;
    }
  }

  /** Every zone holds as many chunks as fit, at least two: a size class is at most a quarter of the zone. */
  lemma NewZoneOk(start: nat, c: SizeClass, zoneSize: nat)
    requires c.index < NZONES && c.chunk == ChunkSize(c.index) && 0 < c.chunk
    requires zoneSize >= MIN_ZONE && c.chunk <= zoneSize / 4
    ensures zoneSize >= ChunkOffset(c.chunk)
    ensures var zone := NewZone(start, c, zoneSize);
            && ZoneOk(zone, start, zoneSize) && zone.nfree > 0 && zone.index == c.index && zone.chunk == c.chunk
            && ChunkOffset(c.chunk) + zone.nmax * c.chunk > zoneSize - c.chunk
            && forall p :: InUse(zone, p) <==> p == zone.base
  {
    var off := ChunkOffset(c.chunk);
    assert zoneSize - off >= 2 * c.chunk;
    DivBounds(zoneSize - off, c.chunk);
    var zone := NewZone(start, c, zoneSize);
    assert At(zone, 0) == zone.base;
  }

  /** The chunks of a zone lie inside it, past its header. */
  lemma ChunkInside(zone: Zone, start: nat, zoneSize: nat, p: nat)
    requires ZoneOk(zone, start, zoneSize) && Carved(zone, p)
    ensures start + ZONE_HEADER <= p && p + zone.chunk <= start + zoneSize
  {
    var k: nat :| k <= zone.uindex && p == At(zone, k);
    LaidInside(zone, start, zoneSize, k);
  }

  lemma LaidInside(zone: Zone, start: nat, zoneSize: nat, k: nat)
    requires ZoneOk(zone, start, zoneSize) && k <= zone.uindex
    ensures start + ZONE_HEADER <= At(zone, k) && At(zone, k) + zone.chunk <= start + zoneSize
  {
    hide ChunkSize, Carved, NoRepeats;
    MulMono(k + 1, zone.nmax, zone.chunk);
    MulNext(k, zone.chunk);
    hide ChunkOffset;
  }

  lemma ChunksApart(zone: Zone, p: nat, q: nat)
    requires Carved(zone, p) && Carved(zone, q) && p < q
    ensures p + zone.chunk <= q
  {
    var j: nat :| j <= zone.uindex && p == At(zone, j);
    var k: nat :| k <= zone.uindex && q == At(zone, k);
    if k <= j {
      MulMono(k, j, zone.chunk);
    } else {
      MulMono(j + 1, k, zone.chunk);
      MulNext(j, zone.chunk);
    }
  }

  /** Chunks of a power of two are aligned to their size within the zone. */
  lemma ChunkAligned(zone: Zone, start: nat, zoneSize: nat, p: nat)
    requires ZoneOk(zone, start, zoneSize) && Carved(zone, p) && PowerOfTwo(zone.chunk)
    ensures exists m: nat :: p == start + m * zone.chunk
  {
    hide PowerOfTwo;
    var c := zone.chunk;
    var k: nat :| k <= zone.uindex && p == At(zone, k);
    OffsetAligned(c);
    var e: nat :| ChunkOffset(c) == e * c;
    MulSum(e, k, c);
    assert p == start + (e + k) * c;
  }

  lemma OffsetAligned(c: nat)
    requires PowerOfTwo(c) && c > 0
    ensures exists e: nat :: ChunkOffset(c) == e * c
  {
    hide PowerOfTwo;
    var n := ZONE_HEADER + c - 1;
    var e := Quotient(n, c);
    assert n == e * c + n % c;
    assert ChunkOffset(c) == e * c;
  }

  lemma MulSum(a: nat, b: nat, c: nat)
    ensures a * c + b * c == (a + b) * c
  {
  }

  // ---------------------------------------------------------------- taking and returning a chunk

  /** The zone part of rt_malloc: never-used space first, then the list of returned chunks. */
  function TakeChunk(zone: Zone): (r: (Zone, nat))
    requires zone.nfree > 0 && Counted(zone)
  {
    if zone.uindex + 1 != zone.nmax then
      (zone.(nfree := zone.nfree - 1, uindex := zone.uindex + 1), At(zone, zone.uindex + 1))
    else
      (zone.(nfree := zone.nfree - 1, freechunk := zone.freechunk[1..]), zone.freechunk[0])
  }

  /** The zone part of rt_free. */
  function PutChunk(zone: Zone, p: nat): Zone {
    zone.(nfree := zone.nfree + 1, freechunk := [p] + zone.freechunk)
  }

  lemma CarvedGrow(zone: Zone, zone': Zone)
    requires zone'.base == zone.base && zone'.chunk == zone.chunk && zone'.uindex == zone.uindex + 1
    ensures forall p :: Carved(zone', p) <==> Carved(zone, p) || p == At(zone, zone.uindex + 1)
  {
    forall p ensures Carved(zone', p) <==> Carved(zone, p) || p == At(zone, zone.uindex + 1) {
      if Carved(zone', p) {
        var k: nat :| k <= zone'.uindex && p == At(zone', k);
        assert p == At(zone, k);
      }
      if Carved(zone, p) {
        var k: nat :| k <= zone.uindex && p == At(zone, k);
        assert p == At(zone', k);
      }
      if p == At(zone, zone.uindex + 1) {
        assert p == At(zone', zone.uindex + 1);
      }
    }
  }

  lemma CarvedSame(zone: Zone, zone': Zone)
    requires zone'.base == zone.base && zone'.chunk == zone.chunk && zone'.uindex == zone.uindex
    ensures forall p :: Carved(zone', p) <==> Carved(zone, p)
  {
    forall p ensures Carved(zone', p) <==> Carved(zone, p) {
      assert forall k: nat :: At(zone', k) == At(zone, k);
    }
  }

  /** The next never-used chunk has not been handed out before. */
  lemma NextNotCarved(zone: Zone)
    requires zone.chunk > 0
    ensures !Carved(zone, At(zone, zone.uindex + 1))
  {
    forall k: nat | k <= zone.uindex ensures At(zone, k) < At(zone, zone.uindex + 1) {
      MulMono(k + 1, zone.uindex + 1, zone.chunk);
      MulNext(k, zone.chunk);
    }
  }

  /** Taking a chunk hands out exactly one chunk that was not in use: a never-used one as long as there is one. */
  lemma TakeChunkOk(zone: Zone, start: nat, zoneSize: nat)
    requires ZoneOk(zone, start, zoneSize) && zone.nfree > 0
    ensures var (zone', p) := TakeChunk(zone);
            && ZoneOk(zone', start, zoneSize) && zone'.nfree == zone.nfree - 1
            && zone' == zone.(nfree := zone'.nfree, uindex := zone'.uindex, freechunk := zone'.freechunk)
            && !InUse(zone, p) && (Carved(zone, p) <==> zone.uindex + 1 == zone.nmax)
            && forall q :: InUse(zone', q) <==> InUse(zone, q) || q == p
  {
    var (zone', p) := TakeChunk(zone);
    if zone.uindex + 1 != zone.nmax {
      CarvedGrow(zone, zone');
      NextNotCarved(zone);
    } else {
      CarvedSame(zone, zone');
      var f := zone.freechunk;
      assert f == [f[0]] + f[1..];
      assert forall q :: q in f <==> q == f[0] || q in f[1..];
    }
  }

  /** Returning a chunk that is in use takes exactly that chunk out of use. */
  lemma PutChunkOk(zone: Zone, start: nat, zoneSize: nat, p: nat)
    requires ZoneOk(zone, start, zoneSize) && InUse(zone, p)
    ensures ZoneOk(PutChunk(zone, p), start, zoneSize)
    ensures forall q :: InUse(PutChunk(zone, p), q) <==> InUse(zone, q) && q != p
    ensures zone.nfree < zone.nmax
  {
    var zone' := PutChunk(zone, p);
    CarvedSame(zone, zone');
    assert forall q :: q in zone'.freechunk <==> q == p || q in zone.freechunk;
    FreeCountMax(zone');
  }

  /** Once every chunk has been used, the one returned last is taken next, and the zone is as before. */
  lemma LastReturnedFirst(zone: Zone, p: nat)
    requires Counted(zone) && Counted(PutChunk(zone, p)) && zone.uindex + 1 == zone.nmax
    ensures TakeChunk(PutChunk(zone, p)) == (zone, p)
  {
  }

  // ---------------------------------------------------------------- counting

  /** The first `n` chunks. */
  ghost function Chunks(zone: Zone, n: nat): set<nat> {
    if n == 0 then {} else Chunks(zone, n - 1) + {At(zone, n - 1)}
  }

  lemma {:induction false} ChunkCount(zone: Zone, n: nat)
    requires zone.chunk > 0
    ensures |Chunks(zone, n)| == n
    ensures forall p :: p in Chunks(zone, n) <==> exists k: nat | k < n :: p == At(zone, k)
  {
    if n > 0 {
      ChunkCount(zone, n - 1);
      forall k: nat | k < n - 1 ensures At(zone, k) != At(zone, n - 1) {
        MulMono(k + 1, n - 1, zone.chunk);
        MulNext(k, zone.chunk);
      }
    }
  }

  ghost function Members(s: seq<nat>): set<nat> {
    set x | x in s
  }

  lemma {:induction false} MemberCount(s: seq<nat>)
    requires NoRepeats(s)
    ensures |Members(s)| == |s|
  {
    if s != [] {
      MemberCount(s[1..]);
      assert s == [s[0]] + s[1..];
      assert Members(s) == Members(s[1..]) + {s[0]};
    }
  }

  lemma SubsetCount(a: set<nat>, b: set<nat>)
    requires a <= b
    ensures |a| <= |b|
    ensures |a| == |b| ==> a == b
  {
    assert b == a + (b - a);
  }

  lemma FreeCountMax(zone: Zone)
    requires Counted(zone) && zone.chunk > 0
    ensures zone.nfree <= zone.nmax
    ensures zone.nfree == zone.nmax ==> Members(zone.freechunk) == Chunks(zone, zone.uindex + 1)
    ensures Members(zone.freechunk) == Chunks(zone, zone.uindex + 1) ==> zone.nfree == zone.nmax
  {
    ChunkCount(zone, zone.uindex + 1);
    MemberCount(zone.freechunk);
    forall p | p in zone.freechunk ensures p in Chunks(zone, zone.uindex + 1) {
      assert Carved(zone, p);
    }
    SubsetCount(Members(zone.freechunk), Chunks(zone, zone.uindex + 1));
  }

  /** A zone counts as completely free exactly when none of its chunks is in use. */
  lemma IdleIffUnused(zone: Zone)
    requires Counted(zone) && zone.chunk > 0
    ensures zone.nfree == zone.nmax <==> forall p :: !InUse(zone, p)
  {
    FreeCountMax(zone);
    ChunkCount(zone, zone.uindex + 1);
    var f, c := Members(zone.freechunk), Chunks(zone, zone.uindex + 1);
    assert forall p :: p in c <==> Carved(zone, p);
    assert forall p :: p in f ==> p in c;
    if forall p :: !InUse(zone, p) {
      forall p | p in c ensures p in f {
        assert Carved(zone, p) && !InUse(zone, p);
      }
    }
  }
}
