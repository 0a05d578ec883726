/** The memheap allocator of memheap.c: one pool, two rings over the same headers, running counters. */
module MemHeap {
  import opened HeapBytes
  import opened Machine
  import opened MemHeapRings

  const MINIALLOC: int := 12  // RT_MEMHEAP_MINIALLOC

  // Pool sizes are 32-bit fields and block sizes pass through a signed 32-bit variable.
  const POOL_LIMIT: int := 0x8000_0000

  /** The size an allocation request is rounded to: aligned first, then raised to the minimum. */
  function RequestSize(size: nat): (r: nat)
    requires size < SIZE_LIMIT
  {
    if AlignUp(size) < MINIALLOC then MINIALLOC else AlignUp(size)
  }

  /** The largest request rt_memheap_realloc can compare without overflowing; see GrowGuardOverflow. */
  const REALLOC_LIMIT: int := SIZE_LIMIT - 2 * ALIGN

  /** The test of rt_memheap_realloc for growing into the free block on the right, in 64-bit arithmetic. */
  predicate FitsInPlace(nextSize: nat, oldSize: nat, size: nat) {
    (nextSize + oldSize) % SIZE_LIMIT > (size + MINIALLOC) % SIZE_LIMIT
  }

  const MAGIC: int := 0x1ea01ea0   // RT_MEMHEAP_MAGIC
  const POOL: int := 0             // the address of the pool itself, which is not in the pool

  /** A header as it stands in memory, field by field; links are offsets. */
  function HeaderBytes(it: Item): (s: seq<byte>)
    ensures |s| == HEADER
  {
    Word(MAGIC + if it.used then 1 else 0, 4) + Word(0, 4) + Word(POOL, 8)
    + Word(it.next, 8) + Word(it.prev, 8) + Word(it.nextFree, 8) + Word(it.prevFree, 8)
  }

  ghost predicate Offsets(it: Item) {
    && -POOL_LIMIT < it.next < POOL_LIMIT && -POOL_LIMIT < it.prev < POOL_LIMIT
    && -POOL_LIMIT < it.nextFree < POOL_LIMIT && -POOL_LIMIT < it.prevFree < POOL_LIMIT
  }

  /** The bytes of a header say what its fields are. */
  lemma HeaderExact(a: Item, b: Item)
    requires Offsets(a) && Offsets(b)
    ensures HeaderBytes(a) == HeaderBytes(b) <==> a == b
  {
    if HeaderBytes(a) == HeaderBytes(b) {
      HeaderWords(a);
      HeaderWords(b);
      hide HeaderBytes;
      OffsetExact(a.next, b.next);
      OffsetExact(a.prev, b.prev);
      OffsetExact(a.nextFree, b.nextFree);
      OffsetExact(a.prevFree, b.prevFree);
    }
  }

  lemma HeaderWords(it: Item)
    ensures var s := HeaderBytes(it);
            && s[0] == (if it.used then 0xa1 else 0xa0) as byte
            && s[16..24] == Word(it.next, 8) && s[24..32] == Word(it.prev, 8)
            && s[32..40] == Word(it.nextFree, 8) && s[40..48] == Word(it.prevFree, 8)
  {
    var magic := Word(MAGIC + if it.used then 1 else 0, 4);
    assert magic[0] == (if it.used then 0xa1 else 0xa0) as byte;
    hide Word;
    Parts(magic, Word(0, 4), Word(POOL, 8), Word(it.next, 8), Word(it.prev, 8), Word(it.nextFree, 8),
          Word(it.prevFree, 8));
  }

  lemma Parts(a: seq<byte>, b: seq<byte>, c: seq<byte>, d: seq<byte>, e: seq<byte>, f: seq<byte>, g: seq<byte>)
    requires |a| == |b| == 4 && |c| == |d| == |e| == |f| == |g| == 8
    ensures var s := a + b + c + d + e + f + g;
            && s[0] == a[0] && s[16..24] == d && s[24..32] == e && s[32..40] == f && s[40..48] == g
  {
  }

  /** Every header but those in `dirty` stands in memory as its fields say. */
  ghost predicate InMemory(m: seq<byte>, h: Items, b: set<int>, dirty: set<int>) {
    forall p {:trigger h[p]} | p in b && p !in dirty :: p in h && Holds(m, p, HeaderBytes(h[p]))
  }

  lemma InMemoryLinked(m: seq<byte>, h: Items, h': Items, b: set<int>, dirty: set<int>, dirty': set<int>, n: int)
    requires InMemory(m, h, b, dirty) && dirty <= dirty' && n in dirty'
    requires forall p | p in b && p !in dirty' :: p in h && p in h' && h'[p] == h[p]
    ensures InMemory(m, h', b + {n}, dirty')
  {
    hide HeaderBytes;
  }

  /** Overwriting headers of the ring leaves the payload of every block of the ring alone. */
  lemma HeaderStoresKeepPayloads(m: seq<byte>, m': seq<byte>, hs: set<int>, h: Items, b: set<int>, tail: int,
                                 live: map<int, int>)
    requires BlockRing(h, b, tail) && hs <= b && OnlyHeaders(m, m', hs, HEADER)
    requires forall p | p in live :: p in b && p != tail && live[p] <= Payload(h, p)
    ensures AllKept(m, m', live, HEADER)
  {
    forall p | p in live ensures Kept(m, m', p + HEADER, live[p]) {
      assert Linked(h, b, tail, p);
      forall a | p + HEADER <= a < p + HEADER + live[p] && 0 <= a < |m| ensures !InHeader(hs, HEADER, a) {
        forall r | r in hs ensures !(r <= a < r + HEADER) {
          if r != p {
            assert Clear(h, p, r) && Clear(h, r, p);
            assert Linked(h, b, tail, r);
          }
        }
      }
    }
  }

  /** Writing into the payload of a block leaves every header in memory as it was. */
  lemma PayloadStoreKeepsHeaders(m: seq<byte>, m': seq<byte>, h: Items, b: set<int>, tail: int, q: int, n: int)
    requires BlockRing(h, b, tail) && InMemory(m, h, b, {})
    requires q in b && q != tail && n <= Payload(h, q)
    requires |m'| == |m| && forall a | 0 <= a < |m| && !(q + HEADER <= a < q + HEADER + n) :: m'[a] == m[a]
    ensures InMemory(m', h, b, {})
  {
    hide HeaderBytes;
    forall p | p in b ensures p in h && Holds(m', p, HeaderBytes(h[p])) {
      HeaderApart(h, b, tail, q, p, n);
      HoldsKept(m, m', p, HeaderBytes(h[p]));
    }
  }

  lemma HeaderApart(h: Items, b: set<int>, tail: int, q: int, p: int, n: int)
    requires BlockRing(h, b, tail) && q in b && q != tail && n <= Payload(h, q) && p in b
    ensures p + HEADER <= q + HEADER || q + HEADER + n <= p
  {
    assert Linked(h, b, tail, p) && Linked(h, b, tail, q);
    assert Clear(h, q, p) && Clear(h, p, q);
  }

  lemma HeadersApart(h: Items, b: set<int>, tail: int, hs: set<int>)
    requires BlockRing(h, b, tail) && hs <= b
    ensures Spaced(hs, HEADER) && forall p | p in hs :: 0 <= p <= tail
  {
    forall p, q | p in hs && q in hs && p < q ensures p + HEADER <= q {
      assert Linked(h, b, tail, p) && Linked(h, b, tail, q) && Clear(h, p, q);
    }
    forall p | p in hs ensures 0 <= p <= tail {
      assert Linked(h, b, tail, p);
    }
  }

  lemma FlushedInMemory(m: seq<byte>, m': seq<byte>, h: Items, b: set<int>, tail: int, dirty: set<int>,
                        images: map<int, seq<byte>>)
    requires BlockRing(h, b, tail) && InMemory(m, h, b, dirty)
    requires forall q :: q in images <==> q in b && q in dirty
    requires forall q | q in images :: q in h && images[q] == HeaderBytes(h[q]) && Holds(m', q, images[q])
    requires OnlyHeaders(m, m', images.Keys, HEADER)
    ensures InMemory(m', h, b, {})
  {
    hide HeaderBytes, OnlyHeaders;
    forall q | q in images.Keys ensures q in b {
      assert q in images;
    }
    forall p | p in b ensures p in h && Holds(m', p, HeaderBytes(h[p])) {
      if p !in dirty {
        assert p !in images;
        HeaderUntouched(m, m', h, b, tail, images.Keys, p);
        HoldsKept(m, m', p, HeaderBytes(h[p]));
      }
    }
  }

  lemma HeaderUntouched(m: seq<byte>, m': seq<byte>, h: Items, b: set<int>, tail: int, hs: set<int>, p: int)
    requires BlockRing(h, b, tail) && hs <= b && p in b && p !in hs && OnlyHeaders(m, m', hs, HEADER)
    ensures |m'| == |m| && forall a | p <= a < p + HEADER && 0 <= a < |m| :: m'[a] == m[a]
  {
    forall a | p <= a < p + HEADER && 0 <= a < |m| ensures !InHeader(hs, HEADER, a) {
      forall q | q in hs ensures !(q <= a < q + HEADER) {
        assert Linked(h, b, tail, p) && Linked(h, b, tail, q) && Clear(h, p, q) && Clear(h, q, p);
      }
    }
  }

  lemma LiveApart(h: Items, b: set<int>, tail: int)
    requires BlockRing(h, b, tail)
    ensures Apart(UsedMap(h, b, tail), HEADER)
  {
    forall p, q | p in UsedMap(h, b, tail) && q in UsedMap(h, b, tail) && p != q
      ensures var u := UsedMap(h, b, tail);
              p + HEADER + u[p] <= q || q + HEADER + u[q] <= p
    {
      PayloadsDisjoint(h, b, tail, p, q);
    }
  }

  /**
   Granting `sz` bytes from free block `p`: the block is cut after `sz` bytes when
   the rest can be a block of its own, which then heads the free list.
   */
  ghost predicate Granted(h: Items, f: seq<int>, live: map<int, int>, available: int,
                          live': map<int, int>, f': seq<int>, available': int, p: int, sz: int)
  {
    && p in h && p in f && sz <= Payload(h, p)
    && var room := Payload(h, p);
       var cut := room >= sz + HEADER + MINIALLOC;
       && p !in live
       && live' == live[p := if cut then sz else room]
       && f' == (if cut then [p + sz + HEADER] else []) + Remove(f, p)
       && available' == available - (if cut then sz + HEADER else room)
  }

  /** No free block holds `sz` bytes, or the request asks for all that is available. */
  ghost predicate Refused(h: Items, f: seq<int>, available: int, sz: int) {
    NoFit(h, f, sz) || sz >= available
  }

  /** Used block `p` is long enough for `size` bytes, or can grow into the free block after it. */
  ghost predicate CanStay(h: Items, b: set<int>, tail: int, p: int, size: int)
    requires BlockRing(h, b, tail) && p in UsedMap(h, b, tail)
  {
    || size <= Payload(h, p)
    || (Linked(h, b, tail, p) && Linked(h, b, tail, h[p].next) && !h[h[p].next].used
        && Payload(h, h[p].next) + Payload(h, p) > size + MINIALLOC)
  }

  /** Of the first fit in the free list, which begins at `p`, `sz` bytes or the whole payload became live. */
  ghost predicate TookFirst(h: Items, f: seq<int>, live: map<int, int>, live': map<int, int>, p: int, sz: int) {
    && (exists k: nat :: FirstFitAt(h, f, k, sz) && f[k] == p)
    && p in h && p !in live
    && live' == live[p := if Payload(h, p) >= sz + HEADER + MINIALLOC then sz else Payload(h, p)]
  }

  /** Live block `p` was resized where it is: it grew to `sz`, or was cut down to it if the rest can be a block. */
  ghost predicate ResizedHere(live: map<int, int>, f: seq<int>, next: int, live': map<int, int>, f': seq<int>, p: int,
                              sz: int) {
    && p in live
    && if sz > live[p] || sz + HEADER + MINIALLOC < live[p] then
         live' == live[p := sz] && f' == [p + HEADER + sz] + Remove(f, next)
       else
         live' == live && f' == f
  }

  /**
   What a resize of the live block at `ptr` to `sz` bytes answers and does: it is resized where it is, or refused, or
   moves to the first fit for a request that rt_memheap_alloc rounds once more.
   */
  ghost predicate Answered(h: Items, f: seq<int>, live: map<int, int>, available: int, live': map<int, int>,
                           f': seq<int>, ptr: int, sz: nat, r: int)
    requires sz < SIZE_LIMIT
  {
    && ptr - HEADER in h && ptr - HEADER in live
    && if r == ptr then ResizedHere(live, f, h[ptr - HEADER].next, live', f', ptr - HEADER, sz)
       else if r == NIL then Refused(h, f, available, RequestSize(sz))
       else TookFirst(h, f, live, live'[ptr - HEADER := live[ptr - HEADER]], r - HEADER, RequestSize(sz))
  }

  /** Same headers, same block links, same used flags. */
  ghost predicate SameHeaders(h: Items, h': Items) {
    && h'.Keys == h.Keys
    && forall p | p in h :: h'[p].next == h[p].next && h'[p].prev == h[p].prev && h'[p].used == h[p].used
  }

  lemma SoundRing(h: Items, b: set<int>, f: seq<int>, tail: int, available: int)
    requires Sound(h, b, f, tail, available)
    ensures FreeRing(h, f) && b <= h.Keys && forall p | p in f :: IsFree(h, b, p) && p >= 0
  {
    forall p | p in f ensures IsFree(h, b, p) && p >= 0 {
      assert Linked(h, b, tail, p);
    }
  }

  lemma OneValue(x: int)
    ensures RunningMax([x], x)
  {
  }

  class Heap {
    const poolSize: int
    var availableSize: int
    var maxUsedSize: int
    var items: Items
    const mem: array<byte>  // the pool's bytes, payloads and headers alike
    var dirty: set<int>     // headers with fields set that memory does not have yet

    ghost var blocks: set<int>   // addresses of the live headers
    ghost var free: seq<int>     // the free list, in list order
    ghost var history: seq<int>  // every value pool_size - available_size has had between operations

    ghost function Tail(): int {
      poolSize - HEADER
    }

    ghost predicate Counted()
      reads this
    {
      && RunningMax(history, maxUsedSize)
      && history[|history| - 1] == poolSize - availableSize
    }

    ghost predicate Rings()
      reads this
    {
      && BlockRing(items, blocks, Tail())
      && FreeRing(items, free)
    }

    /** The headers that are not `dirty` stand in memory. */
    ghost predicate Synced()
      reads this, mem
    {
      InMemory(mem[..], items, blocks, dirty)
    }

    ghost predicate Booked()
      reads this
    {
      && mem.Length == poolSize
      && 2 * HEADER <= poolSize < POOL_LIMIT
      && Sound(items, blocks, free, Tail(), availableSize)
      && Counted()
    }

    ghost predicate Valid()
      reads this, mem
    {
      Booked() && dirty == {} && Synced()
    }

    /** The live allocations: block address to payload size. */
    ghost function Live(): map<int, int>
      reads this
      requires blocks <= items.Keys
    {
      UsedMap(items, blocks, Tail())
    }

    /** rt_memheap_init on a pool of `size` bytes; a smaller pool has no room for its two headers. */
    constructor (size: nat)
      requires 2 * HEADER <= size < POOL_LIMIT
      ensures Valid() && fresh(mem)
      ensures poolSize == size / ALIGN * ALIGN
      ensures Live() == map[] && blocks == {0, Tail()} && free == [0]
      ensures availableSize == poolSize - 2 * HEADER && maxUsedSize == 2 * HEADER
      ensures history == [2 * HEADER]
    {
      hide HeaderBytes, RunningMax;
      var pool := size / ALIGN * ALIGN;
      var tail := pool - HEADER;
      poolSize := pool;
      availableSize := pool - 2 * HEADER;
      maxUsedSize := pool - (pool - 2 * HEADER);
      items := map[
        FREE_HEADER := Item(false, NIL, NIL, 0, 0),
        0 := Item(false, tail, tail, FREE_HEADER, FREE_HEADER),
        tail := Item(true, 0, 0, NIL, NIL)
      ];
      mem := new byte[pool];
      blocks := {0, tail};
      free := [0];
      history := [2 * HEADER];
      dirty := {0, tail};
      new;
      InitialSound(items, tail);
      OneValue(2 * HEADER);
      Flush();
    }

    // ------------------------------------------------------------ link surgery

    method Unhook(p: int, ghost k: nat)
      requires FreeRing(items, free)
      requires k < |free| && free[k] == p
      requires Synced()
      modifies this`items, this`free, this`dirty
      ensures Synced()
      ensures free == Without(old(free), k)
      ensures FreeRing(items, free)
      ensures SameHeaders(old(items), items)
    {
      hide HeaderBytes;
      assert Hooked(items, free, k) && Hooked(items, free, k + 1);
      dirty := dirty + {items[p].nextFree, items[p].prevFree};
      items := items[items[p].nextFree := items[items[p].nextFree].(prevFree := items[p].prevFree)];
      items := items[items[p].prevFree := items[items[p].prevFree].(nextFree := items[p].nextFree)];
      FreeRingRemove(old(items), items, free, k);
      free := Without(free, k);
    }

    method HookFirst(p: int)
      requires FreeRing(items, free)
      requires p !in free && p != FREE_HEADER && p in items
      requires Synced()
      modifies this`items, this`free, this`dirty
      ensures Synced()
      ensures free == [p] + old(free)
      ensures FreeRing(items, free)
      ensures SameHeaders(old(items), items)
    {
      hide HeaderBytes;
      assert Hooked(items, free, 0);
      items := items[p := items[p].(nextFree := items[FREE_HEADER].nextFree, prevFree := FREE_HEADER)];
      var first := items[FREE_HEADER].nextFree;
      items := items[first := items[first].(prevFree := p)];
      items := items[FREE_HEADER := items[FREE_HEADER].(nextFree := p)];
      dirty := dirty + {p, first, FREE_HEADER};
      FreeRingPush(old(items), items, free, p);
      free := [p] + free;
    }

    /** Build a free header at `n`, inside block `p`, and link it into the block ring. */
    method LinkAfter(p: int, n: int)
      requires Rings()
      requires p in blocks && p != Tail()
      requires p + HEADER <= n && n + HEADER <= items[p].next && n % 4 == 0
      requires n !in free && n != FREE_HEADER
      requires Synced()
      modifies this`items, this`blocks, this`dirty
      ensures Synced()
      ensures Rings()
      ensures n !in old(blocks) && blocks == old(blocks) + {n}
      ensures items.Keys == old(items).Keys + {n}
      ensures items[p].next == n && items[n].next == old(items[p].next) && !items[n].used
      ensures forall q | q in old(items) && q != n :: items[q].used == old(items)[q].used
      ensures forall q | q in old(items) && q != n && q != p :: items[q].next == old(items)[q].next
    {
      hide InMemory, Hooked, Clear;
      assert Linked(items, blocks, Tail(), p);
      InsertedFits(items, blocks, Tail(), p, n);
      dirty := dirty + {n, items[p].next, p};
      items := items[n := Item(false, items[p].next, p, NIL, NIL)];
      items := items[items[p].next := items[items[p].next].(prev := n)];
      items := items[p := items[p].(next := n)];
      InMemoryLinked(mem[..], old(items), items, blocks, old(dirty), dirty, n);
      BlockRingInsert(old(items), items, blocks, Tail(), p, n);
      FreeRingMembers(old(items), free);
      FreeRingFrame(old(items), items, free);
      blocks := blocks + {n};
    }

    /** Unlink block `q` from the block ring: its bytes now belong to the block before it. */
    method Unlink(q: int)
      requires Rings()
      requires q in blocks && q != Tail() && q != 0
      requires Synced()
      modifies this`items, this`blocks, this`dirty
      ensures Synced()
      ensures Rings()
      ensures blocks == old(blocks) - {q}
      ensures items.Keys == old(items).Keys
      ensures items[q] == old(items[q])
      ensures old(items[q].prev) in blocks && items[old(items[q].prev)].next == old(items[q].next)
      ensures forall r | r in items :: items[r].used == old(items)[r].used
      ensures forall r | r in items && r != old(items[q].prev) :: items[r].next == old(items)[r].next
    {
      hide HeaderBytes;
      assert Linked(items, blocks, Tail(), q);
      dirty := dirty + {items[q].next, items[q].prev};
      items := items[items[q].next := items[items[q].next].(prev := items[q].prev)];
      items := items[items[q].prev := items[items[q].prev].(next := items[q].next)];
      BlockRingRemove(old(items), items, blocks, Tail(), q);
      FreeRingMembers(old(items), free);
      FreeRingFrame(old(items), items, free);
      blocks := blocks - {q};
    }

    /** Unhook `p` from the free ring and clear its free links. */
    method Detach(p: int, ghost k: nat)
      requires FreeRing(items, free)
      requires k < |free| && free[k] == p
      requires Synced()
      modifies this`items, this`free, this`dirty
      ensures Synced()
      ensures free == Without(old(free), k)
      ensures FreeRing(items, free)
      ensures SameHeaders(old(items), items)
    {
      hide HeaderBytes;
      assert Hooked(items, free, k) && Hooked(items, free, k + 1);
      Unhook(p, k);
      ghost var unhooked := items;
      items := items[p := items[p].(nextFree := NIL, prevFree := NIL)];
      dirty := dirty + {p};
      FreeRingMembers(unhooked, free);
      FreeRingFrame(unhooked, items, free);
    }

    /** Set the used flag in a header's magic word. */
    method MarkUsed(p: int, used: bool)
      requires Rings()
      requires p in items
      requires Synced()
      modifies this`items, this`dirty
      ensures Synced()
      ensures Rings()
      ensures items == old(items)[p := old(items)[p].(used := used)]
    {
      hide HeaderBytes;
      items := items[p := items[p].(used := used)];
      dirty := dirty + {p};
      BlockRingFrame(old(items), items, blocks, Tail());
      FreeRingMembers(old(items), free);
      FreeRingFrame(old(items), items, free);
    }

    /** The header fields set so far reach memory. */
    method Flush()
      requires BlockRing(items, blocks, Tail()) && mem.Length == poolSize && Synced()
      modifies mem, this`dirty
      ensures dirty == {} && Synced()
      ensures OnlyHeaders(old(mem[..]), mem[..], blocks, HEADER)
    {
      hide HeaderBytes, InMemory;
      var images: map<int, seq<byte>> := map[];
      var p := 0;
      assert Linked(items, blocks, Tail(), Tail());
      forall q | q in blocks ensures q >= 0 {
        assert Linked(items, blocks, Tail(), q);
      }
      while true
        invariant p in blocks
        invariant forall q :: q in images <==> q in blocks && q < p && q in dirty
        invariant forall q | q in images :: q in items && images[q] == HeaderBytes(items[q])
        decreases Tail() - p
      {
        assert Linked(items, blocks, Tail(), p);
        ghost var images1 := images;
        if p in dirty {
          images := images[p := HeaderBytes(items[p])];
        }
        if p == poolSize - HEADER {
          break;
        }
        forall q | q in blocks ensures q < items[p].next <==> q < p || q == p {
          assert Clear(items, p, q);
        }
        p := items[p].next;
      }
      forall q ensures q in images <==> q in blocks && q in dirty {
        if q in blocks {
          assert Linked(items, blocks, Tail(), q);
        }
      }
      HeadersApart(items, blocks, Tail(), images.Keys);
      StoreHeaders(mem, images, HEADER);
      MoreHeaders(old(mem[..]), mem[..], images.Keys, blocks, HEADER);
      FlushedInMemory(old(mem[..]), mem[..], items, blocks, Tail(), dirty, images);
      dirty := {};
    }

    /** Book `bytes` out of the available size and raise the high-water mark if needed. */
    method Charge(bytes: nat)
      requires Counted()
      modifies this`availableSize, this`maxUsedSize, this`history
      ensures Counted() && availableSize == old(availableSize) - bytes
      ensures history == old(history) + [poolSize - availableSize]
    {
      availableSize := availableSize - bytes;
      if poolSize - availableSize > maxUsedSize {
        maxUsedSize := poolSize - availableSize;
      }
      RunningMaxNext(history, old(maxUsedSize), poolSize - availableSize);
      history := history + [poolSize - availableSize];
    }

    // ------------------------------------------------------------ allocation

    /** The rest of rt_memheap_alloc when the block found is too small to split. */
    method TakeWhole(p: int, ghost k: nat)
      requires Booked() && Synced()
      requires k < |free| && free[k] == p && IsFree(items, blocks, p)
      modifies this
      ensures Booked() && Synced()
      ensures free == Without(old(free), k) && blocks == old(blocks)
      ensures p !in old(Live()) && Live() == old(Live())[p := old(Payload(items, p))]
      ensures availableSize == old(availableSize - Payload(items, p))
      ensures history == old(history) + [poolSize - availableSize]
    {
      hide InMemory;
      assert Linked(items, blocks, Tail(), p);
      Charge(Payload(items, p));
      Detach(p, k);
      BlockRingFrame(old(items), items, blocks, Tail());
      MarkUsed(p, true);
      TakeWholeSound(old(items), items, blocks, old(free), Tail(), old(availableSize), k);
    }

    /** Cut free block `p` at `n`; `p` leaves the free list as a used block and the new block `n` heads it. */
    method CutFree(p: int, n: int, ghost k: nat)
      requires Rings()
      requires ListsFree(items, blocks, free)
      requires k < |free| && free[k] == p && IsFree(items, blocks, p) && p != Tail()
      requires p + HEADER <= n && n + HEADER <= items[p].next && n % 4 == 0
      requires Synced()
      modifies this`items, this`blocks, this`free, this`dirty
      ensures Synced()
      ensures Rings()
      ensures n !in old(blocks) && blocks == old(blocks) + {n}
      ensures free == [n] + Without(old(free), k)
      ensures TookSplit(old(items), items, old(blocks), p, n)
    {
      hide InMemory;
      assert Linked(items, blocks, Tail(), p);
      InsertedFits(items, blocks, Tail(), p, n);
      LinkAfter(p, n);
      ghost var linked := items;
      Detach(p, k);
      HookFirst(n);
      BlockRingFrame(linked, items, blocks, Tail());
      MarkUsed(p, true);
    }

    /** The rest of rt_memheap_alloc when the block found is split after `sz` bytes. */
    method TakeSplit(p: int, sz: nat, ghost k: nat)
      requires Booked() && Synced()
      requires k < |free| && free[k] == p && IsFree(items, blocks, p)
      requires sz % 4 == 0 && sz + HEADER + MINIALLOC <= Payload(items, p)
      modifies this
      ensures Booked() && Synced()
      ensures var n := p + sz + HEADER;
              && n !in old(blocks) && blocks == old(blocks) + {n}
              && free == [n] + Without(old(free), k)
      ensures p !in old(Live()) && Live() == old(Live())[p := sz]
      ensures availableSize == old(availableSize) - sz - HEADER
      ensures history == old(history) + [poolSize - availableSize]
    {
      hide InMemory;
      var n := p + sz + HEADER;
      assert Linked(items, blocks, Tail(), p);
      CutFree(p, n, k);
      Charge(sz + HEADER);
      TakeSplitSound(old(items), items, old(blocks), old(free), Tail(), old(availableSize), k, n);
    }

    /** The free-list search of rt_memheap_alloc; `freeSize` is the size of the last block looked at. */
    method FindFree(sz: nat) returns (p: int, freeSize: int, ghost k: nat)
      requires FreeRing(items, free)
      requires 0 < sz
      ensures freeSize >= sz ==>
                FirstFitAt(items, free, k, sz) && p == free[k] && p in free
                && freeSize == Payload(items, p)
      ensures freeSize < sz ==> NoFit(items, free, sz)
    {
      FreeRingMembers(items, free);
      assert Hooked(items, free, 0);
      freeSize := 0;
      p := items[FREE_HEADER].nextFree;
      k := 0;
      while p != FREE_HEADER && freeSize < sz
        invariant 0 <= k <= |free|
        invariant NoFit(items, free[..k], sz)
        invariant freeSize < sz ==> p == At(free, k)
        invariant freeSize >= sz ==> k < |free| && p == free[k] && freeSize == Payload(items, p)
        decreases |free| - k, if freeSize < sz then 1 else 0
      {
        assert free[k] in free;
        freeSize := Payload(items, p);
        if freeSize < sz {
          assert Hooked(items, free, k + 1);
          p := items[p].nextFree;
          assert free[..k + 1] == free[..k] + [free[k]];
          k := k + 1;
        }
      }
      assert free[..|free|] == free;
      assert k < |free| ==> free[k] in free;
    }

    /** What rt_memheap_alloc does with the block it found: split it when the rest can hold a block of its own. */
    method Take(p: int, sz: nat, ghost k: nat)
      requires Valid()
      requires k < |free| && free[k] == p && IsFree(items, blocks, p)
      requires sz % 4 == 0 && sz <= Payload(items, p)
      modifies this, mem
      ensures Valid()
      ensures Granted(old(items), old(free), old(Live()), old(availableSize), Live(), free, availableSize, p, sz)
      ensures history == old(history) + [poolSize - availableSize]
      ensures AllKept(old(mem[..]), mem[..], old(Live()), HEADER)
    {
      hide InMemory;
      RemoveIsWithout(free, k);
      if Payload(items, p) >= sz + HEADER + MINIALLOC {
        TakeSplit(p, sz, k);
      } else {
        TakeWhole(p, k);
        assert [] + free == free;
      }
      Flush();
      forall q | q in old(Live()) ensures q in blocks && q != Tail() && old(Live())[q] <= Payload(items, q) {
        assert q in Live();
      }
      HeaderStoresKeepPayloads(old(mem[..]), mem[..], blocks, items, blocks, Tail(), old(Live()));
    }

    /** rt_memheap_alloc */
    method Alloc(size: nat) returns (r: int)
      requires Valid() && size < SIZE_LIMIT
      modifies this, mem
      ensures Valid()
      ensures r == NIL ==> unchanged(this) && Refused(items, free, availableSize, RequestSize(size))
      ensures r != NIL ==>
                && RequestSize(size) < old(availableSize)
                && (exists k: nat ::
                      FirstFitAt(old(items), old(free), k, RequestSize(size))
                      && r == old(free)[k] + HEADER)
                && Granted(old(items), old(free), old(Live()), old(availableSize), Live(), free, availableSize,
                           r - HEADER, RequestSize(size))
                && history == old(history) + [poolSize - availableSize]
      ensures AllKept(old(mem[..]), mem[..], old(Live()), HEADER)
    {
      hide InMemory, RunningMax, AllKept, Granted, Sound;
      SoundRing(items, blocks, free, Tail(), availableSize);
      AllKeptSame(mem[..], Live(), HEADER);
      var sz := RequestSize(size);
      r := NIL;
      if sz < availableSize {
        var p, freeSize;
        ghost var k;
        p, freeSize, k := FindFree(sz);
        if freeSize >= sz {
          Take(p, sz, k);
          r := p + HEADER;
        }
      }
    }

    // ------------------------------------------------------------ release

    /** Merge the just-freed block `x` into the free block on its left, which stays where it is in the free list. */
    method MergeLeft(x: int) returns (y: int)
      requires Pending(items, blocks, free, Tail(), availableSize, x, false, false)
      requires items[x].prev in items && !items[items[x].prev].used
      requires Synced()
      modifies this`items, this`blocks, this`availableSize, this`dirty
      ensures Synced()
      ensures y == old(items[x].prev) && x != y
      ensures availableSize == old(availableSize) + HEADER
      ensures Pending(items, blocks, free, Tail(), availableSize, y, true, true)
      ensures Live() == old(Live())
      ensures items[y].next == old(items[x].next)
      ensures blocks <= old(blocks)
    {
      hide InMemory;
      assert Linked(items, blocks, Tail(), x) && Linked(items, blocks, Tail(), Tail());
      availableSize := availableSize + HEADER;
      Unlink(x);
      y := items[x].prev;
      MergeLeftPending(old(items), items, old(blocks), free, Tail(), old(availableSize), x);
    }

    /** Merge the free block on the right of `x` into `x`. */
    method MergeRight(x: int, ghost hooked: bool)
      requires Pending(items, blocks, free, Tail(), availableSize, x, hooked, true)
      requires items[x].next in items && !items[items[x].next].used
      requires Synced()
      modifies this`items, this`blocks, this`free, this`availableSize, this`dirty
      ensures Synced()
      ensures Pending(items, blocks, free, Tail(), availableSize, x, hooked, true) && Fenced(items, x)
      ensures Live() == old(Live())
      ensures free == Remove(old(free), old(items[x].next))
      ensures availableSize == old(availableSize) + HEADER
      ensures blocks <= old(blocks)
    {
      hide InMemory;
      var n := items[x].next;
      assert Linked(items, blocks, Tail(), x) && Linked(items, blocks, Tail(), n);
      assert n in free;
      ghost var k :| 0 <= k < |free| && free[k] == n;
      availableSize := availableSize + HEADER;
      Unlink(n);
      ghost var unlinked := items;
      Unhook(n, k);
      RemoveIsWithout(old(free), k);
      BlockRingFrame(unlinked, items, blocks, Tail());
      MergeRightPending(old(items), items, old(blocks), old(free), Tail(), old(availableSize), x, hooked, k);
    }

    /** Merge the pending block with a free right neighbour, and put it on the free list if it is not on it. */
    method Settle(x: int, insertHeader: bool)
      requires Pending(items, blocks, free, Tail(), availableSize, x, !insertHeader, true)
      requires Synced()
      modifies this`items, this`blocks, this`free, this`availableSize, this`dirty
      ensures Synced()
      ensures Sound(items, blocks, free, Tail(), availableSize)
      ensures availableSize >= old(availableSize)
      ensures Live() == old(Live())
      ensures free == (if insertHeader then [x] else []) + Remove(old(free), old(items[x].next))
      ensures blocks <= old(blocks)
    {
      hide InMemory;
      assert Linked(items, blocks, Tail(), x);
      assert items[x].next in blocks;
      if !items[items[x].next].used {
        MergeRight(x, !insertHeader);
      } else {
        assert items[x].next !in free;
      }
      if insertHeader {
        ghost var settled, list := items, free;
        HookFirst(x);
        BlockRingFrame(settled, items, blocks, Tail());
        PushedSound(settled, items, blocks, list, Tail(), availableSize, x);
      } else {
        HookedSound(items, blocks, free, Tail(), availableSize, x);
        assert [] + free == free;
      }
    }

    /** Mark `p` free and merge it to the left if it can be; `x` is the block its bytes are in now. */
    method Loosen(p: int) returns (x: int, insertHeader: bool)
      requires Sound(items, blocks, free, Tail(), availableSize)
      requires p in Live()
      requires Synced()
      modifies this`items, this`blocks, this`availableSize, this`dirty
      ensures Synced()
      ensures Pending(items, blocks, free, Tail(), availableSize, x, !insertHeader, true)
      ensures Live() == old(Live()) - {p}
      ensures availableSize >= old(availableSize)
      ensures items[x].next == old(items[p].next)
      ensures insertHeader == !IsFree(old(items), old(blocks), old(items[p].prev))
      ensures insertHeader ==> x == p
      ensures blocks <= old(blocks)
    {
      hide InMemory;
      x := p;
      assert Linked(items, blocks, Tail(), p);
      assert Linked(items, blocks, Tail(), Tail());
      MarkUsed(x, false);
      availableSize := availableSize + Payload(items, x);
      MarkFreePending(old(items), items, blocks, free, Tail(), old(availableSize), p);
      insertHeader := true;
      if !items[items[x].prev].used {
        x := MergeLeft(x);
        insertHeader := false;
      } else {
        NoMergeLeftPending(items, blocks, free, Tail(), availableSize, x);
      }
    }

    /** The locked part of rt_memheap_free. */
    method Release(p: int)
      requires Booked() && Synced()
      requires p in Live()
      modifies this
      ensures Booked() && Synced()
      ensures Live() == old(Live()) - {p}
      ensures maxUsedSize == old(maxUsedSize)
      ensures history == old(history) + [poolSize - availableSize]
      ensures var left, right := old(items[p].prev), old(items[p].next);
              free == (if IsFree(old(items), old(blocks), left) then [] else [p]) + Remove(old(free), right)
      ensures blocks <= old(blocks)
    {
      hide InMemory;
      var x, insertHeader := Loosen(p);
      Settle(x, insertHeader);
      RunningMaxLower(history, maxUsedSize, poolSize - availableSize);
      history := history + [poolSize - availableSize];
    }

    /** rt_memheap_free */
    method Free(ptr: int)
      requires Valid()
      requires ptr != NIL ==> ptr - HEADER in Live()
      modifies this, mem
      ensures Valid()
      ensures ptr == NIL ==> unchanged(this)
      ensures ptr != NIL ==>
                var p := ptr - HEADER;
                var left, right := old(items[p].prev), old(items[p].next);
                && Live() == old(Live()) - {p}
                && maxUsedSize == old(maxUsedSize)
                && history == old(history) + [poolSize - availableSize]
                && free == (if IsFree(old(items), old(blocks), left) then [] else [p]) + Remove(old(free), right)
      ensures AllKept(old(mem[..]), mem[..], old(Live()), HEADER)
    {
      hide InMemory;
      if ptr == NIL {
        return;
      }
      Release(ptr - HEADER);
      Flush();
      HeaderStoresKeepPayloads(old(mem[..]), mem[..], blocks, old(items), old(blocks), Tail(), old(Live()));
    }

    // ------------------------------------------------------------ resizing

    /** Cut used block `p` at `n` in the block ring; the cut-off block is still pending. */
    method Shed(p: int, n: int, ghost available: int)
      requires Sound(items, blocks, free, Tail(), available)
      requires p in Live()
      requires p + HEADER <= n && n + HEADER <= items[p].next && n % 4 == 0
      requires Synced()
      modifies this`items, this`blocks, this`dirty
      ensures Synced()
      ensures n !in old(blocks) && blocks == old(blocks) + {n}
      ensures n in items && items[n].next == old(items[p].next)
      ensures Pending(items, blocks, free, Tail(), available + Payload(items, n), n, false, true)
      ensures Live() == old(Live())[p := n - p - HEADER]
      ensures forall q | q in old(blocks) :: items[q].used == old(items)[q].used
    {
      hide InMemory;
      assert Linked(items, blocks, Tail(), p);
      InsertedFits(items, blocks, Tail(), p, n);
      LinkAfter(p, n);
      ShedPending(old(items), items, old(blocks), free, Tail(), available, p, n);
    }

    /** Take the free block after used block `p` out of both rings, so that `p` reaches to its end. */
    method Absorb(p: int, ghost available: int)
      requires Sound(items, blocks, free, Tail(), available)
      requires p in Live()
      requires items[p].next in items && !items[items[p].next].used
      requires Synced()
      modifies this`items, this`blocks, this`free, this`dirty
      ensures Synced()
      ensures var n := old(items[p].next);
              && n in old(items)
              && blocks == old(blocks) - {n}
              && free == Remove(old(free), n)
              && Sound(items, blocks, free, Tail(), available - Payload(old(items), n))
              && p in items && items[p].next == old(items)[n].next && items[p].next in blocks
              && Live() == old(Live())[p := old(Payload(items, p)) + HEADER + Payload(old(items), n)]
              && items[items[p].next].used
              && n != Tail()
    {
      hide InMemory;
      var n := items[p].next;
      assert Linked(items, blocks, Tail(), p) && Linked(items, blocks, Tail(), n);
      assert n in free;
      ghost var k :| 0 <= k < |free| && free[k] == n;
      Unhook(n, k);
      RemoveIsWithout(old(free), k);
      BlockRingFrame(old(items), items, blocks, Tail());
      Unlink(n);
      AbsorbSound(old(items), items, old(blocks), old(free), Tail(), available, p, k);
    }

    /** The merge step of the shrinking split; `pending` is what available_size will be at the end. */
    method MergeShed(n: int, ghost pending: int) returns (ghost pending': int)
      requires Pending(items, blocks, free, Tail(), pending, n, false, true)
      requires availableSize + Payload(items, n) == pending
      requires Synced()
      modifies this`items, this`blocks, this`free, this`availableSize, this`dirty
      ensures Synced()
      ensures Pending(items, blocks, free, Tail(), pending', n, false, true) && Fenced(items, n)
      ensures availableSize + Payload(items, n) == pending' >= pending
      ensures Live() == old(Live())
      ensures free == Remove(old(free), old(items[n].next))
    {
      hide InMemory;
      assert Linked(items, blocks, Tail(), n);
      var right := items[n].next;
      pending' := pending;
      if !items[right].used {
        availableSize := availableSize - Payload(items, right);
        assert Linked(items, blocks, Tail(), right);
        assert right in free;
        ghost var k :| 0 <= k < |free| && free[k] == right;
        Unlink(right);
        ghost var unlinked := items;
        Unhook(right, k);
        RemoveIsWithout(old(free), k);
        BlockRingFrame(unlinked, items, blocks, Tail());
        MergeRightPending(old(items), items, old(blocks), old(free), Tail(), pending, n, false, k);
        pending' := pending + HEADER;
      } else {
        assert right !in free;
      }
    }

    /** Put a pending block with used neighbours at the front of the free list. */
    method HookPending(n: int, ghost pending: int)
      requires Pending(items, blocks, free, Tail(), pending, n, false, true) && Fenced(items, n)
      requires Synced()
      modifies this`items, this`free, this`dirty
      ensures Synced()
      ensures Sound(items, blocks, free, Tail(), pending)
      ensures free == [n] + old(free)
      ensures Live() == old(Live())
      ensures SameHeaders(old(items), items)
    {
      hide InMemory;
      assert Linked(items, blocks, Tail(), n);
      HookFirst(n);
      BlockRingFrame(old(items), items, blocks, Tail());
      PushedSound(old(items), items, blocks, old(free), Tail(), pending, n);
    }

    /** Cut used block `p` at `n` and put what is cut off, merged, on the free list; `available` is its new total. */
    method CutUsed(p: int, n: int) returns (ghost available: int)
      requires Sound(items, blocks, free, Tail(), availableSize)
      requires p in Live()
      requires p + HEADER <= n && n + HEADER <= items[p].next && n % 4 == 0
      requires Synced()
      modifies this`items, this`blocks, this`free, this`availableSize, this`dirty
      ensures Synced()
      ensures Sound(items, blocks, free, Tail(), available)
      ensures n in items && availableSize + Payload(items, n) == available
      ensures available >= old(availableSize) + old(items[p].next) - n - HEADER
      ensures Live() == old(Live())[p := n - p - HEADER]
      ensures free == [n] + Remove(old(free), old(items[p].next))
    {
      hide InMemory;
      Shed(p, n, availableSize);
      available := availableSize + Payload(items, n);
      available := MergeShed(n, available);
      HookPending(n, available);
    }

    /** The split at the end of rt_memheap_realloc: keep `size` bytes of `p`, free the rest. */
    method ShrinkInPlace(p: int, size: nat)
      requires Booked() && Synced()
      requires p in Live() && size % 4 == 0 && size + HEADER + MINIALLOC < Live()[p]
      modifies this
      ensures Booked() && Synced()
      ensures Live() == old(Live())[p := size]
      ensures free == [p + HEADER + size] + Remove(old(free), old(items[p].next))
      ensures availableSize > old(availableSize) && maxUsedSize == old(maxUsedSize)
      ensures history == old(history) + [poolSize - availableSize]
    {
      hide InMemory;
      var n := p + size + HEADER;
      assert Linked(items, blocks, Tail(), p);
      ghost var available := CutUsed(p, n);
      availableSize := availableSize + Payload(items, n);
      RunningMaxLower(history, maxUsedSize, poolSize - availableSize);
      history := history + [poolSize - availableSize];
    }

    /** The in-place branch of rt_memheap_realloc: `p` takes `size - old size` bytes from the free block after it. */
    method GrowInPlace(p: int, size: nat)
      requires Booked() && Synced()
      requires p in Live() && size % 4 == 0 && size > Live()[p]
      requires items[p].next in items && !items[items[p].next].used
      requires Payload(items, items[p].next) + Live()[p] > size + MINIALLOC
      modifies this
      ensures Booked() && Synced()
      ensures Live() == old(Live())[p := size]
      ensures free == [p + HEADER + size] + Remove(old(free), old(items[p].next))
      ensures availableSize == old(availableSize) - (size - old(Live())[p])
      ensures history == old(history) + [poolSize - availableSize]
    {
      hide InMemory;
      assert Linked(items, blocks, Tail(), p);
      Charge(size - Payload(items, p));
      Regrow(p, size, old(availableSize));
    }

    /** Move the boundary between used block `p` and the free block after it to the end of `size` payload bytes. */
    method Regrow(p: int, size: nat, ghost available: int)
      requires Sound(items, blocks, free, Tail(), available)
      requires p in Live() && size % 4 == 0 && size > Live()[p]
      requires items[p].next in items && !items[items[p].next].used
      requires Payload(items, items[p].next) + Live()[p] > size + MINIALLOC
      requires Synced()
      modifies this`items, this`blocks, this`free, this`dirty
      ensures Synced()
      ensures Sound(items, blocks, free, Tail(), available - (size - old(Live())[p]))
      ensures Live() == old(Live())[p := size]
      ensures free == [p + HEADER + size] + Remove(old(free), old(items[p].next))
    {
      hide InMemory, FreeRing, FreeBytes;
      var n := p + HEADER + size;
      assert Linked(items, blocks, Tail(), p);
      ghost var absorbed := available - Payload(items, items[p].next);
      Absorb(p, available);
      Shed(p, n, absorbed);
      HookPending(n, absorbed + Payload(items, n));
    }

    /** Copy the first `n` bytes of live block `ptr` into live block `dst`. */
    method Copy(ptr: int, dst: int, n: nat)
      requires Valid()
      requires ptr != dst && ptr - HEADER in Live() && dst - HEADER in Live()
      requires n <= Live()[ptr - HEADER] && n <= Live()[dst - HEADER]
      modifies mem
      ensures Valid() && SameBytes(old(mem[..]), ptr, mem[..], dst, n)
      ensures AllKept(old(mem[..]), mem[..], Live() - {dst - HEADER}, HEADER)
    {
      hide InMemory, RunningMax;
      ghost var p, q, live := ptr - HEADER, dst - HEADER, Live();
      PayloadsDisjoint(items, blocks, Tail(), p, q);
      PayloadsDisjoint(items, blocks, Tail(), q, p);
      assert Linked(items, blocks, Tail(), p) && Linked(items, blocks, Tail(), q);
      CopyBytes(mem, dst, ptr, n);
      LiveApart(items, blocks, Tail());
      PayloadStoreKeepsOthers(old(mem[..]), mem[..], live, HEADER, q, n);
      PayloadStoreKeepsHeaders(old(mem[..]), mem[..], items, blocks, Tail(), q, n);
    }

    /** Copy the first `n` bytes of live block `ptr` into live block `dst`, then free `ptr`. */
    method CopyAndFree(ptr: int, dst: int, n: nat)
      requires Valid()
      requires ptr != dst && ptr - HEADER in Live() && dst - HEADER in Live()
      requires n <= Live()[ptr - HEADER] && n <= Live()[dst - HEADER]
      modifies this, mem
      ensures Valid()
      ensures Live() == old(Live()) - {ptr - HEADER}
      ensures SameBytes(old(mem[..]), ptr, mem[..], dst, n)
      ensures AllKept(old(mem[..]), mem[..], old(Live()) - {ptr - HEADER, dst - HEADER}, HEADER)
    {
      hide InMemory, RunningMax;
      ghost var p, q, live := ptr - HEADER, dst - HEADER, Live();
      assert Linked(items, blocks, Tail(), q);
      Copy(ptr, dst, n);
      ghost var m := mem[..];
      Free(ptr);
      assert Kept(m, mem[..], q + HEADER, live[q]);
      KeptBytes(m, mem[..], dst, live[q], n);
      KeptTrans(old(mem[..]), m, mem[..], live - {q}, live, live - {p, q}, HEADER);
    }

    /** rt_memheap_alloc as its callers see it: some new block, big enough, or nothing at all. */
    method AllocBlock(size: nat) returns (r: int)
      requires Valid() && size < SIZE_LIMIT
      modifies this, mem
      ensures Valid()
      ensures r == NIL ==> unchanged(this) && Refused(items, free, availableSize, RequestSize(size))
      ensures r != NIL ==>
                && NewBlock(old(Live()), Live(), r - HEADER, RequestSize(size))
                && TookFirst(old(items), old(free), old(Live()), Live(), r - HEADER, RequestSize(size))
      ensures AllKept(old(mem[..]), mem[..], old(Live()), HEADER)
    {
      hide InMemory;
      r := Alloc(size);
    }

    /** The allocate-copy-free path of rt_memheap_realloc. */
    method Move(ptr: int, oldSize: nat, size: nat) returns (r: int)
      requires Valid() && size < SIZE_LIMIT && size <= RequestSize(size)
      requires ptr - HEADER in Live() && oldSize == Live()[ptr - HEADER] && oldSize < size
      modifies this, mem
      ensures Valid()
      ensures r == NIL ==>
                && unchanged(this) && AllKept(old(mem[..]), mem[..], old(Live()), HEADER)
                && Refused(items, free, availableSize, RequestSize(size))
      ensures r != NIL ==>
                && r - HEADER !in old(Live())
                && TookFirst(old(items), old(free), old(Live()), Live()[ptr - HEADER := oldSize], r - HEADER,
                             RequestSize(size))
                && Resized(old(Live()), old(mem[..]), Live(), mem[..], HEADER, ptr - HEADER, r - HEADER, size)
    {
      hide InMemory;
      r := AllocBlock(size);
      if r != NIL {
        ghost var m, live := mem[..], Live();
        CopyAndFree(ptr, r, if oldSize < size then oldSize else size);
        MoveResizes(old(mem[..]), m, mem[..], old(Live()), live, Live(), HEADER, ptr - HEADER, r - HEADER, size,
                    RequestSize(size));
        assert Live()[ptr - HEADER := oldSize] == live;
      }
    }

    /** True when rt_memheap_realloc can keep live block `p` where it is. */
    ghost predicate StaysInPlace(p: int, size: nat)
      requires Sound(items, blocks, free, Tail(), availableSize)
      requires p in Live()
      reads this
    {
      CanStay(items, blocks, Tail(), p, size)
    }

    /** The two in-place branches of rt_memheap_realloc that move the end of block `p`, with their header stores. */
    method MoveEnd(p: int, size: nat)
      requires Valid()
      requires p in Live() && size % 4 == 0 && StaysInPlace(p, size)
      requires size > Live()[p] || size + HEADER + MINIALLOC < Live()[p]
      modifies this, mem
      ensures Valid()
      ensures Live() == old(Live())[p := size]
      ensures free == [p + HEADER + size] + Remove(old(free), old(items[p].next))
      ensures AllKept(old(mem[..]), mem[..], old(Live())[p := Min(old(Live())[p], size)], HEADER)
    {
      hide InMemory;
      ghost var live := Live()[p := Min(Live()[p], size)];
      if size > Payload(items, p) {
        GrowInPlace(p, size);
      } else {
        ShrinkInPlace(p, size);
      }
      Flush();
      forall q | q in live ensures q in blocks && q != Tail() && live[q] <= Payload(items, q) {
        assert q in Live();
      }
      HeaderStoresKeepPayloads(old(mem[..]), mem[..], blocks, items, blocks, Tail(), live);
    }

    /** The branches of rt_memheap_realloc that return the same address. */
    method Keep(p: int, size: nat)
      requires Valid()
      requires p in Live() && p in items && size % 4 == 0 && StaysInPlace(p, size)
      modifies this, mem
      ensures Valid()
      ensures Resized(old(Live()), old(mem[..]), Live(), mem[..], HEADER, p, p, size)
      ensures ResizedHere(old(Live()), old(free), old(items[p].next), Live(), free, p, size)
    {
      hide InMemory, RunningMax, FreeRing, FreeBytes;
      assert Linked(items, blocks, Tail(), p) && Linked(items, blocks, Tail(), items[p].next);
      var oldSize := Payload(items, p);
      ghost var n, m := Min(oldSize, size), mem[..];
      ghost var live, kept := Live(), Live()[p := n];
      if size > oldSize || size + HEADER + MINIALLOC < oldSize {
        MoveEnd(p, size);
      } else {
        assert mem[..] == m;
        assert AllKept(m, mem[..], kept, HEADER);
      }
      assert AllKept(m, mem[..], kept, HEADER) && p in kept;
      KeptBytes(m, mem[..], p + HEADER, n, n);
      KeptTrans(m, m, mem[..], kept, kept, live - {p}, HEADER);
    }

    /** rt_memheap_realloc of a live block to a rounded size. */
    method Resize(ptr: int, size: nat) returns (r: int)
      requires Valid()
      requires ptr - HEADER in Live() && size % 4 == 0 && 0 < size <= SIZE_LIMIT - ALIGN
      requires size <= REALLOC_LIMIT || RightUsed(ptr - HEADER)
      modifies this, mem
      ensures Valid()
      ensures r == ptr <==> old(StaysInPlace(ptr - HEADER, size))
      ensures ptr - HEADER in old(items)
      ensures Answered(old(items), old(free), old(Live()), old(availableSize), Live(), free, ptr, size, r)
      ensures r == NIL ==> unchanged(this) && AllKept(old(mem[..]), mem[..], old(Live()), HEADER)
      ensures r != NIL ==> Resized(old(Live()), old(mem[..]), Live(), mem[..], HEADER, ptr - HEADER, r - HEADER, size)
    {
      hide InMemory, RunningMax, FreeRing, FreeBytes, Coalesced, CanStay, Resized, ResizedHere, TookFirst, Refused,
          AlignUp;
      var p := ptr - HEADER;
      AlignUpExact(size);
      GrowTest(items, blocks, free, Tail(), availableSize, p, size);
      hide Sound;
      var oldSize := Payload(items, p);
      var fits := size <= oldSize;
      if size > oldSize && !items[items[p].next].used {
        var nextSize := Payload(items, items[p].next);
        fits := FitsInPlace(nextSize, oldSize, size);
      }
      if fits {
        Keep(p, size);
        r := ptr;
      } else {
        r := Move(ptr, oldSize, size);
      }
    }

    /** The block after `p` is used. */
    ghost predicate RightUsed(p: int)
      reads this
    {
      p in items && items[p].next in items && items[items[p].next].used
    }

    /**
     rt_memheap_realloc.  A request that rounds to 2^64 - 8 overflows the growth test, so
     it is excluded where that test is made: for a block with a free block after it.
     */
    method Realloc(ptr: int, newSize: nat) returns (r: int)
      requires Valid()
      requires newSize < SIZE_LIMIT
      requires ptr != NIL ==> ptr - HEADER in Live() && (REALLOC_LIMIT < newSize <= SIZE_LIMIT - ALIGN
                                                         ==> RightUsed(ptr - HEADER))
      modifies this, mem
      ensures Valid()
      ensures newSize == 0 ==>
                && r == NIL && AllKept(old(mem[..]), mem[..], old(Live()), HEADER)
                && if ptr == NIL then unchanged(this) else Live() == old(Live()) - {ptr - HEADER}
      ensures newSize != 0 && r == NIL ==> unchanged(this) && AllKept(old(mem[..]), mem[..], old(Live()), HEADER)
      ensures newSize != 0 && ptr == NIL && r == NIL ==>
                Refused(items, free, availableSize, RequestSize(RequestSize(newSize)))
      ensures newSize != 0 && ptr == NIL && r != NIL ==>
                && NewBlock(old(Live()), Live(), r - HEADER, RequestSize(newSize))
                && TookFirst(old(items), old(free), old(Live()), Live(), r - HEADER, RequestSize(RequestSize(newSize)))
                && AllKept(old(mem[..]), mem[..], old(Live()), HEADER)
      ensures newSize != 0 && ptr != NIL ==>
                && (r == ptr <==> old(StaysInPlace(ptr - HEADER, RequestSize(newSize))))
                && Answered(old(items), old(free), old(Live()), old(availableSize), Live(), free, ptr,
                            RequestSize(newSize), r)
                && (r != NIL ==>
                      Resized(old(Live()), old(mem[..]), Live(), mem[..], HEADER, ptr - HEADER, r - HEADER,
                              RequestSize(newSize)))
    {
      hide InMemory, RunningMax, AllKept, NewBlock, Resized, Sound, BlockRing, AlignUp, Counted, StaysInPlace, Answered,
          Refused, TookFirst;
      SoundRing(items, blocks, free, Tail(), availableSize);
      if newSize == 0 {
        Free(ptr);
        return NIL;
      }
      AlignUpExact(newSize);
      if ptr == NIL {
        r := AllocRounded(newSize);
      } else {
        r := Resize(ptr, RequestSize(newSize));
      }
    }

    /** rt_memheap_realloc of NULL rounds the request, and rt_memheap_alloc rounds it again. */
    method AllocRounded(size: nat) returns (r: int)
      requires Valid() && size < SIZE_LIMIT
      modifies this, mem
      ensures Valid()
      ensures r == NIL ==> unchanged(this) && Refused(items, free, availableSize, RequestSize(RequestSize(size)))
      ensures r != NIL ==>
                && NewBlock(old(Live()), Live(), r - HEADER, RequestSize(size))
                && TookFirst(old(items), old(free), old(Live()), Live(), r - HEADER, RequestSize(RequestSize(size)))
      ensures AllKept(old(mem[..]), mem[..], old(Live()), HEADER)
    {
      hide InMemory, RunningMax, AllKept, Sound, AlignUp, TookFirst, Refused;
      AlignUpExact(size);
      AlignUpExact(RequestSize(size));
      r := AllocBlock(RequestSize(size));
    }
  }

  /** The branches of rt_memheap_realloc up to the growth test say whether block `p` stays. */
  lemma GrowTest(h: Items, b: set<int>, f: seq<int>, tail: int, available: int, p: int, size: nat)
    requires Sound(h, b, f, tail, available) && tail < POOL_LIMIT && p in UsedMap(h, b, tail)
    requires size <= REALLOC_LIMIT || (p in h && h[p].next in h && h[h[p].next].used)
    ensures p >= 0 && p in h && h[p].next in h && Payload(h, p) == UsedMap(h, b, tail)[p] >= 0
    ensures !h[h[p].next].used ==> Payload(h, h[p].next) >= 0
    ensures CanStay(h, b, tail, p, size) <==>
            size <= Payload(h, p)
            || (!h[h[p].next].used && FitsInPlace(Payload(h, h[p].next), Payload(h, p), size))
  {
    hide FreeRing, FreeBytes, FitsInPlace;
    var n := h[p].next;
    assert Linked(h, b, tail, p) && Linked(h, b, tail, n) && Linked(h, b, tail, tail);
    if !h[n].used {
      assert Linked(h, b, tail, h[n].next);
      if size > Payload(h, p) {
        GrowGuardExact(Payload(h, n), Payload(h, p), size);
      }
    }
  }

  lemma GrowGuardExact(nextSize: nat, oldSize: nat, size: nat)
    requires nextSize + oldSize < POOL_LIMIT && size <= REALLOC_LIMIT
    ensures FitsInPlace(nextSize, oldSize, size) <==> nextSize + oldSize > size + MINIALLOC
  {
    assert (size + MINIALLOC) % SIZE_LIMIT == size + MINIALLOC;
  }

  /**
   The growth test compares real sizes for every rounded request up to
   REALLOC_LIMIT.  The next one overflows it, and then the test succeeds
   whatever is free.
   */
  lemma GrowGuardOverflow(nextSize: nat, oldSize: nat, size: nat)
    requires nextSize + oldSize < POOL_LIMIT && size < SIZE_LIMIT && size % ALIGN == 0 && nextSize >= MINIALLOC
    ensures (FitsInPlace(nextSize, oldSize, size) <==> nextSize + oldSize > size + MINIALLOC) <==> size <= REALLOC_LIMIT
  {
    if size <= REALLOC_LIMIT {
      GrowGuardExact(nextSize, oldSize, size);
    } else {
      assert size == SIZE_LIMIT - ALIGN;
      assert (size + MINIALLOC) % SIZE_LIMIT == MINIALLOC - ALIGN;
    }
  }

  /**
   With a request that rounds to 2^64 - 8, the growth test passes whatever is free, and
   the address computed for the free block that would be left wraps around to the last
   word of the block's own header.
   */
  lemma GrowOverflowHits(nextSize: nat, oldSize: nat, size: nat, p: nat)
    requires nextSize + oldSize < POOL_LIMIT && nextSize >= MINIALLOC && REALLOC_LIMIT < size < SIZE_LIMIT
             && size % ALIGN == 0
    requires p + HEADER < SIZE_LIMIT
    ensures FitsInPlace(nextSize, oldSize, size)
    ensures (p + HEADER + size) % SIZE_LIMIT == p + HEADER - ALIGN
    ensures InHeader({p}, HEADER, p + HEADER - ALIGN)
  {
    assert size == SIZE_LIMIT - ALIGN;
    assert (size + MINIALLOC) % SIZE_LIMIT == MINIALLOC - ALIGN;
    assert p + HEADER + size == p + HEADER - ALIGN + SIZE_LIMIT;
    assert p in {p};
  }
}
