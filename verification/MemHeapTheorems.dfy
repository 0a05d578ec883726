/** What the memheap invariants amount to for the users of a pool. */
module MemHeapTheorems {
  import opened Machine
  import opened HeapBytes
  import opened MemHeapRings
  import opened MemHeap

  /** The live blocks alone fix the blocks, their links and flags, and the available size. */
  lemma PoolCanonical(h1: Items, b1: set<int>, f1: seq<int>, a1: int, h2: Items, b2: set<int>, f2: seq<int>, a2: int,
                      tail: int)
    requires Sound(h1, b1, f1, tail, a1) && Sound(h2, b2, f2, tail, a2)
    requires UsedMap(h1, b1, tail) == UsedMap(h2, b2, tail)
    ensures b1 == b2 && a1 == a2
    ensures forall p | p in b1 :: h1[p].used == h2[p].used && h1[p].next == h2[p].next && h1[p].prev == h2[p].prev
  {
    LayoutCanonical(h1, b1, h2, b2, tail);
    forall p ensures p in f1 <==> p in f2 {
      assert p in f1 <==> IsFree(h1, b1, p);
      assert p in f2 <==> IsFree(h2, b2, p);
    }
    DistinctMultiset(f1);
    DistinctMultiset(f2);
    FreeBytesOrder(h1, f1, f2);
    FreeBytesFrame(h1, h2, f2);
  }

  /**
   The strict comparison in rt_memheap_alloc turns a request away although some
   free block could hold it in exactly one case: it asks for all available bytes.
   For any other request, being turned away means that no free block is big enough.
   (Alloc refuses when `NoFit` or `size >= available`.)
   */
  lemma AllocRefusesOnlyTheLastFit(h: Items, b: set<int>, f: seq<int>, tail: int, available: int, size: nat)
    requires Sound(h, b, f, tail, available)
    ensures !NoFit(h, f, size) ==> (size >= available <==> size == available)
    ensures size > available ==> NoFit(h, f, size)
  {
    forall p | p in f ensures p in h && Payload(h, p) >= 0 {
      assert IsFree(h, b, p) && Linked(h, b, tail, p);
    }
    FreeBytesNonNegative(h, f);
  }

  /**
   A granted block holds the bytes asked for, and less than 8 more or the least block, unless rounding the request
   wraps around.
   */
  lemma GrantCoversRequest(size: nat)
    requires size < SIZE_LIMIT
    ensures RequestSize(size) >= size <==> size <= SIZE_LIMIT - ALIGN
    ensures ALIGN < size <= SIZE_LIMIT - ALIGN ==> RequestSize(size) < size + ALIGN && RequestSize(size) % ALIGN == 0
    ensures size <= ALIGN || size > SIZE_LIMIT - ALIGN ==> RequestSize(size) == MINIALLOC
    ensures RequestSize(size) % 4 == 0
  {
    AlignUpExact(size);
  }

  /** A block that was granted is as long as asked for, or a rest too short to be a block goes with it. */
  lemma GrantExact(h: Items, f: seq<int>, live: map<int, int>, available: int, live': map<int, int>, f': seq<int>,
                   available': int, p: int, sz: int)
    requires Granted(h, f, live, available, live', f', available', p, sz)
    ensures p in live' && sz <= live'[p] < sz + HEADER + MINIALLOC
    ensures live'[p] == Payload(h, p) || (live'[p] == sz && Payload(h, p) - sz - HEADER >= MINIALLOC)
    ensures available' == available - live'[p] - if live'[p] == Payload(h, p) then 0 else HEADER
  {
  }

  /** A block can grow where it is exactly if right behind it a free block begins that leaves more than the minimum. */
  lemma GrowsInPlaceExact(h: Items, b: set<int>, f: seq<int>, tail: int, available: int, p: int, size: int)
    requires Sound(h, b, f, tail, available) && p in UsedMap(h, b, tail) && size > UsedMap(h, b, tail)[p]
    ensures var n := p + HEADER + UsedMap(h, b, tail)[p];
            CanStay(h, b, tail, p, size) <==>
              n in f && n in h && Payload(h, n) - (size - UsedMap(h, b, tail)[p]) > MINIALLOC
  {
    hide FreeRing, FreeBytes;
    assert Linked(h, b, tail, p) && Linked(h, b, tail, h[p].next);
  }

  /** A fresh pool refuses the size of its only free block. */
  method LastFitRefused(poolSize: nat) returns (heap: Heap, r: int)
    requires 2 * HEADER + MINIALLOC <= poolSize < POOL_LIMIT
    ensures heap.Valid() && r == NIL
    ensures !NoFit(heap.items, heap.free, heap.availableSize)
  {
    hide InMemory;
    heap := new Heap(poolSize);
    var size := heap.availableSize;
    AlignUpExact(size);
    assert heap.free[0] in heap.free;
    FreshBlock(heap.items, heap.blocks, heap.free, heap.Tail(), heap.availableSize);
    r := heap.Alloc(size);
  }

  /** The one free block of a fresh pool. */
  lemma FreshBlock(h: Items, b: set<int>, f: seq<int>, tail: int, available: int)
    requires Sound(h, b, f, tail, available) && f == [0]
    ensures 0 in h && Payload(h, 0) == available
  {
    assert 0 in f;
    assert IsFree(h, b, 0);
    assert f[1..] == [];
    assert FreeBytes(h, f) == Payload(h, f[0]) + FreeBytes(h, f[1..]);
  }

  /** A fresh pool grants a request of 2^64 - 1 bytes, with a block of at most the pool. */
  method WrappedGranted(poolSize: nat) returns (heap: Heap, r: int)
    requires 2 * HEADER + 2 * ALIGN <= poolSize < POOL_LIMIT
    ensures heap.Valid() && r - HEADER in heap.Live() && heap.Live()[r - HEADER] < SIZE_LIMIT - 1
  {
    hide InMemory;
    heap := new Heap(poolSize);
    AlignUpExact(SIZE_LIMIT - 1);
    assert heap.free[0] in heap.free;
    FreshBlock(heap.items, heap.blocks, heap.free, heap.Tail(), heap.availableSize);
    r := heap.Alloc(SIZE_LIMIT - 1);
  }

  /**
   The bytes of the headers say everything about the rings: two pools with the same headers in
   memory have the same links.
   */
  lemma BytesDetermineRings(m: seq<byte>, h1: Items, h2: Items, b: set<int>)
    requires b <= h1.Keys && b <= h2.Keys && InMemory(m, h1, b, {}) && InMemory(m, h2, b, {})
    requires forall p | p in b :: Offsets(h1[p]) && Offsets(h2[p])
    ensures forall p | p in b :: h1[p] == h2[p]
  {
    hide HeaderBytes;
    forall p | p in b ensures h1[p] == h2[p] {
      assert Holds(m, p, HeaderBytes(h1[p]));
      assert Holds(m, p, HeaderBytes(h2[p]));
      HeaderExact(h1[p], h2[p]);
    }
  }

  /** Freeing every live block, in any order, brings the pool back to its single free block. */
  method FreeAll(heap: Heap, order: seq<int>)
    requires heap.Valid()
    requires forall p :: p in order <==> p in heap.Live()
    requires forall i, j | 0 <= i < j < |order| :: order[i] != order[j]
    modifies heap, heap.mem
    ensures heap.Valid()
    ensures heap.Live() == map[]
    ensures heap.blocks == {0, heap.Tail()} && heap.free == [0]
    ensures heap.availableSize == heap.poolSize - 2 * HEADER
  {
    hide InMemory;
    for i := 0 to |order|
      invariant heap.Valid()
      invariant forall p :: p in order[i..] <==> p in heap.Live()
    {
      assert order[i] in order[i..];
      assert order[i..] == [order[i]] + order[i + 1..];
      assert Linked(heap.items, heap.blocks, heap.Tail(), order[i]);
      heap.Free(order[i] + HEADER);
    }
    assert heap.Live() == map[];
    EmptyIsInitial(heap.items, heap.blocks, heap.free, heap.Tail(), heap.availableSize);
  }
}
