/** The small-memory heap of mem.c: first fit from a cached lowest free block, with usage statistics. */
module SmallHeap {
  import opened HeapBytes
  import opened Machine
  import opened SmallHeapBlocks

  /** The size an allocation request is rounded to. */
  function RequestSize(size: nat): (r: nat)
    requires size < SIZE_LIMIT
  {
    if AlignUp(size) < MIN_SIZE then MIN_SIZE else AlignUp(size)
  }

  /** Granting `sz` bytes from free block `p`: the block is cut after them when the rest can be a minimal block. */
  ghost predicate Granted(h: Blocks, live: map<int, int>, used: int, live': map<int, int>, used': int, p: int,
                          sz: int) {
    && p in h && sz <= Payload(h, p)
    && var len := if Payload(h, p) >= sz + HEADER + MIN_SIZE then sz else Payload(h, p);
    && p !in live
    && live' == live[p := len]
    && used' == used + len + HEADER
  }

  /** The loop guard of rt_malloc's search, in 64-bit arithmetic. */
  predicate SearchGuard(memSize: int, size: int, ptr: int) {
    ptr < (memSize - size) % SIZE_LIMIT
  }

  /** Its test of the block it is at. */
  predicate SearchHit(h: Blocks, size: int, ptr: int)
    requires ptr in h
  {
    !h[ptr].used && h[ptr].next - (ptr + HEADER) >= size
  }

  lemma SolidChain(h: Blocks, b: set<int>, end: int, used: int)
    requires Solid(h, b, end, used)
    ensures Chain(h, b, end) && forall p | p in b :: p >= 0
  {
    forall p | p in b ensures p >= 0 {
      assert Linked(h, b, end, p);
    }
  }

  /** Of the lowest free block that fits, which begins at `p`, `sz` bytes or the whole payload became live. */
  ghost predicate TookLowest(h: Blocks, b: set<int>, live: map<int, int>, live': map<int, int>, memSize: int, p: int,
                             sz: int) {
    && LowestFit(h, b, p, sz, memSize - sz) && p in h && p !in live
    && live' == live[p := if Payload(h, p) >= sz + HEADER + MIN_SIZE then sz else Payload(h, p)]
  }

  /**
   What a resize of the live block at `rmem` to `sz` bytes answers and does: it is cut down where it is, or refused,
   or moves to the lowest fit.
   */
  ghost predicate Answered(h: Blocks, b: set<int>, live: map<int, int>, live': map<int, int>, memSize: int, rmem: int,
                           sz: nat, r: int)
    requires sz < SIZE_LIMIT
  {
    && rmem - HEADER in live
    && if r == rmem then live' == live[rmem - HEADER := sz]
       else if r == NIL then NoFit(h, b, RequestSize(sz), memSize - RequestSize(sz))
       else TookLowest(h, b, live, live'[rmem - HEADER := live[rmem - HEADER]], memSize, r - HEADER, RequestSize(sz))
  }

  class Heap {
    const memSize: int    // mem_size_aligned
    var heap: Blocks      // the headers, by offset from heap_ptr
    var lfree: int        // the lowest free block
    var usedMem: int
    var maxMem: int
    const mem: array<byte>
    var dirty: set<int>   // headers with fields set that memory does not have yet

    ghost var blocks: set<int>
    ghost var history: seq<int>  // every value used_mem has had between operations

    /** No live block is empty, so every block pointer lies below heap_end. */
    ghost predicate NonEmpty(live: map<int, int>) {
      forall p | p in live :: live[p] > 0
    }

    /** The offset of heap_end. */
    function End(): int {
      memSize + HEADER
    }

    ghost predicate Counted()
      reads this
    {
      && RunningMax(history, maxMem)
      && history[|history| - 1] == usedMem
    }

    ghost predicate Sound()
      reads this
    {
      && Solid(heap, blocks, End(), usedMem)
      && LowestFree(heap, blocks, End(), lfree)
    }

    /** The headers that are not `dirty` stand in memory. */
    ghost predicate Synced()
      reads this, mem
    {
      InMemory(mem[..], heap, blocks, dirty)
    }

    ghost predicate Valid()
      reads this, mem
    {
      Booked() && dirty == {} && Synced()
    }

    ghost predicate Booked()
      reads this
    {
      && memSize % ALIGN == 0
      && MIN_SIZE <= memSize < SIZE_LIMIT - 2 * HEADER
      && mem.Length == memSize + 2 * HEADER
      && Sound()
      && NonEmpty(Live())
      && Counted()
    }

    ghost function Live(): map<int, int>
      reads this
      requires blocks <= heap.Keys
    {
      UsedMap(heap, blocks, End())
    }

    /** rt_system_heap_init over `area` aligned bytes, for areas whose payload can hold one minimal block. */
    constructor (area: nat)
      requires area % ALIGN == 0 && 2 * HEADER + MIN_SIZE <= area < SIZE_LIMIT
      ensures Valid() && fresh(mem)
      ensures memSize == area - 2 * HEADER
      ensures Live() == map[] && blocks == {0, End()} && lfree == 0
      ensures usedMem == 0 && maxMem == 0 && history == [0]
    {
      hide HeaderBytes;
      var size := area - 2 * HEADER;
      memSize := size;
      heap := map[
        0 := Block(false, size + HEADER, 0),
        size + HEADER := Block(true, size + HEADER, size + HEADER)
      ];
      lfree := 0;
      usedMem, maxMem := 0, 0;
      mem := new byte[area];
      blocks := {0, size + HEADER};
      history := [0];
      dirty := {0, size + HEADER};
      new;
      InitialSolid(heap, End());
      Flush();
    }

    /** The header fields set so far reach memory. */
    method Flush()
      requires Chain(heap, blocks, End()) && mem.Length == memSize + 2 * HEADER && Synced()
      modifies mem, this`dirty
      ensures dirty == {} && Synced()
      ensures OnlyHeaders(old(mem[..]), mem[..], blocks, HEADER)
    {
      hide HeaderBytes, InMemory;
      var images: map<int, seq<byte>> := map[];
      var p := 0;
      forall q | q in blocks ensures 0 <= q <= End() {
        assert Linked(heap, blocks, End(), q);
      }
      while true
        invariant p in blocks
        invariant forall q :: q in images <==> q in blocks && q < p && q in dirty
        invariant forall q | q in images :: q in heap && images[q] == HeaderBytes(heap[q])
        decreases End() - p
      {
        assert Linked(heap, blocks, End(), p);
        ghost var images1 := images;
        if p in dirty {
          images := images[p := HeaderBytes(heap[p])];
        }
        if p == memSize + HEADER {
          break;
        }
        forall q | q in blocks ensures q < heap[p].next <==> q < p || q == p {
          assert Clear(heap, p, q);
        }
        p := heap[p].next;
      }
      forall q ensures q in images <==> q in blocks && q in dirty {
      }
      HeadersApart(heap, blocks, End(), images.Keys);
      StoreHeaders(mem, images, HEADER);
      MoreHeaders(old(mem[..]), mem[..], images.Keys, blocks, HEADER);
      FlushedInMemory(old(mem[..]), mem[..], heap, blocks, End(), dirty, images);
      dirty := {};
    }

    /** Add `bytes` to used_mem and raise the high-water mark if needed. */
    method Charge(bytes: nat)
      requires Counted()
      modifies this`usedMem, this`maxMem, this`history
      ensures Counted() && usedMem == old(usedMem) + bytes
      ensures history == old(history) + [usedMem]
    {
      usedMem := usedMem + bytes;
      if maxMem < usedMem {
        maxMem := usedMem;
      }
      RunningMaxNext(history, old(maxMem), usedMem);
      history := history + [usedMem];
    }

    // ------------------------------------------------------------ plug_holes

    /** Join the free block after `x` to `x`. */
    method JoinRight(x: int)
      requires Pending(heap, blocks, End(), usedMem, x, false)
      requires heap[x].next in heap && !heap[heap[x].next].used && heap[x].next != End()
      requires Synced()
      modifies this`heap, this`blocks, this`dirty
      ensures Synced()
      ensures Pending(heap, blocks, End(), usedMem, x, false) && Fenced(heap, x)
      ensures blocks == old(blocks) - {old(heap[x].next)}
      ensures heap.Keys == old(heap).Keys && forall q | q in heap :: heap[q].used == old(heap)[q].used
      ensures Live() == old(Live())
      ensures heap[x].prev == old(heap[x].prev)
      ensures blocks <= old(blocks)
    {
      hide HeaderBytes;
      var n := heap[x].next;
      assert Linked(heap, blocks, End(), x) && Linked(heap, blocks, End(), n);
      heap := heap[x := heap[x].(next := heap[n].next)];
      heap := heap[heap[n].next := heap[heap[n].next].(prev := x)];
      dirty := dirty + {x, heap[n].next};
      ChainJoin(old(heap), heap, blocks, End(), n);
      JoinRightPending(old(heap), heap, blocks, End(), usedMem, x, false);
      blocks := blocks - {n};
    }

    /** Join `x` to the free block before it. */
    method JoinLeft(x: int)
      requires Pending(heap, blocks, End(), usedMem, x, false) && Fenced(heap, x)
      requires heap[x].prev in heap && heap[x].prev != x && !heap[heap[x].prev].used
      requires Synced()
      modifies this`heap, this`blocks, this`dirty
      ensures Synced()
      ensures Solid(heap, blocks, End(), usedMem)
      ensures blocks == old(blocks) - {x}
      ensures heap.Keys == old(heap).Keys && forall q | q in heap :: heap[q].used == old(heap)[q].used
      ensures Live() == old(Live())
      ensures blocks <= old(blocks)
    {
      hide HeaderBytes;
      var p := heap[x].prev;
      assert Linked(heap, blocks, End(), x) && Linked(heap, blocks, End(), p);
      dirty := dirty + {p, heap[x].next};
      heap := heap[p := heap[p].(next := heap[x].next)];
      heap := heap[heap[x].next := heap[heap[x].next].(prev := p)];
      ChainJoin(old(heap), heap, blocks, End(), x);
      JoinLeftSolid(old(heap), heap, blocks, End(), usedMem, x);
      blocks := blocks - {x};
    }

    /**
     plug_holes.  Because rt_free and rt_realloc lower `lfree` first, neither of the
     two adjustments of `lfree` here ever takes effect.
     */
    method PlugHoles(x: int)
      requires Pending(heap, blocks, End(), usedMem, x, false)
      requires LowestFree(heap, blocks, End(), lfree)
      requires Synced()
      modifies this`heap, this`blocks, this`lfree, this`dirty
      ensures Synced()
      ensures Sound()
      ensures lfree == old(lfree)
      ensures Live() == old(Live())
      ensures old(heap[x].prev in heap && heap[heap[x].prev].used) ==> x in blocks
      ensures blocks <= old(blocks)
    {
      hide InMemory;
      var nmem, lowest := heap[x].next, lfree;
      assert Linked(heap, blocks, End(), x) && Linked(heap, blocks, End(), nmem);
      if x != nmem && !heap[nmem].used && nmem != End() {
        if lowest == nmem {
          lowest := x;
        }
        JoinRight(x);
      }
      var pmem := heap[x].prev;
      assert Linked(heap, blocks, End(), x);
      if pmem != x && !heap[pmem].used {
        assert IsFree(old(heap), old(blocks), pmem);
        if lowest == x {
          lowest := pmem;
        }
        JoinLeft(x);
      } else {
        NoJoinSolid(heap, blocks, End(), usedMem, x);
      }
      lfree := lowest;
      assert forall q | IsFree(heap, blocks, q) :: IsFree(old(heap), old(blocks), q);
      assert IsFree(old(heap), old(blocks), x) && IsFree(old(heap), old(blocks), lfree);
    }

    // ------------------------------------------------------------ rt_malloc

    /** The search of rt_malloc: the lowest eligible block, or no block. */
    method Search(sz: nat) returns (found: bool, p: int)
      requires Valid() && sz <= memSize
      ensures found ==> LowestFit(heap, blocks, p, sz, memSize - sz)
      ensures !found ==> NoFit(heap, blocks, sz, memSize - sz)
    {
      hide InMemory, RunningMax, Solid;
      SolidChain(heap, blocks, End(), usedMem);
      p := lfree;
      ghost var limit := memSize - sz;
      assert (memSize - sz) % SIZE_LIMIT == limit;
      while SearchGuard(memSize, sz, p)
        invariant p in blocks && p >= 0
        invariant forall q | Eligible(heap, blocks, q, sz, limit) :: p <= q
        decreases End() - p
      {
        assert Linked(heap, blocks, End(), p);
        if SearchHit(heap, sz, p) {
          return true, p;
        }
        forall q | Eligible(heap, blocks, q, sz, limit) ensures heap[p].next <= q {
          assert Clear(heap, p, q);
        }
        p := heap[p].next;
      }
      return false, p;
    }

    /** Move `lfree` up to the next free block, or to the sentinel. */
    method AdvanceLowest()
      requires Chain(heap, blocks, End()) && heap[End()].used
      requires lfree in blocks && forall q | IsFree(heap, blocks, q) :: lfree <= q
      modifies this`lfree
      ensures LowestFree(heap, blocks, End(), lfree)
    {
      while heap[lfree].used && lfree != End()
        invariant lfree in blocks
        invariant forall q | IsFree(heap, blocks, q) :: lfree <= q
        decreases End() - lfree
      {
        assert Linked(heap, blocks, End(), lfree);
        forall q | IsFree(heap, blocks, q) ensures heap[lfree].next <= q {
          assert Clear(heap, lfree, q);
        }
        lfree := heap[lfree].next;
      }
    }

    /** Cut block `p` at `n` in the chain: `n` becomes a free block after it. */
    method LinkAfter(p: int, n: int)
      requires Chain(heap, blocks, End())
      requires p in blocks && p != End()
      requires p + HEADER <= n && n + HEADER <= heap[p].next && n % 8 == 0
      requires Synced()
      modifies this`heap, this`blocks, this`dirty
      ensures Synced()
      ensures Chain(heap, blocks, End())
      ensures n !in old(blocks) && blocks == old(blocks) + {n}
      ensures n in heap && heap[p].next == n && heap[n].next == old(heap[p].next) && heap[n].prev == p && !heap[n].used
      ensures forall q | q in old(blocks) ::
                heap[q].used == old(heap)[q].used
                && (q != p ==> heap[q].next == old(heap)[q].next)
    {
      hide InMemory;
      assert Linked(heap, blocks, End(), p);
      InsertedFits(heap, blocks, End(), p, n);
      dirty := dirty + {n, p, heap[p].next};
      heap := heap[n := Block(false, heap[p].next, p)];
      heap := heap[p := heap[p].(next := n)];
      if heap[n].next != End() {
        heap := heap[heap[n].next := heap[heap[n].next].(prev := n)];
      }
      InMemoryLinked(mem[..], old(heap), heap, blocks, old(dirty), dirty, n);
      ChainInsert(old(heap), heap, blocks, End(), p, n);
      blocks := blocks + {n};
    }

    method MarkUsed(p: int, used: bool)
      requires Chain(heap, blocks, End()) && p in blocks
      requires Synced()
      modifies this`heap, this`dirty
      ensures Synced()
      ensures Chain(heap, blocks, End())
      ensures heap == old(heap)[p := old(heap)[p].(used := used)]
    {
      hide HeaderBytes;
      heap := heap[p := heap[p].(used := used)];
      dirty := dirty + {p};
      ChainFrame(old(heap), heap, blocks, End());
    }

    /** rt_malloc on the block it found: split it when the rest can hold a minimal block, then fix `lfree`. */
    method Take(p: int, sz: nat)
      requires Booked() && Synced()
      requires IsFree(heap, blocks, p) && 0 < sz <= Payload(heap, p) && sz % 8 == 0
      modifies this
      ensures Booked() && Synced()
      ensures Granted(old(heap), old(Live()), old(usedMem), Live(), usedMem, p, sz)
      ensures history == old(history) + [usedMem]
    {
      hide InMemory;
      assert Linked(heap, blocks, End(), p) && Linked(heap, blocks, End(), End());
      if heap[p].next - (p + HEADER) >= sz + HEADER + MIN_SIZE {
        var n := p + HEADER + sz;
        LinkAfter(p, n);
        MarkUsed(p, true);
        Charge(sz + HEADER);
        TakeSplitSolid(old(heap), heap, old(blocks), End(), old(usedMem), p, n);
      } else {
        MarkUsed(p, true);
        Charge(heap[p].next - p);
        TakeWholeSolid(old(heap), heap, blocks, End(), old(usedMem), p);
      }
      forall q | IsFree(heap, blocks, q) ensures lfree <= q {
        assert q in old(blocks) ==> IsFree(old(heap), old(blocks), q);
      }
      if p == lfree {
        AdvanceLowest();
      }
    }

    /** rt_malloc */
    method Malloc(size: nat) returns (r: int)
      requires Valid() && size < SIZE_LIMIT
      modifies this, mem
      ensures Valid()
      ensures r == NIL ==>
                && unchanged(this)
                && (size == 0 || AlignUp(size) > memSize
                    || NoFit(heap, blocks, RequestSize(size), memSize - RequestSize(size)))
      ensures r != NIL ==>
                && size != 0 && AlignUp(size) <= memSize
                && LowestFit(old(heap), old(blocks), r - HEADER, RequestSize(size), memSize - RequestSize(size))
                && Granted(old(heap), old(Live()), old(usedMem), Live(), usedMem, r - HEADER, RequestSize(size))
                && history == old(history) + [usedMem]
      ensures AllKept(old(mem[..]), mem[..], old(Live()), HEADER)
    {
      hide InMemory;
      r := NIL;
      if size == 0 || AlignUp(size) > memSize {
        return;
      }
      AlignUpExact(size);
      var sz := RequestSize(size);
      var found, p := Search(sz);
      if found {
        assert Linked(heap, blocks, End(), p);
        Take(p, sz);
        Flush();
        forall q | q in old(Live()) ensures q in blocks && q != End() && old(Live())[q] <= Payload(heap, q) {
          assert q in Live();
        }
        HeaderStoresKeepPayloads(old(mem[..]), mem[..], blocks, heap, blocks, End(), old(Live()));
        r := p + HEADER;
      }
    }

    // ------------------------------------------------------------ rt_free

    /** The locked part of rt_free. */
    method Release(p: int)
      requires Booked() && Synced()
      requires p in Live()
      modifies this
      ensures Booked() && Synced()
      ensures Live() == old(Live()) - {p}
      ensures usedMem == old(usedMem) - old(Live())[p] - HEADER && maxMem == old(maxMem)
      ensures lfree == Min(old(lfree), p)
      ensures history == old(history) + [usedMem]
      ensures blocks <= old(blocks)
    {
      hide InMemory;
      assert Linked(heap, blocks, End(), p);
      MarkUsed(p, false);
      if p < lfree {
        lfree := p;
      }
      usedMem := usedMem - (heap[p].next - p);
      MarkFreePending(old(heap), heap, blocks, End(), old(usedMem), p);
      forall q | IsFree(heap, blocks, q) ensures lfree <= q {
        assert q != p ==> IsFree(old(heap), old(blocks), q);
      }
      PlugHoles(p);
      RunningMaxLower(history, maxMem, usedMem);
      history := history + [usedMem];
    }

    /** rt_free of NULL or of a live block; its range assertion excludes other pointers. */
    method Free(rmem: int)
      requires Valid()
      requires rmem != NIL ==> rmem - HEADER in Live()
      modifies this, mem
      ensures Valid()
      ensures rmem == NIL ==> unchanged(this)
      ensures rmem != NIL ==>
                var p := rmem - HEADER;
                && Live() == old(Live()) - {p}
                && usedMem == old(usedMem) - old(Live())[p] - HEADER && maxMem == old(maxMem)
                && lfree == Min(old(lfree), p)
                && history == old(history) + [usedMem]
      ensures AllKept(old(mem[..]), mem[..], old(Live()), HEADER)
    {
      hide InMemory;
      if rmem == NIL {
        return;
      }
      Release(rmem - HEADER);
      Flush();
      HeaderStoresKeepPayloads(old(mem[..]), mem[..], blocks, old(heap), old(blocks), End(), old(Live()));
    }

    // ------------------------------------------------------------ rt_realloc

    /** The split of rt_realloc: keep `sz` bytes of `p`, free the rest. */
    method ShrinkInPlace(p: int, sz: nat)
      requires Booked() && Synced()
      requires p in Live() && sz % 8 == 0 && 0 < sz && sz + HEADER + MIN_SIZE < Live()[p]
      modifies this
      ensures Booked() && Synced()
      ensures Live() == old(Live())[p := sz]
      ensures usedMem == old(usedMem) - (old(Live())[p] - sz) && maxMem == old(maxMem)
      ensures lfree == Min(old(lfree), p + HEADER + sz)
      ensures history == old(history) + [usedMem]
      ensures p + HEADER + sz in blocks
    {
      hide InMemory;
      var n := p + HEADER + sz;
      assert Linked(heap, blocks, End(), p);
      usedMem := usedMem - (Payload(heap, p) - sz);
      LinkAfter(p, n);
      ShedPending(old(heap), heap, old(blocks), End(), old(usedMem), p, n);
      if n < lfree {
        lfree := n;
      }
      forall q | IsFree(heap, blocks, q) ensures lfree <= q {
        assert q != n ==> IsFree(old(heap), old(blocks), q);
      }
      assert lfree in blocks && (lfree == End() || IsFree(heap, blocks, lfree));
      PlugHoles(n);
      assert n in blocks;
      RunningMaxLower(history, maxMem, usedMem);
      history := history + [usedMem];
    }

    /** rt_realloc keeps a live block where it is in exactly these cases. */
    ghost predicate StaysInPlace(p: int, sz: int)
      reads this
      requires blocks <= heap.Keys && p in Live()
    {
      sz == Live()[p] || sz + HEADER + MIN_SIZE < Live()[p]
    }

    /** The branches of rt_realloc that return the same address. */
    method Keep(p: int, sz: nat)
      requires Valid()
      requires p in Live() && sz % 8 == 0 && 0 < sz && StaysInPlace(p, sz)
      modifies this, mem
      ensures Valid()
      ensures Live() == old(Live())[p := sz]
      ensures Resized(old(Live()), old(mem[..]), Live(), mem[..], HEADER, p, p, sz)
    {
      hide InMemory;
      assert Linked(heap, blocks, End(), p) && Linked(heap, blocks, End(), heap[p].next);
      ghost var m, live, kept := mem[..], Live(), Live()[p := sz];
      if sz != Payload(heap, p) {
        ShrinkInPlace(p, sz);
        Flush();
        forall q | q in kept ensures q in blocks && q != End() && kept[q] <= Payload(heap, q) {
          assert q in Live();
        }
        HeaderStoresKeepPayloads(m, mem[..], blocks, heap, blocks, End(), kept);
      } else {
        AllKeptSame(m, kept, HEADER);
      }
      assert AllKept(m, mem[..], kept, HEADER) && p in kept;
      KeptBytes(m, mem[..], p + HEADER, sz, sz);
      KeptTrans(m, m, mem[..], kept, kept, live - {p}, HEADER);
    }

    /** rt_malloc as its callers see it: some new block, big enough, or nothing at all. */
    method AllocBlock(size: nat) returns (r: int)
      requires Valid() && size < SIZE_LIMIT
      modifies this, mem
      ensures Valid()
      ensures r == NIL ==>
                && unchanged(this)
                && (size == 0 || AlignUp(size) > memSize
                    || NoFit(heap, blocks, RequestSize(size), memSize - RequestSize(size)))
      ensures r != NIL ==>
                && NewBlock(old(Live()), Live(), r - HEADER, RequestSize(size))
                && TookLowest(old(heap), old(blocks), old(Live()), Live(), memSize, r - HEADER, RequestSize(size))
      ensures AllKept(old(mem[..]), mem[..], old(Live()), HEADER)
    {
      hide InMemory;
      r := Malloc(size);
    }

    /** Copy the first `n` bytes of live block `rmem` into live block `dst`. */
    method Copy(rmem: int, dst: int, n: nat)
      requires Valid()
      requires rmem != dst && rmem - HEADER in Live() && dst - HEADER in Live()
      requires n <= Live()[rmem - HEADER] && n <= Live()[dst - HEADER]
      modifies mem
      ensures Valid() && SameBytes(old(mem[..]), rmem, mem[..], dst, n)
      ensures AllKept(old(mem[..]), mem[..], Live() - {dst - HEADER}, HEADER)
    {
      hide InMemory;
      ghost var p, q, live := rmem - HEADER, dst - HEADER, Live();
      ChainApart(heap, blocks, End());
      assert Linked(heap, blocks, End(), p) && Linked(heap, blocks, End(), q);
      CopyBytes(mem, dst, rmem, n);
      PayloadStoreKeepsOthers(old(mem[..]), mem[..], live, HEADER, q, n);
      PayloadStoreKeepsHeaders(old(mem[..]), mem[..], heap, blocks, End(), q, n);
    }

    /** Copy the first `n` bytes of live block `rmem` into live block `dst`, then free `rmem`. */
    method CopyAndFree(rmem: int, dst: int, n: nat)
      requires Valid()
      requires rmem != dst && rmem - HEADER in Live() && dst - HEADER in Live()
      requires n <= Live()[rmem - HEADER] && n <= Live()[dst - HEADER]
      modifies this, mem
      ensures Valid()
      ensures Live() == old(Live()) - {rmem - HEADER}
      ensures SameBytes(old(mem[..]), rmem, mem[..], dst, n)
      ensures AllKept(old(mem[..]), mem[..], old(Live()) - {rmem - HEADER, dst - HEADER}, HEADER)
    {
      hide InMemory;
      ghost var p, q, live := rmem - HEADER, dst - HEADER, Live();
      assert Linked(heap, blocks, End(), q);
      Copy(rmem, dst, n);
      ghost var m := mem[..];
      Free(rmem);
      assert Kept(m, mem[..], q + HEADER, live[q]);
      KeptBytes(m, mem[..], dst, live[q], n);
      KeptTrans(old(mem[..]), m, mem[..], live - {q}, live, live - {p, q}, HEADER);
    }

    /**
     Copy what fits of live block `rmem` into the new block `dst` and free `rmem`; `live0` and `m0`
     are from before the allocation.
     */
    method Relocate(rmem: int, dst: int, size: nat, sz: nat, ghost m0: seq<byte>, ghost live0: map<int, int>)
      requires Valid() && sz < SIZE_LIMIT && sz <= RequestSize(sz)
      requires rmem - HEADER in live0 && size == live0[rmem - HEADER]
      requires NewBlock(live0, Live(), dst - HEADER, RequestSize(sz))
      requires AllKept(m0, mem[..], live0, HEADER)
      modifies this, mem
      ensures Valid()
      ensures Resized(live0, m0, Live(), mem[..], HEADER, rmem - HEADER, dst - HEADER, sz)
      ensures Live()[rmem - HEADER := size] == old(Live())
    {
      hide InMemory;
      CopyAndFree(rmem, dst, if size < sz then size else sz);
      MoveResizes(m0, old(mem[..]), mem[..], live0, old(Live()), Live(), HEADER, rmem - HEADER, dst - HEADER, sz,
                  RequestSize(sz));
    }

    /** The allocate-copy-free path of rt_realloc. */
    method Move(rmem: int, size: nat, sz: nat) returns (r: int)
      requires Valid() && 0 < sz < SIZE_LIMIT && sz <= RequestSize(sz) && AlignUp(sz) == sz <= memSize
      requires rmem - HEADER in Live() && size == Live()[rmem - HEADER]
      modifies this, mem
      ensures Valid()
      ensures r == NIL ==> NoFit(heap, blocks, RequestSize(sz), memSize - RequestSize(sz))
      ensures r != NIL ==> TookLowest(old(heap), old(blocks), old(Live()), Live()[rmem - HEADER := size], memSize,
                                      r - HEADER, RequestSize(sz))
      ensures r == NIL ==> unchanged(this) && AllKept(old(mem[..]), mem[..], old(Live()), HEADER)
      ensures r != NIL ==>
                && r - HEADER !in old(Live())
                && Resized(old(Live()), old(mem[..]), Live(), mem[..], HEADER, rmem - HEADER, r - HEADER, sz)
    {
      hide InMemory;
      r := AllocBlock(sz);
      if r != NIL {
        Relocate(rmem, r, size, sz, old(mem[..]), old(Live()));
      }
    }

    /** rt_realloc; a pointer outside the heap comes back unchanged. */
    method Realloc(rmem: int, newSize: nat) returns (r: int)
      requires Valid() && newSize < SIZE_LIMIT
      requires rmem == NIL || rmem - HEADER in Live() || (AlignUp(newSize) != 0 && (rmem < 0 || rmem >= End()))
      modifies this, mem
      ensures Valid()
      ensures AlignUp(newSize) > memSize ==> r == NIL
      ensures AlignUp(newSize) == 0 ==>
                r == NIL && Live() == old(Live()) - {rmem - HEADER}
                && AllKept(old(mem[..]), mem[..], Live(), HEADER)
      ensures AlignUp(newSize) != 0 && r == NIL ==>
                unchanged(this)
                && AllKept(old(mem[..]), mem[..], old(Live()), HEADER)
      ensures 0 < AlignUp(newSize) <= memSize && rmem == NIL && r == NIL ==>
                NoFit(heap, blocks, RequestSize(newSize), memSize - RequestSize(newSize))
      ensures 0 < AlignUp(newSize) <= memSize && rmem == NIL && r != NIL ==>
                && NewBlock(old(Live()), Live(), r - HEADER, RequestSize(newSize))
                && TookLowest(old(heap), old(blocks), old(Live()), Live(), memSize, r - HEADER, RequestSize(newSize))
                && AllKept(old(mem[..]), mem[..], old(Live()), HEADER)
      ensures 0 < AlignUp(newSize) <= memSize && rmem != NIL && rmem - HEADER !in old(Live()) ==>
                r == rmem && unchanged(this) && unchanged(mem)
      ensures 0 < AlignUp(newSize) <= memSize && rmem - HEADER in old(Live()) ==>
                && (r == rmem <==> old(StaysInPlace(rmem - HEADER, AlignUp(newSize))))
                && Answered(old(heap), old(blocks), old(Live()), Live(), memSize, rmem, AlignUp(newSize), r)
                && (r != NIL ==>
                      Resized(old(Live()), old(mem[..]), Live(), mem[..], HEADER, rmem - HEADER, r - HEADER,
                              AlignUp(newSize)))
    {
      hide InMemory;
      var sz := AlignUp(newSize);
      AlignUpExact(newSize);
      ChainApart(heap, blocks, End());
      assert rmem - HEADER in Live() ==> Linked(heap, blocks, End(), rmem - HEADER);
      if sz > memSize {
        return NIL;
      } else if sz == 0 {
        Free(rmem);
        return NIL;
      }
      AlignUpExact(sz);
      if rmem == NIL {
        r := AllocBlock(sz);
        return;
      }
      if rmem < 0 || rmem >= End() {
        return rmem;
      }
      r := Resize(rmem, sz);
    }

    /** rt_realloc of a live block to an aligned size. */
    method Resize(rmem: int, sz: nat) returns (r: int)
      requires Valid() && 0 < sz <= memSize && sz % 8 == 0
      requires rmem - HEADER in Live()
      modifies this, mem
      ensures Valid()
      ensures r == NIL ==> unchanged(this) && AllKept(old(mem[..]), mem[..], old(Live()), HEADER)
      ensures r == rmem <==> old(StaysInPlace(rmem - HEADER, sz))
      ensures Answered(old(heap), old(blocks), old(Live()), Live(), memSize, rmem, sz, r)
      ensures r != NIL ==> Resized(old(Live()), old(mem[..]), Live(), mem[..], HEADER, rmem - HEADER, r - HEADER, sz)
    {
      hide InMemory;
      var p := rmem - HEADER;
      assert Linked(heap, blocks, End(), p);
      AlignUpExact(sz);
      var size := heap[p].next - p - HEADER;
      if size == sz || sz + HEADER + MIN_SIZE < size {
        Keep(p, sz);
        return rmem;
      }
      r := Move(rmem, size, sz);
    }
  }

  // ---------------------------------------------------------------- theorems

  /**
   The only block big enough that the search of rt_malloc can pass over is an exact
   fit running up to the end of the heap.
   */
  lemma SearchMissesOnlyTheLastExactFit(h: Blocks, b: set<int>, memSize: int, p: int, size: nat)
    requires Chain(h, b, memSize + HEADER)
    requires IsFree(h, b, p) && p != memSize + HEADER && Payload(h, p) >= size
    ensures !Eligible(h, b, p, size, memSize - size) <==> h[p].next == memSize + HEADER && Payload(h, p) == size
  {
    assert Linked(h, b, memSize + HEADER, p) && Linked(h, b, memSize + HEADER, h[p].next);
  }

  /** Where the search is after `n` rounds from block `p`, if nothing stops it. */
  ghost function SearchAt(h: Blocks, b: set<int>, end: int, p: int, n: nat): (q: int)
    requires Chain(h, b, end) && p in b
    ensures q in b
  {
    if n == 0 then p
    else
      var q := SearchAt(h, b, end, p, n - 1);
      assert Linked(h, b, end, q);
      h[q].next
  }

  /** The search for `size` bytes that starts at `p` ends in its round `n`. */
  ghost predicate SearchEnds(h: Blocks, b: set<int>, memSize: int, p: int, size: int, n: nat)
    requires Chain(h, b, memSize + HEADER) && p in b
  {
    var q := SearchAt(h, b, memSize + HEADER, p, n);
    !SearchGuard(memSize, size, q) || SearchHit(h, size, q)
  }

  /** The size that the search is made for. */
  function Searched(request: int): int {
    if request < MIN_SIZE then MIN_SIZE else request
  }

  /**
   On any chain, and for any request that passes the size check, the search ends if and
   only if the heap is at least one minimal block: on a smaller heap no block fits, the
   search gets to the sentinel, which links to itself, and the guard wraps around.
   */
  lemma SearchEndsExact(h: Blocks, b: set<int>, memSize: nat, p: int, request: nat)
    requires Chain(h, b, memSize + HEADER) && h[memSize + HEADER].used && p in b
    requires memSize + HEADER + HEADER < SIZE_LIMIT && request <= memSize
    ensures (exists n: nat :: SearchEnds(h, b, memSize, p, Searched(request), n)) <==> memSize >= MIN_SIZE
  {
    hide SearchEnds;
    if memSize >= MIN_SIZE {
      var n := SearchReachesEnd(h, b, memSize, p, Searched(request));
    } else {
      forall n: nat ensures !SearchEnds(h, b, memSize, p, Searched(request), n) {
        SearchGoesOn(h, b, memSize, p, Searched(request), n);
      }
    }
  }

  lemma SearchReachesEnd(h: Blocks, b: set<int>, memSize: nat, p: int, size: nat) returns (n: nat)
    requires Chain(h, b, memSize + HEADER) && p in b && size <= memSize < SIZE_LIMIT
    ensures SearchEnds(h, b, memSize, p, size, n)
  {
    var end := memSize + HEADER;
    n := 0;
    while SearchAt(h, b, end, p, n) != end
      decreases end - SearchAt(h, b, end, p, n)
    {
      var q := SearchAt(h, b, end, p, n);
      assert Linked(h, b, end, q);
      assert SearchAt(h, b, end, p, n + 1) == h[q].next;
      assert Linked(h, b, end, h[q].next);
      n := n + 1;
    }
    assert (memSize - size) % SIZE_LIMIT == memSize - size;
  }

  lemma SearchGoesOn(h: Blocks, b: set<int>, memSize: nat, p: int, size: int, n: nat)
    requires Chain(h, b, memSize + HEADER) && h[memSize + HEADER].used && p in b
    requires memSize < MIN_SIZE == size
    ensures !SearchEnds(h, b, memSize, p, size, n)
  {
    var end := memSize + HEADER;
    var q := SearchAt(h, b, end, p, n);
    assert Linked(h, b, end, q);
    assert (memSize - size) % SIZE_LIMIT == memSize - size + SIZE_LIMIT;
    if q != end {
      assert Linked(h, b, end, h[q].next);
    }
  }

  /**
   A granted block holds the bytes asked for, unless rounding the request wraps around to 0, which
   passes the size check.
   */
  lemma GrantCoversRequest(size: nat)
    requires size < SIZE_LIMIT
    ensures RequestSize(size) >= size <==> size <= SIZE_LIMIT - ALIGN
    ensures MIN_SIZE < size <= SIZE_LIMIT - ALIGN ==> RequestSize(size) < size + ALIGN && RequestSize(size) % ALIGN == 0
    ensures size <= MIN_SIZE || size > SIZE_LIMIT - ALIGN ==> RequestSize(size) == MIN_SIZE
    ensures size > SIZE_LIMIT - ALIGN ==> AlignUp(size) == 0
  {
    AlignUpExact(size);
  }

  /** A block that was granted is as long as asked for, or a rest too short to be a block goes with it. */
  lemma GrantExact(h: Blocks, live: map<int, int>, used: int, live': map<int, int>, used': int, p: int, sz: int)
    requires Granted(h, live, used, live', used', p, sz)
    ensures p in live' && sz <= live'[p] < sz + HEADER + MIN_SIZE
    ensures live'[p] == Payload(h, p) || (live'[p] == sz && Payload(h, p) - sz - HEADER >= MIN_SIZE)
    ensures used' == used + live'[p] + HEADER
  {
  }

  /** A fresh heap grants a request of 2^64 - 1 bytes, with a block of at most the heap. */
  method WrappedGranted(area: nat) returns (h: Heap, r: int)
    requires area % ALIGN == 0 && 2 * HEADER + 2 * MIN_SIZE <= area < SIZE_LIMIT
    ensures h.Valid() && r - HEADER in h.Live() && h.Live()[r - HEADER] < SIZE_LIMIT - 1
  {
    hide InMemory;
    h := new Heap(area);
    AlignUpExact(SIZE_LIMIT - 1);
    assert Linked(h.heap, h.blocks, h.End(), 0);
    assert h.heap[0].next == h.End() && IsFree(h.heap, h.blocks, 0);
    assert Eligible(h.heap, h.blocks, 0, MIN_SIZE, h.memSize - MIN_SIZE);
    r := h.Malloc(SIZE_LIMIT - 1);
    assert Linked(h.heap, h.blocks, h.End(), r - HEADER);
  }

  /** Freeing every live block, in any order, brings the heap back to what rt_system_heap_init built. */
  method FreeAll(h: Heap, order: seq<int>)
    requires h.Valid()
    requires forall p :: p in order <==> p in h.Live()
    requires forall i, j | 0 <= i < j < |order| :: order[i] != order[j]
    modifies h, h.mem
    ensures h.Valid()
    ensures h.blocks == {0, h.End()} && h.lfree == 0 && h.usedMem == 0
    ensures h.heap[0] == Block(false, h.End(), 0) && h.heap[h.End()].used && h.heap[h.End()].next == h.End()
  {
    hide InMemory;
    for i := 0 to |order|
      invariant h.Valid()
      invariant forall p :: p in order[i..] <==> p in h.Live()
    {
      assert order[i] in order[i..];
      assert order[i..] == [order[i]] + order[i + 1..];
      assert Linked(h.heap, h.blocks, h.End(), order[i]);
      h.Free(order[i] + HEADER);
    }
    assert h.Live() == map[];
    ghost var init := map[0 := Block(false, h.End(), 0), h.End() := Block(true, h.End(), h.End())];
    InitialSolid(init, h.End());
    HeapCanonical(h.heap, h.blocks, h.lfree, h.usedMem, init, {0, h.End()}, 0, 0, h.End());
  }
}
