/**
 The block list of mem.c: headers linked by offset, `next` upward to the end
 sentinel and `prev` downward.  The sentinel's own `prev` is not maintained.
 Offsets are from `heap_ptr`.
 */
module SmallHeapBlocks {
  import opened HeapBytes
  import opened Machine

  const HEADER: int := 24    // SIZEOF_STRUCT_MEM on a 64-bit target
  const MIN_SIZE: int := 24  // MIN_SIZE_ALIGNED
  const NIL: int := -1       // RT_NULL

  datatype Block = Block(used: bool, next: int, prev: int)

  type Blocks = map<int, Block>

  /** The user data size of a block. */
  function Payload(h: Blocks, p: int): int
    requires p in h
  {
    h[p].next - p - HEADER
  }

  /** Block `p` is linked to its neighbours; only the sentinel's `prev` is left free. */
  ghost predicate Linked(h: Blocks, b: set<int>, end: int, p: int) {
    && p in h
    && 0 <= p <= end
    && p % 8 == 0
    && (if p == end then h[p].next == end
        else && h[p].next in b
             && p + HEADER <= h[p].next
             && h[p].next in h
             && (h[p].next != end ==> h[h[p].next].prev == p))
    && (p == 0 ==> h[p].prev == 0)
    && (0 < p < end ==> && h[p].prev in b
                        && h[p].prev < p
                        && h[p].prev in h
                        && h[h[p].prev].next == p)
  }

  /** No block starts strictly inside block `p`. */
  ghost predicate Clear(h: Blocks, p: int, q: int)
    requires p in h
  {
    p < q ==> h[p].next <= q
  }

  ghost predicate Chain(h: Blocks, b: set<int>, end: int) {
    && 0 < end
    && 0 in b
    && end in b
    && b <= h.Keys
    && (forall p {:trigger Linked(h, b, end, p)} | p in b :: Linked(h, b, end, p))
    && (forall p, q {:trigger Clear(h, p, q)} | p in b && q in b :: Clear(h, p, q))
  }

  ghost predicate IsFree(h: Blocks, b: set<int>, p: int) {
    p in b && p in h && !h[p].used
  }

  /** If block `p` is free, the block after it is used. */
  ghost predicate Fenced(h: Blocks, p: int) {
    p in h && (!h[p].used ==> h[p].next in h && h[h[p].next].used)
  }

  ghost predicate Coalesced(h: Blocks, b: set<int>, end: int) {
    && end in h && h[end].used
    && forall p {:trigger Fenced(h, p)} | p in b && p != end :: Fenced(h, p)
  }

  /** `l` is the lowest free block, or the sentinel when there is none. */
  ghost predicate LowestFree(h: Blocks, b: set<int>, end: int, l: int) {
    && l in b && (l == end || IsFree(h, b, l))
    && forall q | IsFree(h, b, q) :: l <= q
  }

  /** The summed extents, headers included, of the used blocks from `p` up to the sentinel. */
  ghost function UsedBytes(h: Blocks, b: set<int>, end: int, p: int): int
    requires Chain(h, b, end) && p in b
    decreases end - p
  {
    assert Linked(h, b, end, p);
    if p == end then 0
    else (if h[p].used then h[p].next - p else 0) + UsedBytes(h, b, end, h[p].next)
  }

  /** The block list is whole, coalesced, and its used extents are counted. */
  ghost predicate Solid(h: Blocks, b: set<int>, end: int, used: int) {
    && Chain(h, b, end)
    && Coalesced(h, b, end)
    && used == UsedBytes(h, b, end, 0)
  }

  /** The live allocations: address and payload size of every used block but the sentinel. */
  ghost function UsedMap(h: Blocks, b: set<int>, end: int): map<int, int>
    requires b <= h.Keys
  {
    map p | p in b && p != end && h[p].used :: Payload(h, p)
  }

  // ---------------------------------------------------------------- link surgery

  /** The headers in `b` hold the same links in both heaps, the sentinel's `prev` aside. */
  ghost predicate SameLinks(h: Blocks, h': Blocks, b: set<int>, end: int) {
    && b <= h.Keys && b <= h'.Keys
    && forall p | p in b :: h'[p].next == h[p].next && (p != end ==> h'[p].prev == h[p].prev)
  }

  lemma ChainFrame(h: Blocks, h': Blocks, b: set<int>, end: int)
    requires Chain(h, b, end)
    requires SameLinks(h, h', b, end)
    ensures Chain(h', b, end)
  {
    forall p | p in b ensures Linked(h', b, end, p) {
      assert Linked(h, b, end, p);
    }
    forall p, q | p in b && q in b ensures Clear(h', p, q) {
      assert Clear(h, p, q);
    }
  }

  /** `h'` is `h` with header `n` linked between block `p` and its successor. */
  ghost predicate Inserted(h: Blocks, h': Blocks, b: set<int>, end: int, p: int, n: int) {
    && b <= h.Keys && b + {n} <= h'.Keys
    && p in b && p != end && n !in b
    && h[p].next in b
    && h'[n].prev == p && h'[n].next == h[p].next
    && h'[p].next == n && h'[p].prev == h[p].prev
    && h'[h[p].next].next == h[h[p].next].next
    && (h[p].next != end ==> h'[h[p].next].prev == n)
    && (forall q | q in b && q != p && q != h[p].next :: h'[q].next == h[q].next && h'[q].prev == h[q].prev)
  }

  lemma InsertedFits(h: Blocks, b: set<int>, end: int, p: int, n: int)
    requires Chain(h, b, end)
    requires p in b && p != end
    requires p < n < h[p].next
    ensures n !in b
    ensures h[p].next in b
  {
    assert Linked(h, b, end, p);
    assert n in b ==> Clear(h, p, n);
  }

  lemma ChainInsert(h: Blocks, h': Blocks, b: set<int>, end: int, p: int, n: int)
    requires Chain(h, b, end)
    requires Inserted(h, h', b, end, p, n)
    requires p + HEADER <= n && n + HEADER <= h[p].next && n % 8 == 0
    ensures Chain(h', b + {n}, end)
  {
    var b' := b + {n};
    assert Linked(h, b, end, p);
    assert Linked(h, b, end, h[p].next);
    forall q | q in b' ensures Linked(h', b', end, q) {
      assert q != n ==> Linked(h, b, end, q);
    }
    forall q, r | q in b' && r in b' ensures Clear(h', q, r) {
      InsertClear(h, h', b, end, p, n, q, r);
    }
  }

  lemma InsertClear(h: Blocks, h': Blocks, b: set<int>, end: int, p: int, n: int, q: int, r: int)
    requires Chain(h, b, end)
    requires Inserted(h, h', b, end, p, n)
    requires p < n < h[p].next
    requires q in b + {n} && r in b + {n}
    ensures Clear(h', q, r)
  {
    if q == n {
      if r != n { assert Clear(h, p, r); }
    } else if r == n {
      assert Clear(h, p, q);
      assert Clear(h, q, p);
    } else {
      assert Clear(h, q, r);
    }
  }

  /** `h'` is `h` after block `q` was joined to the block before it. */
  ghost predicate Joined(h: Blocks, h': Blocks, b: set<int>, end: int, q: int) {
    && b <= h.Keys && b <= h'.Keys
    && q in b && q != end && h[q].prev in b && h[q].prev != q && h[q].next in b
    && h'[h[q].prev].next == h[q].next && h'[h[q].prev].prev == h[h[q].prev].prev
    && h'[h[q].next].next == h[h[q].next].next
    && (h[q].next != end ==> h'[h[q].next].prev == h[q].prev)
    && (forall r | r in b :: h'[r].used == h[r].used)
    && (forall r | r in b && r != h[q].prev && r != h[q].next && r != q ::
          h'[r].next == h[r].next
          && h'[r].prev == h[r].prev)
  }

  lemma ChainJoin(h: Blocks, h': Blocks, b: set<int>, end: int, q: int)
    requires Chain(h, b, end)
    requires 0 < q < end && Joined(h, h', b, end, q)
    ensures Chain(h', b - {q}, end)
  {
    var b' := b - {q};
    var p := h[q].prev;
    assert Linked(h, b, end, q);
    assert Linked(h, b, end, p);
    assert Linked(h, b, end, h[q].next);
    forall r | r in b' ensures Linked(h', b', end, r) {
      assert Linked(h, b, end, r);
    }
    forall r, s | r in b' && s in b' ensures Clear(h', r, s) {
      assert Clear(h, r, s);
      if r == p { assert Clear(h, q, s); }
    }
  }

  // ---------------------------------------------------------------- used bytes

  /** Two heaps agree on every block from `lo` up to, not including, `hi`. */
  ghost predicate Agree(h: Blocks, b: set<int>, h': Blocks, b': set<int>, lo: int, hi: int) {
    && b <= h.Keys && b' <= h'.Keys
    && forall q | q in b && lo <= q < hi :: q in b' && h'[q].next == h[q].next && h'[q].used == h[q].used
  }

  lemma {:induction false} UsedBytesBelow(h: Blocks, b: set<int>, h': Blocks, b': set<int>, end: int, s: int, lo: int)
    requires Chain(h, b, end) && Chain(h', b', end)
    requires s in b && lo in b && lo in b' && s <= lo
    requires Agree(h, b, h', b', s, lo)
    ensures s in b'
    ensures UsedBytes(h', b', end, s) - UsedBytes(h', b', end, lo) == UsedBytes(h, b, end, s) - UsedBytes(h, b, end, lo)
    decreases lo - s
  {
    if s < lo {
      assert Linked(h, b, end, s) && Linked(h, b, end, lo) && Clear(h, s, lo);
      UsedBytesBelow(h, b, h', b', end, h[s].next, lo);
    }
  }

  /** Changing blocks only from `lo` up to `hi` changes the total by the change in that stretch. */
  lemma UsedBytesLocal(h: Blocks, b: set<int>, h': Blocks, b': set<int>, end: int, lo: int, hi: int)
    requires Chain(h, b, end) && Chain(h', b', end)
    requires lo in b && lo in b' && hi in b && hi in b' && lo <= hi
    requires Agree(h, b, h', b', 0, lo) && Agree(h, b, h', b', hi, end)
    ensures UsedBytes(h', b', end, 0) - UsedBytes(h, b, end, 0)
         == (UsedBytes(h', b', end, lo) - UsedBytes(h', b', end, hi)) - (UsedBytes(h, b, end, lo) - UsedBytes(h, b, end,
             hi))
  {
    assert Linked(h, b, end, lo) && Linked(h, b, end, hi);
    UsedBytesBelow(h, b, h', b', end, 0, lo);
    UsedBytesBelow(h, b, h', b', end, hi, end);
  }

  // ---------------------------------------------------------------- what each operation does to the layout

  /** The free block `p` becomes used as a whole. */
  ghost predicate TookWhole(h: Blocks, h': Blocks, b: set<int>, p: int) {
    && b <= h.Keys && b <= h'.Keys
    && IsFree(h, b, p)
    && forall q | q in b :: h'[q].next == h[q].next && h'[q].used == (h[q].used || q == p)
  }

  lemma TakeWholeSolid(h: Blocks, h': Blocks, b: set<int>, end: int, used: int, p: int)
    requires Solid(h, b, end, used) && Chain(h', b, end)
    requires TookWhole(h, h', b, p)
    ensures Solid(h', b, end, used + h[p].next - p)
    ensures p !in UsedMap(h, b, end)
    ensures UsedMap(h', b, end) == UsedMap(h, b, end)[p := Payload(h, p)]
  {
    assert Linked(h, b, end, p);
    forall q | q in b && q != end ensures Fenced(h', q) {
      assert Linked(h, b, end, q) && Fenced(h, q);
    }
    UsedBytesLocal(h, b, h', b, end, p, h[p].next);
  }

  /** The free block `p` is cut at `n`: its first part becomes used, the rest a new free block. */
  ghost predicate TookSplit(h: Blocks, h': Blocks, b: set<int>, p: int, n: int) {
    && b <= h.Keys && b + {n} <= h'.Keys
    && IsFree(h, b, p) && n !in b
    && p < n < h[p].next
    && h'[n].next == h[p].next && !h'[n].used
    && h'[p].next == n && h'[p].used
    && forall q | q in b && q != p :: h'[q].next == h[q].next && h'[q].used == h[q].used
  }

  lemma TakeSplitSolid(h: Blocks, h': Blocks, b: set<int>, end: int, used: int, p: int, n: int)
    requires Solid(h, b, end, used) && Chain(h', b + {n}, end)
    requires TookSplit(h, h', b, p, n)
    ensures Solid(h', b + {n}, end, used + n - p)
    ensures p !in UsedMap(h, b, end)
    ensures UsedMap(h', b + {n}, end) == UsedMap(h, b, end)[p := n - p - HEADER]
  {
    assert Linked(h, b, end, p) && Fenced(h, p);
    assert Linked(h, b, end, end);
    assert Linked(h', b + {n}, end, n);
    forall q | q in b + {n} && q != end ensures Fenced(h', q) {
      assert q != n ==> Linked(h, b, end, q) && Fenced(h, q);
    }
    UsedBytesLocal(h, b, h', b + {n}, end, p, h[p].next);
  }

  /** Half-way through a free or a shrink: `x` is free but may still have free neighbours. */
  ghost predicate Pending(h: Blocks, b: set<int>, end: int, used: int, x: int, leftDone: bool) {
    && Chain(h, b, end)
    && x != end && IsFree(h, b, x)
    && h[end].used
    && (forall q {:trigger Fenced(h, q)} | q in b && q != end && q != x && (leftDone || h[q].next != x) :: Fenced(h, q))
    && used == UsedBytes(h, b, end, 0)
  }

  lemma MarkFreePending(h: Blocks, h': Blocks, b: set<int>, end: int, used: int, x: int)
    requires Solid(h, b, end, used)
    requires x in UsedMap(h, b, end)
    requires h' == h[x := h[x].(used := false)]
    requires Chain(h', b, end)
    ensures Pending(h', b, end, used - (h[x].next - x), x, false)
    ensures UsedMap(h', b, end) == UsedMap(h, b, end) - {x}
  {
    assert Linked(h, b, end, x);
    forall q | q in b && q != end && q != x && h'[q].next != x ensures Fenced(h', q) {
      assert Fenced(h, q);
    }
    UsedBytesLocal(h, b, h', b, end, x, h[x].next);
  }

  /** Joining the free block after `x` to `x`. */
  lemma JoinRightPending(h: Blocks, h': Blocks, b: set<int>, end: int, used: int, x: int, leftDone: bool)
    requires Pending(h, b, end, used, x, leftDone)
    requires h[x].next in b && !h[h[x].next].used && h[h[x].next].prev == x
    requires Joined(h, h', b, end, h[x].next)
    requires Chain(h', b - {h[x].next}, end)
    ensures Pending(h', b - {h[x].next}, end, used, x, leftDone) && Fenced(h', x)
    ensures UsedMap(h', b - {h[x].next}, end) == UsedMap(h, b, end)
  {
    var n := h[x].next;
    var b' := b - {n};
    assert Linked(h, b, end, x) && Linked(h, b, end, n) && Fenced(h, n);
    forall q | q in b' && q != end && q != x && (leftDone || h'[q].next != x) ensures Fenced(h', q) {
      assert Linked(h, b, end, q) && Fenced(h, q);
    }
    assert Agree(h, b, h', b', 0, x) by {
      forall q | q in b && 0 <= q < x ensures q in b' && h'[q].next == h[q].next && h'[q].used == h[q].used {
        assert Clear(h, q, x);
      }
    }
    assert Agree(h, b, h', b', h[n].next, end);
    UsedBytesLocal(h, b, h', b', end, x, h[n].next);
  }

  /** Joining `x`, whose right neighbour is used, to the free block before it. */
  lemma JoinLeftSolid(h: Blocks, h': Blocks, b: set<int>, end: int, used: int, x: int)
    requires Pending(h, b, end, used, x, false) && Fenced(h, x)
    requires x != 0 && h[x].prev in b && !h[h[x].prev].used
    requires Joined(h, h', b, end, x)
    requires Chain(h', b - {x}, end)
    ensures Solid(h', b - {x}, end, used)
    ensures UsedMap(h', b - {x}, end) == UsedMap(h, b, end)
  {
    var l := h[x].prev;
    var b' := b - {x};
    assert Linked(h, b, end, x) && Linked(h, b, end, l);
    forall q | q in b' && q != end ensures Fenced(h', q) {
      assert Linked(h, b, end, q);
      assert h[q].next != x ==> Fenced(h, q);
    }
    assert Agree(h, b, h', b', 0, l) by {
      forall q | q in b && 0 <= q < l ensures q in b' && h'[q].next == h[q].next && h'[q].used == h[q].used {
        assert Clear(h, q, l);
      }
    }
    assert Agree(h, b, h', b', h[x].next, end);
    UsedBytesLocal(h, b, h', b', end, l, h[x].next);
  }

  lemma NoJoinSolid(h: Blocks, b: set<int>, end: int, used: int, x: int)
    requires Pending(h, b, end, used, x, false) && Fenced(h, x)
    requires x == 0 || (h[x].prev in h && h[h[x].prev].used)
    ensures Solid(h, b, end, used)
  {
    assert Linked(h, b, end, x);
    forall q | q in b && q != end ensures Fenced(h, q) {
      assert Linked(h, b, end, q);
    }
  }

  /** Used block `p` is cut at `n`; the cut-off part is free but not yet joined to its neighbour. */
  lemma ShedPending(h: Blocks, h': Blocks, b: set<int>, end: int, used: int, p: int, n: int)
    requires Solid(h, b, end, used)
    requires p in UsedMap(h, b, end) && n !in b
    requires p < n < h[p].next
    requires Chain(h', b + {n}, end)
    requires h'[p].next == n && h'[n].next == h[p].next && !h'[n].used && h'[n].prev == p
    requires forall q | q in b :: h'[q].used == h[q].used && (q != p ==> h'[q].next == h[q].next)
    ensures Pending(h', b + {n}, end, used - (h[p].next - n), n, false)
    ensures UsedMap(h', b + {n}, end) == UsedMap(h, b, end)[p := n - p - HEADER]
  {
    assert Linked(h, b, end, p) && Linked(h, b, end, end);
    assert Linked(h', b + {n}, end, n);
    forall q | q in b && q != end && h'[q].next != n ensures Fenced(h', q) {
      assert Linked(h, b, end, q) && Fenced(h, q);
    }
    UsedBytesLocal(h, b, h', b + {n}, end, p, h[p].next);
  }

  // ---------------------------------------------------------------- search and bytes

  /** Block `p` is free, holds `size` bytes and starts below the search limit. */
  ghost predicate Eligible(h: Blocks, b: set<int>, p: int, size: int, limit: int) {
    IsFree(h, b, p) && Payload(h, p) >= size && p < limit
  }

  /** `p` is the lowest-address eligible block. */
  ghost predicate LowestFit(h: Blocks, b: set<int>, p: int, size: int, limit: int) {
    Eligible(h, b, p, size, limit) && forall q | Eligible(h, b, q, size, limit) :: p <= q
  }

  ghost predicate NoFit(h: Blocks, b: set<int>, size: int, limit: int) {
    forall q :: !Eligible(h, b, q, size, limit)
  }

  lemma ChainApart(h: Blocks, b: set<int>, end: int)
    requires Chain(h, b, end)
    ensures Apart(UsedMap(h, b, end), HEADER)
    ensures forall p | p in UsedMap(h, b, end) :: p + HEADER + UsedMap(h, b, end)[p] <= end
  {
    var u := UsedMap(h, b, end);
    forall p, q | p in u && q in u && p != q
      ensures p + HEADER + u[p] <= q || q + HEADER + u[q] <= p
    {
      assert Clear(h, p, q) && Clear(h, q, p);
    }
    forall p | p in u ensures p + HEADER + u[p] <= end {
      assert Linked(h, b, end, p) && Linked(h, b, end, h[p].next);
    }
  }

  /** Overwriting headers of the chain leaves the payload of every block of the chain alone. */
  lemma HeaderStoresKeepPayloads(m: seq<byte>, m': seq<byte>, hs: set<int>, h: Blocks, b: set<int>, end: int,
                                 live: map<int, int>)
    requires Chain(h, b, end) && hs <= b && OnlyHeaders(m, m', hs, HEADER)
    requires forall p | p in live :: p in b && p != end && live[p] <= Payload(h, p)
    ensures AllKept(m, m', live, HEADER)
  {
    forall p | p in live ensures Kept(m, m', p + HEADER, live[p]) {
      forall a | p + HEADER <= a < p + HEADER + live[p] && 0 <= a < |m| ensures !InHeader(hs, HEADER, a) {
        forall r | r in hs ensures !(r <= a < r + HEADER) {
          assert Clear(h, p, r) && Clear(h, r, p);
          assert Linked(h, b, end, r);
        }
      }
    }
  }

  // ---------------------------------------------------------------- headers in memory

  const MAGIC: int := 0x1ea0   // HEAP_MAGIC

  /** A header as it stands in memory, field by field. */
  function HeaderBytes(it: Block): (s: seq<byte>)
    ensures |s| == HEADER
  {
    Word(MAGIC, 2) + Word(if it.used then 1 else 0, 2) + Word(0, 4) + Word(it.next, 8) + Word(it.prev, 8)
  }

  ghost predicate Offsets(it: Block) {
    0 <= it.next < SIZE_LIMIT && 0 <= it.prev < SIZE_LIMIT
  }

  /** The bytes of a header say what its fields are. */
  lemma HeaderExact(a: Block, b: Block)
    requires Offsets(a) && Offsets(b)
    ensures HeaderBytes(a) == HeaderBytes(b) <==> a == b
  {
    if HeaderBytes(a) == HeaderBytes(b) {
      HeaderWords(a);
      HeaderWords(b);
      hide HeaderBytes;
      OffsetExact(a.next, b.next);
      OffsetExact(a.prev, b.prev);
    }
  }

  lemma HeaderWords(it: Block)
    ensures var s := HeaderBytes(it);
            && s[2] == (if it.used then 1 else 0) as byte
            && s[8..16] == Word(it.next, 8) && s[16..24] == Word(it.prev, 8)
  {
    var used := Word(if it.used then 1 else 0, 2);
    assert used[0] == (if it.used then 1 else 0) as byte;
    hide Word;
    Parts(Word(MAGIC, 2), used, Word(0, 4), Word(it.next, 8), Word(it.prev, 8));
  }

  lemma Parts(a: seq<byte>, b: seq<byte>, c: seq<byte>, d: seq<byte>, e: seq<byte>)
    requires |a| == |b| == 2 && |c| == 4 && |d| == |e| == 8
    ensures var s := a + b + c + d + e; s[2] == b[0] && s[8..16] == d && s[16..24] == e
  {
  }

  /** Every header but those in `dirty` stands in memory as its fields say. */
  ghost predicate InMemory(m: seq<byte>, h: Blocks, b: set<int>, dirty: set<int>) {
    forall p {:trigger h[p]} | p in b && p !in dirty :: p in h && Holds(m, p, HeaderBytes(h[p]))
  }

  /**
   The bytes of the headers say everything about the chain: two heaps with the same headers in
   memory have the same links.
   */
  lemma BytesDetermineChain(m: seq<byte>, h1: Blocks, h2: Blocks, b: set<int>)
    requires b <= h1.Keys && b <= h2.Keys && InMemory(m, h1, b, {}) && InMemory(m, h2, b, {})
    requires forall p | p in b :: Offsets(h1[p]) && Offsets(h2[p])
    ensures forall p | p in b :: h1[p] == h2[p]
  {
    hide HeaderBytes;
    forall p | p in b ensures h1[p] == h2[p] {
      assert Holds(m, p, HeaderBytes(h1[p]));
      assert Holds(m, p, HeaderBytes(h2[p]));
      HeaderExact(h1[p], h2[p]);
    }
  }

  lemma InMemoryLinked(m: seq<byte>, h: Blocks, h': Blocks, b: set<int>, dirty: set<int>, dirty': set<int>, n: int)
    requires InMemory(m, h, b, dirty) && dirty <= dirty' && n in dirty'
    requires forall p | p in b && p !in dirty' :: p in h && p in h' && h'[p] == h[p]
    ensures InMemory(m, h', b + {n}, dirty')
  {
    hide HeaderBytes;
  }

  lemma HeadersApart(h: Blocks, b: set<int>, end: int, hs: set<int>)
    requires Chain(h, b, end) && hs <= b
    ensures Spaced(hs, HEADER) && forall p | p in hs :: 0 <= p <= end
  {
    forall p, q | p in hs && q in hs && p < q ensures p + HEADER <= q {
      assert Linked(h, b, end, p) && Linked(h, b, end, q) && Clear(h, p, q);
    }
    forall p | p in hs ensures 0 <= p <= end {
      assert Linked(h, b, end, p);
    }
  }

  lemma FlushedInMemory(m: seq<byte>, m': seq<byte>, h: Blocks, b: set<int>, end: int, dirty: set<int>,
                        images: map<int, seq<byte>>)
    requires Chain(h, b, end) && InMemory(m, h, b, dirty)
    requires forall q :: q in images <==> q in b && q in dirty
    requires forall q | q in images :: q in h && images[q] == HeaderBytes(h[q]) && Holds(m', q, images[q])
    requires OnlyHeaders(m, m', images.Keys, HEADER)
    ensures InMemory(m', h, b, {})
  {
    hide HeaderBytes, OnlyHeaders;
    forall q | q in images.Keys ensures q in b {
      assert q in images;
    }
    forall p | p in b ensures p in h && Holds(m', p, HeaderBytes(h[p])) {
      if p !in dirty {
        assert p !in images;
        HeaderUntouched(m, m', h, b, end, images.Keys, p);
        HoldsKept(m, m', p, HeaderBytes(h[p]));
      }
    }
  }

  lemma HeaderUntouched(m: seq<byte>, m': seq<byte>, h: Blocks, b: set<int>, end: int, hs: set<int>, p: int)
    requires Chain(h, b, end) && hs <= b && p in b && p !in hs && OnlyHeaders(m, m', hs, HEADER)
    ensures |m'| == |m| && forall a | p <= a < p + HEADER && 0 <= a < |m| :: m'[a] == m[a]
  {
    forall a | p <= a < p + HEADER && 0 <= a < |m| ensures !InHeader(hs, HEADER, a) {
      forall q | q in hs ensures !(q <= a < q + HEADER) {
        assert Linked(h, b, end, p) && Linked(h, b, end, q) && Clear(h, p, q) && Clear(h, q, p);
      }
    }
  }

  /** Writing into the payload of a block leaves every header in memory as it was. */
  lemma PayloadStoreKeepsHeaders(m: seq<byte>, m': seq<byte>, h: Blocks, b: set<int>, end: int, q: int, n: int)
    requires Chain(h, b, end) && InMemory(m, h, b, {})
    requires q in b && q != end && n <= Payload(h, q)
    requires |m'| == |m| && forall a | 0 <= a < |m| && !(q + HEADER <= a < q + HEADER + n) :: m'[a] == m[a]
    ensures InMemory(m', h, b, {})
  {
    hide HeaderBytes;
    forall p | p in b ensures p in h && Holds(m', p, HeaderBytes(h[p])) {
      HeaderApart(h, b, end, q, p, n);
      HoldsKept(m, m', p, HeaderBytes(h[p]));
    }
  }

  lemma HeaderApart(h: Blocks, b: set<int>, end: int, q: int, p: int, n: int)
    requires Chain(h, b, end) && q in b && q != end && n <= Payload(h, q) && p in b
    ensures p + HEADER <= q + HEADER || q + HEADER + n <= p
  {
    assert Linked(h, b, end, p) && Linked(h, b, end, q);
    assert Clear(h, q, p) && Clear(h, p, q);
  }

  /** The headers rt_system_heap_init writes: one free block and the sentinel. */
  lemma InitialSolid(h: Blocks, end: int)
    requires end >= HEADER && end % 8 == 0
    requires h == map[0 := Block(false, end, 0), end := Block(true, end, end)]
    ensures Solid(h, {0, end}, end, 0)
    ensures LowestFree(h, {0, end}, end, 0)
    ensures UsedMap(h, {0, end}, end) == map[]
  {
    assert Linked(h, {0, end}, end, 0) && Linked(h, {0, end}, end, end);
    assert UsedBytes(h, {0, end}, end, end) == 0;
  }

  // ---------------------------------------------------------------- canonical layout

  lemma {:induction false} WalkAgree(h1: Blocks, b1: set<int>, h2: Blocks, b2: set<int>, end: int, p: int)
    requires Chain(h1, b1, end) && Coalesced(h1, b1, end)
    requires Chain(h2, b2, end) && Coalesced(h2, b2, end)
    requires UsedMap(h1, b1, end) == UsedMap(h2, b2, end)
    requires p in b1 && p in b2
    ensures forall q | q >= p :: q in b1 <==> q in b2
    ensures forall q | q >= p && q in b1 && q in b2 :: h1[q].used == h2[q].used && h1[q].next == h2[q].next
    decreases end - p
  {
    assert Linked(h1, b1, end, p) && Linked(h2, b2, end, p);
    if p == end {
      forall q | q > p ensures q !in b1 && q !in b2 {
        assert q in b1 ==> Linked(h1, b1, end, q);
        assert q in b2 ==> Linked(h2, b2, end, q);
      }
    } else {
      assert h1[p].used <==> p in UsedMap(h1, b1, end);
      assert h2[p].used <==> p in UsedMap(h2, b2, end);
      var n := h1[p].next;
      if h1[p].used {
        assert UsedMap(h1, b1, end)[p] == UsedMap(h2, b2, end)[p];
      } else {
        FreeBlockEndsSame(h1, b1, h2, b2, end, p);
        FreeBlockEndsSame(h2, b2, h1, b1, end, p);
      }
      WalkAgree(h1, b1, h2, b2, end, n);
      forall q | p < q < n ensures q !in b1 && q !in b2 {
        assert q in b1 ==> Clear(h1, p, q);
        assert q in b2 ==> Clear(h2, p, q);
      }
    }
  }

  lemma FreeBlockEndsSame(h1: Blocks, b1: set<int>, h2: Blocks, b2: set<int>, end: int, p: int)
    requires Chain(h1, b1, end) && Coalesced(h1, b1, end)
    requires Chain(h2, b2, end)
    requires UsedMap(h1, b1, end) == UsedMap(h2, b2, end)
    requires p in b1 && p in b2 && p != end && !h1[p].used
    ensures h2[p].next <= h1[p].next
  {
    assert Linked(h1, b1, end, p) && Fenced(h1, p);
    var n := h1[p].next;
    assert n in b2 by {
      assert n != end ==> n in UsedMap(h1, b1, end);
    }
    assert Clear(h2, p, n);
  }

  /** The live blocks alone fix the block list, the lowest free block and the used total. */
  lemma HeapCanonical(h1: Blocks, b1: set<int>, l1: int, u1: int, h2: Blocks, b2: set<int>, l2: int, u2: int, end: int)
    requires Solid(h1, b1, end, u1) && LowestFree(h1, b1, end, l1)
    requires Solid(h2, b2, end, u2) && LowestFree(h2, b2, end, l2)
    requires UsedMap(h1, b1, end) == UsedMap(h2, b2, end)
    ensures b1 == b2 && l1 == l2 && u1 == u2
    ensures forall p | p in b1 ::
              h1[p].used == h2[p].used && h1[p].next == h2[p].next
              && (p != end ==> h1[p].prev == h2[p].prev)
  {
    WalkAgree(h1, b1, h2, b2, end, 0);
    forall q ensures q in b1 <==> q in b2 {
      assert q in b1 ==> Linked(h1, b1, end, q);
      assert q in b2 ==> Linked(h2, b2, end, q);
    }
    forall p | p in b1
      ensures h1[p].used == h2[p].used && h1[p].next == h2[p].next && (p != end ==> h1[p].prev == h2[p].prev)
    {
      assert Linked(h1, b1, end, p) && Linked(h2, b2, end, p);
      if 0 < p < end {
        assert Linked(h1, b1, end, h1[p].prev) && Linked(h2, b2, end, h1[p].prev);
      }
    }
    UsedBytesBelow(h1, b1, h2, b2, end, 0, end);
    assert Linked(h1, b1, end, 0);
    assert IsFree(h1, b1, l1) <==> IsFree(h2, b2, l1);
    assert IsFree(h1, b1, l2) <==> IsFree(h2, b2, l2);
    assert Linked(h1, b1, end, l1) && Linked(h2, b2, end, l2);
  }
}
