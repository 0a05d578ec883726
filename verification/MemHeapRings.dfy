/**
 The two rings that memheap.c threads through its block headers: the block ring
 (`next`/`prev`, in address order) and the free ring (`next_free`/`prev_free`,
 headed by the pool's `free_header`).  Addresses are offsets from the pool start.
 */
module MemHeapRings {

  const HEADER: int := 48       // RT_MEMHEAP_SIZE: a 48-byte item on a 64-bit target
  const FREE_HEADER: int := -48 // the free list header lives outside the pool
  const NIL: int := -1          // RT_NULL

  datatype Item = Item(used: bool, next: int, prev: int, nextFree: int, prevFree: int)

  type Items = map<int, Item>

  /** MEMITEM_SIZE */
  function Payload(h: Items, p: int): int
    requires p in h
  {
    h[p].next - p - HEADER
  }

  // ---------------------------------------------------------------- block ring

  /** Block `p` is doubly linked to its neighbours in address order; the ring closes from the tail to 0. */
  ghost predicate Linked(h: Items, b: set<int>, tail: int, p: int) {
    && p in h
    && 0 <= p <= tail
    && p % 4 == 0
    && (if p == tail then h[p].next == 0
        else && h[p].next in b
             && p + HEADER <= h[p].next
             && h[p].next in h
             && h[h[p].next].prev == p)
    && (if p == 0 then h[p].prev == tail
        else && h[p].prev in b
             && h[p].prev < p
             && h[p].prev in h
             && h[h[p].prev].next == p)
  }

  /** No block starts strictly inside block `p`. */
  ghost predicate Clear(h: Items, p: int, q: int)
    requires p in h
  {
    p < q ==> h[p].next <= q
  }

  ghost predicate BlockRing(h: Items, b: set<int>, tail: int) {
    && 0 < tail
    && 0 in b
    && tail in b
    && b <= h.Keys
    && (forall p {:trigger Linked(h, b, tail, p)} | p in b :: Linked(h, b, tail, p))
    && (forall p, q {:trigger Clear(h, p, q)} | p in b && q in b :: Clear(h, p, q))
  }

  /** If block `p` is free, the block after it is used. */
  ghost predicate Fenced(h: Items, p: int) {
    p in h && (!h[p].used ==> h[p].next in h && h[h[p].next].used)
  }

  /** No two neighbouring blocks are both free. */
  ghost predicate Coalesced(h: Items, b: set<int>, tail: int) {
    && tail in h && h[tail].used
    && forall p {:trigger Fenced(h, p)} | p in b && p != tail :: Fenced(h, p)
  }

  /** The headers in `b` hold the same block links in both heaps. */
  ghost predicate SameBlocks(h: Items, h': Items, b: set<int>) {
    && b <= h.Keys
    && b <= h'.Keys
    && forall p | p in b :: h'[p].next == h[p].next && h'[p].prev == h[p].prev
  }

  lemma BlockRingFrame(h: Items, h': Items, b: set<int>, tail: int)
    requires BlockRing(h, b, tail)
    requires SameBlocks(h, h', b)
    ensures BlockRing(h', b, tail)
  {
    forall p | p in b ensures Linked(h', b, tail, p) {
      assert Linked(h, b, tail, p);
    }
    forall p, q | p in b && q in b ensures Clear(h', p, q) {
      assert Clear(h, p, q);
    }
  }

  /** `h'` is `h` with a new header `n` linked between block `p` and its successor. */
  ghost predicate Inserted(h: Items, h': Items, b: set<int>, tail: int, p: int, n: int) {
    && b <= h.Keys
    && p in b && p != tail && n !in b
    && h[p].next in b
    && b <= h'.Keys && n in h'
    && h'[n].prev == p && h'[n].next == h[p].next
    && h'[p].next == n && h'[p].prev == h[p].prev
    && h'[h[p].next].prev == n && h'[h[p].next].next == h[h[p].next].next
    && (forall q | q in b && q != p && q != h[p].next :: h'[q].next == h[q].next && h'[q].prev == h[q].prev)
  }

  lemma InsertedFits(h: Items, b: set<int>, tail: int, p: int, n: int)
    requires BlockRing(h, b, tail)
    requires p in b && p != tail
    requires p < n < h[p].next
    ensures n !in b
    ensures h[p].next in b
  {
    assert Linked(h, b, tail, p);
    assert n in b ==> Clear(h, p, n);
  }

  /** Linking a new header `n` inside block `p` gives the ring with one more block. */
  lemma BlockRingInsert(h: Items, h': Items, b: set<int>, tail: int, p: int, n: int)
    requires BlockRing(h, b, tail)
    requires Inserted(h, h', b, tail, p, n)
    requires p + HEADER <= n && n + HEADER <= h[p].next && n % 4 == 0
    ensures BlockRing(h', b + {n}, tail)
  {
    var b' := b + {n};
    assert Linked(h, b, tail, p);
    assert Linked(h, b, tail, h[p].next);
    forall q | q in b' ensures Linked(h', b', tail, q) {
      InsertLinked(h, h', b, tail, p, n, q);
    }
    forall q, r | q in b' && r in b' ensures Clear(h', q, r) {
      InsertClear(h, h', b, tail, p, n, q, r);
    }
  }

  lemma InsertLinked(h: Items, h': Items, b: set<int>, tail: int, p: int, n: int, q: int)
    requires BlockRing(h, b, tail)
    requires Inserted(h, h', b, tail, p, n)
    requires p + HEADER <= n && n + HEADER <= h[p].next && n % 4 == 0
    requires q in b + {n}
    ensures Linked(h', b + {n}, tail, q)
  {
    assert Linked(h, b, tail, p);
    assert Linked(h, b, tail, h[p].next);
    if q != n {
      assert Linked(h, b, tail, q);
    }
  }

  lemma InsertClear(h: Items, h': Items, b: set<int>, tail: int, p: int, n: int, q: int, r: int)
    requires BlockRing(h, b, tail)
    requires Inserted(h, h', b, tail, p, n)
    requires p < n < h[p].next
    requires q in b + {n} && r in b + {n}
    ensures Clear(h', q, r)
  {
    assert Linked(h, b, tail, p);
    if q == n {
      if r != n { assert Clear(h, p, r); }
    } else if r == n {
      assert Clear(h, p, q);
      assert Clear(h, q, p);
    } else {
      assert Clear(h, q, r);
    }
  }

  /** Unlinking block `q` merges it into the block before it. */
  lemma BlockRingRemove(h: Items, h': Items, b: set<int>, tail: int, q: int)
    requires BlockRing(h, b, tail)
    requires q in b && q != tail && q != 0
    requires b <= h'.Keys
    requires Linked(h, b, tail, q)
    requires var p, m := h[q].prev, h[q].next;
             && h'[p].next == m && h'[p].prev == h[p].prev
             && h'[m].prev == p && h'[m].next == h[m].next
             && forall r | r in b && r != p && r != m && r != q :: h'[r].next == h[r].next && h'[r].prev == h[r].prev
    ensures BlockRing(h', b - {q}, tail)
  {
    var b' := b - {q};
    var p, m := h[q].prev, h[q].next;
    assert Linked(h, b, tail, p);
    assert Linked(h, b, tail, m);
    forall r | r in b' ensures Linked(h', b', tail, r) {
      assert Linked(h, b, tail, r);
    }
    forall r, s | r in b' && s in b' ensures Clear(h', r, s) {
      assert Clear(h, r, s);
      if r == p { assert Clear(h, q, s); }
    }
  }

  // ---------------------------------------------------------------- free ring

  /** The free ring read cyclically: positions -1 and |f| are the list header. */
  function At(f: seq<int>, i: int): int
    requires -1 <= i <= |f|
  {
    if 0 <= i < |f| then f[i] else FREE_HEADER
  }

  ghost predicate Hooked(h: Items, f: seq<int>, i: nat)
    requires i <= |f|
  {
    && At(f, i - 1) in h
    && At(f, i) in h
    && h[At(f, i - 1)].nextFree == At(f, i)
    && h[At(f, i)].prevFree == At(f, i - 1)
  }

  ghost predicate FreeRing(h: Items, f: seq<int>) {
    && FREE_HEADER in h
    && FREE_HEADER !in f
    && (forall i, j | 0 <= i < j < |f| :: f[i] != f[j])
    && (forall i: nat {:trigger Hooked(h, f, i)} | i <= |f| :: Hooked(h, f, i))
  }

  function Without(f: seq<int>, k: nat): seq<int>
    requires k < |f|
  {
    f[..k] + f[k + 1..]
  }

  /** `f` without `x`, for a list that holds `x` at most once. */
  ghost function Remove(f: seq<int>, x: int): seq<int> {
    if x in f then
      var k :| 0 <= k < |f| && f[k] == x;
      Without(f, k)
    else f
  }

  lemma RemoveIsWithout(f: seq<int>, k: nat)
    requires k < |f|
    requires forall i, j | 0 <= i < j < |f| :: f[i] != f[j]
    ensures Remove(f, f[k]) == Without(f, k)
  {
  }

  lemma FreeRingFrame(h: Items, h': Items, f: seq<int>)
    requires FreeRing(h, f)
    requires forall p | p == FREE_HEADER || p in f ::
               p in h && p in h' && h'[p].nextFree == h[p].nextFree && h'[p].prevFree == h[p].prevFree
    ensures FreeRing(h', f)
  {
    forall i: nat | i <= |f| ensures Hooked(h', f, i) {
      assert Hooked(h, f, i);
    }
  }

  lemma FreeRingMembers(h: Items, f: seq<int>)
    requires FreeRing(h, f)
    ensures forall p | p in f :: p in h
  {
    forall i | 0 <= i < |f| ensures f[i] in h {
      assert Hooked(h, f, i);
    }
  }

  /** Unhooking the k-th free block by its own two links leaves the ring of the others. */
  lemma FreeRingRemove(h: Items, h': Items, f: seq<int>, k: nat)
    requires FreeRing(h, f)
    requires k < |f|
    requires var n, p := At(f, k + 1), At(f, k - 1);
             && h'.Keys == h.Keys
             && n in h && p in h
             && h'[n].prevFree == p
             && h'[p].nextFree == n
             && (n != p ==> h'[n].nextFree == h[n].nextFree && h'[p].prevFree == h[p].prevFree)
             && forall r | r in h && r != n && r != p :: h'[r].nextFree == h[r].nextFree
                 && h'[r].prevFree == h[r].prevFree
    ensures FreeRing(h', Without(f, k))
  {
    var f' := Without(f, k);
    forall i: nat | i <= |f'| ensures Hooked(h', f', i) {
      if i < k {
        assert Hooked(h, f, i);
      } else {
        assert Hooked(h, f, i + 1);
        if i == k { assert Hooked(h, f, k); }
      }
    }
  }

  /** Hooking `p` in right after the header puts it at the front. */
  lemma FreeRingPush(h: Items, h': Items, f: seq<int>, p: int)
    requires FreeRing(h, f)
    requires p !in f && p != FREE_HEADER && p in h
    requires h'.Keys == h.Keys
    requires var n := At(f, 0);
             && n in h
             && h'[p].nextFree == n && h'[p].prevFree == FREE_HEADER
             && h'[n].prevFree == p
             && h'[FREE_HEADER].nextFree == p
             && (n != FREE_HEADER ==>
                   h'[n].nextFree == h[n].nextFree
                   && h'[FREE_HEADER].prevFree == h[FREE_HEADER].prevFree)
             && forall r | r in h && r != n && r != p && r != FREE_HEADER ::
                  h'[r].nextFree == h[r].nextFree && h'[r].prevFree == h[r].prevFree
    ensures FreeRing(h', [p] + f)
  {
    var f' := [p] + f;
    forall i: nat | i <= |f'| ensures Hooked(h', f', i) {
      if i > 0 {
        assert Hooked(h, f, i - 1);
      } else {
        assert Hooked(h, f, |f|);
      }
    }
  }

  // ---------------------------------------------------------------- accounting

  ghost function FreeBytes(h: Items, f: seq<int>): int
    requires forall p | p in f :: p in h
  {
    if f == [] then 0 else Payload(h, f[0]) + FreeBytes(h, f[1..])
  }

  lemma {:induction false} FreeBytesFrame(h: Items, h': Items, f: seq<int>)
    requires forall p | p in f :: p in h && p in h' && h'[p].next == h[p].next
    ensures FreeBytes(h', f) == FreeBytes(h, f)
  {
    if f != [] {
      FreeBytesFrame(h, h', f[1..]);
    }
  }

  lemma {:induction false} FreeBytesRemove(h: Items, f: seq<int>, k: nat)
    requires k < |f|
    requires forall p | p in f :: p in h
    ensures forall p | p in Without(f, k) :: p in h
    ensures FreeBytes(h, f) == Payload(h, f[k]) + FreeBytes(h, Without(f, k))
  {
    if k == 0 {
      assert Without(f, 0) == f[1..];
    } else {
      FreeBytesRemove(h, f[1..], k - 1);
      assert Without(f, k)[1..] == Without(f[1..], k - 1);
      assert Without(f, k)[0] == f[0];
    }
  }

  /** Only one free block changed size. */
  lemma FreeBytesResize(h: Items, h': Items, f: seq<int>, k: nat)
    requires k < |f|
    requires forall i, j | 0 <= i < j < |f| :: f[i] != f[j]
    requires forall p | p in f :: p in h && p in h'
    requires forall p | p in f && p != f[k] :: h'[p].next == h[p].next
    ensures FreeBytes(h', f) == FreeBytes(h, f) + Payload(h', f[k]) - Payload(h, f[k])
  {
    FreeBytesRemove(h, f, k);
    FreeBytesRemove(h', f, k);
    FreeBytesFrame(h, h', Without(f, k));
  }

  lemma {:induction false} FreeBytesNonNegative(h: Items, f: seq<int>)
    requires forall p | p in f :: p in h && Payload(h, p) >= 0
    ensures FreeBytes(h, f) >= 0
    ensures forall p | p in f :: Payload(h, p) <= FreeBytes(h, f)
  {
    if f != [] {
      FreeBytesNonNegative(h, f[1..]);
    }
  }

  // ---------------------------------------------------------------- first fit

  /** No block of the list holds `size` bytes. */
  ghost predicate NoFit(h: Items, f: seq<int>, size: int) {
    forall p | p in f :: p in h && Payload(h, p) < size
  }

  /** `f[k]` is the first block of the list, in list order, that holds `size` bytes. */
  ghost predicate FirstFitAt(h: Items, f: seq<int>, k: nat, size: int) {
    && k < |f| && f[k] in h && Payload(h, f[k]) >= size
    && NoFit(h, f[..k], size)
  }

  // ---------------------------------------------------------------- canonical layout

  /** The live allocations: address and payload size of every used block but the tail. */
  ghost function UsedMap(h: Items, b: set<int>, tail: int): map<int, int>
    requires b <= h.Keys
  {
    map p | p in b && p != tail && h[p].used :: Payload(h, p)
  }

  lemma {:induction false} WalkAgree(h1: Items, b1: set<int>, h2: Items, b2: set<int>, tail: int, p: int)
    requires BlockRing(h1, b1, tail) && Coalesced(h1, b1, tail)
    requires BlockRing(h2, b2, tail) && Coalesced(h2, b2, tail)
    requires UsedMap(h1, b1, tail) == UsedMap(h2, b2, tail)
    requires p in b1 && p in b2
    ensures forall q | q >= p :: q in b1 <==> q in b2
    ensures forall q | q >= p && q in b1 && q in b2 :: h1[q].used == h2[q].used && h1[q].next == h2[q].next
    decreases tail - p
  {
    assert Linked(h1, b1, tail, p) && Linked(h2, b2, tail, p);
    if p == tail {
      forall q | q > p ensures q !in b1 && q !in b2 {
        assert q in b1 ==> Linked(h1, b1, tail, q);
        assert q in b2 ==> Linked(h2, b2, tail, q);
      }
    } else {
      assert h1[p].used <==> p in UsedMap(h1, b1, tail);
      assert h2[p].used <==> p in UsedMap(h2, b2, tail);
      var n := h1[p].next;
      if h1[p].used {
        assert UsedMap(h1, b1, tail)[p] == UsedMap(h2, b2, tail)[p];
      } else {
        FreeBlockEndsSame(h1, b1, h2, b2, tail, p);
        FreeBlockEndsSame(h2, b2, h1, b1, tail, p);
      }
      WalkAgree(h1, b1, h2, b2, tail, n);
      forall q | p < q < n ensures q !in b1 && q !in b2 {
        assert q in b1 ==> Clear(h1, p, q);
        assert q in b2 ==> Clear(h2, p, q);
      }
    }
  }

  lemma FreeBlockEndsSame(h1: Items, b1: set<int>, h2: Items, b2: set<int>, tail: int, p: int)
    requires BlockRing(h1, b1, tail) && Coalesced(h1, b1, tail)
    requires BlockRing(h2, b2, tail)
    requires UsedMap(h1, b1, tail) == UsedMap(h2, b2, tail)
    requires p in b1 && p in b2 && p != tail && !h1[p].used
    ensures h2[p].next <= h1[p].next
  {
    assert Linked(h1, b1, tail, p) && Fenced(h1, p);
    var n := h1[p].next;
    assert n in b2 by {
      assert n != tail ==> n in UsedMap(h1, b1, tail);
    }
    assert Clear(h2, p, n);
  }

  /**
   The live allocations determine the whole block layout: two coalesced heaps of
   one size with the same used blocks have the same blocks, links and flags.
   */
  lemma LayoutCanonical(h1: Items, b1: set<int>, h2: Items, b2: set<int>, tail: int)
    requires BlockRing(h1, b1, tail) && Coalesced(h1, b1, tail)
    requires BlockRing(h2, b2, tail) && Coalesced(h2, b2, tail)
    requires UsedMap(h1, b1, tail) == UsedMap(h2, b2, tail)
    ensures b1 == b2
    ensures forall p | p in b1 :: h1[p].used == h2[p].used && h1[p].next == h2[p].next && h1[p].prev == h2[p].prev
  {
    WalkAgree(h1, b1, h2, b2, tail, 0);
    forall q ensures q in b1 <==> q in b2 {
      assert q in b1 ==> Linked(h1, b1, tail, q);
      assert q in b2 ==> Linked(h2, b2, tail, q);
    }
    forall p | p in b1
      ensures h1[p].used == h2[p].used && h1[p].next == h2[p].next && h1[p].prev == h2[p].prev
    {
      assert Linked(h1, b1, tail, p);
      assert Linked(h2, b2, tail, p);
      if p != 0 {
        assert Linked(h1, b1, tail, h1[p].prev);
        assert Linked(h2, b2, tail, h1[p].prev);
      }
    }
  }

  lemma {:induction false} DistinctMultiset(f: seq<int>)
    requires forall i, j | 0 <= i < j < |f| :: f[i] != f[j]
    ensures forall x :: multiset(f)[x] == if x in f then 1 else 0
  {
    if f != [] {
      DistinctMultiset(f[1..]);
      assert f == [f[0]] + f[1..];
    }
  }

  lemma WithoutMultiset(f: seq<int>, k: nat)
    requires k < |f|
    ensures multiset(Without(f, k)) == multiset(f) - multiset{f[k]}
  {
    assert f == f[..k] + [f[k]] + f[k + 1..];
  }

  /** Two free lists of the same blocks hold the same number of bytes, whatever their order. */
  lemma {:induction false} FreeBytesOrder(h: Items, f: seq<int>, g: seq<int>)
    requires forall p | p in f :: p in h
    requires forall p | p in g :: p in h
    requires multiset(f) == multiset(g)
    ensures FreeBytes(h, f) == FreeBytes(h, g)
  {
    if f == [] {
      assert |multiset(g)| == 0;
    } else {
      assert f[0] in multiset(f);
      var k :| 0 <= k < |g| && g[k] == f[0];
      assert multiset(f[1..]) == multiset(Without(g, k)) by {
        WithoutMultiset(g, k);
        WithoutMultiset(f, 0);
        assert Without(f, 0) == f[1..];
      }
      FreeBytesRemove(h, g, k);
      FreeBytesOrder(h, f[1..], Without(g, k));
    }
  }

  /** Live payloads are pairwise disjoint and lie between their own header and the tail. */
  lemma PayloadsDisjoint(h: Items, b: set<int>, tail: int, p: int, q: int)
    requires BlockRing(h, b, tail)
    requires p in UsedMap(h, b, tail) && q in UsedMap(h, b, tail) && p != q
    ensures var u := UsedMap(h, b, tail);
            && p + HEADER + u[p] <= tail
            && (p + HEADER + u[p] <= q || q + HEADER + u[q] <= p)
  {
    assert Clear(h, p, q) && Clear(h, q, p);
    assert Linked(h, b, tail, p);
    assert Linked(h, b, tail, h[p].next);
  }

  // ---------------------------------------------------------------- what each operation does to the layout

  ghost predicate IsFree(h: Items, b: set<int>, p: int) {
    p in b && p in h && !h[p].used
  }

  /** The free list `f` lists exactly the free blocks of `b`, each once. */
  ghost predicate ListsFree(h: Items, b: set<int>, f: seq<int>) {
    && b <= h.Keys
    && (forall p :: p in f <==> IsFree(h, b, p))
    && (forall i, j | 0 <= i < j < |f| :: f[i] != f[j])
  }

  lemma ListsFreeRemove(h: Items, b: set<int>, h': Items, b': set<int>, f: seq<int>, k: nat)
    requires ListsFree(h, b, f) && k < |f|
    requires b' <= h'.Keys
    requires forall p :: IsFree(h', b', p) <==> IsFree(h, b, p) && p != f[k]
    ensures ListsFree(h', b', Without(f, k))
  {
    WithoutMembers(f, k);
  }

  lemma ListsFreePush(h: Items, b: set<int>, h': Items, b': set<int>, f: seq<int>, n: int)
    requires ListsFree(h, b, f) && n !in f
    requires b' <= h'.Keys
    requires forall p :: IsFree(h', b', p) <==> IsFree(h, b, p) || p == n
    ensures ListsFree(h', b', [n] + f)
  {
  }

  /** The free block `p` becomes used as a whole. */
  ghost predicate TookWhole(h: Items, h': Items, b: set<int>, p: int) {
    && b <= h.Keys && b <= h'.Keys
    && IsFree(h, b, p)
    && forall q | q in b :: h'[q].next == h[q].next && h'[q].used == (h[q].used || q == p)
  }

  /** Everything a pool's headers and free counter satisfy between operations. */
  ghost predicate Sound(h: Items, b: set<int>, f: seq<int>, tail: int, available: int) {
    && BlockRing(h, b, tail)
    && FreeRing(h, f)
    && Coalesced(h, b, tail)
    && ListsFree(h, b, f)
    && available == FreeBytes(h, f)
  }

  lemma TakeWholeLayout(h: Items, h': Items, b: set<int>, tail: int, p: int)
    requires BlockRing(h, b, tail) && BlockRing(h', b, tail) && Coalesced(h, b, tail)
    requires TookWhole(h, h', b, p)
    ensures Coalesced(h', b, tail)
    ensures p !in UsedMap(h, b, tail)
    ensures UsedMap(h', b, tail) == UsedMap(h, b, tail)[p := Payload(h, p)]
  {
    forall q | q in b && q != tail ensures Fenced(h', q) {
      assert Linked(h, b, tail, q) && Fenced(h, q);
    }
  }

  lemma TakeWholeSound(h: Items, h': Items, b: set<int>, f: seq<int>, tail: int, available: int, k: nat)
    requires Sound(h, b, f, tail, available) && k < |f|
    requires BlockRing(h', b, tail) && FreeRing(h', Without(f, k))
    requires TookWhole(h, h', b, f[k])
    ensures Sound(h', b, Without(f, k), tail, available - Payload(h, f[k]))
    ensures f[k] !in UsedMap(h, b, tail)
    ensures UsedMap(h', b, tail) == UsedMap(h, b, tail)[f[k] := Payload(h, f[k])]
  {
    TakeWholeLayout(h, h', b, tail, f[k]);
    ListsFreeRemove(h, b, h', b, f, k);
    FreeBytesRemove(h, f, k);
    FreeBytesFrame(h, h', Without(f, k));
  }

  /** The free block `p` is cut at `n`: its first part becomes used, the rest a new free block. */
  ghost predicate TookSplit(h: Items, h': Items, b: set<int>, p: int, n: int) {
    && b <= h.Keys && b + {n} <= h'.Keys
    && IsFree(h, b, p) && n !in b
    && p < n < h[p].next
    && h'[n].next == h[p].next && !h'[n].used
    && h'[p].next == n && h'[p].used
    && forall q | q in b && q != p :: h'[q].next == h[q].next && h'[q].used == h[q].used
  }

  lemma TakeSplitLayout(h: Items, h': Items, b: set<int>, tail: int, p: int, n: int)
    requires BlockRing(h, b, tail) && BlockRing(h', b + {n}, tail) && Coalesced(h, b, tail)
    requires TookSplit(h, h', b, p, n)
    ensures Coalesced(h', b + {n}, tail)
    ensures p !in UsedMap(h, b, tail)
    ensures UsedMap(h', b + {n}, tail) == UsedMap(h, b, tail)[p := n - p - HEADER]
  {
    assert Linked(h, b, tail, p);
    assert Linked(h, b, tail, tail);
    assert Fenced(h, p);
    forall q | q in b + {n} && q != tail ensures Fenced(h', q) {
      assert q != n ==> Linked(h, b, tail, q) && Fenced(h, q);
    }
  }

  lemma TakeSplitSound(h: Items, h': Items, b: set<int>, f: seq<int>, tail: int, available: int, k: nat, n: int)
    requires Sound(h, b, f, tail, available) && k < |f|
    requires BlockRing(h', b + {n}, tail) && FreeRing(h', [n] + Without(f, k))
    requires TookSplit(h, h', b, f[k], n)
    ensures Sound(h', b + {n}, [n] + Without(f, k), tail, available - (n - f[k]))
    ensures f[k] !in UsedMap(h, b, tail)
    ensures UsedMap(h', b + {n}, tail) == UsedMap(h, b, tail)[f[k] := n - f[k] - HEADER]
  {
    var g := Without(f, k);
    TakeSplitLayout(h, h', b, tail, f[k], n);
    var h1 := h[f[k] := h[f[k]].(used := true)];
    ListsFreeRemove(h, b, h1, b, f, k);
    ListsFreePush(h1, b, h', b + {n}, g, n);
    FreeBytesRemove(h, f, k);
    FreeBytesFrame(h, h', g);
    assert ([n] + g)[1..] == g;
  }

  // ---------------------------------------------------------------- freeing in steps

  /**
   Half-way through a free: block `x` is free, perhaps not yet on the free list
   (`hooked`), perhaps still next to a free block on its left (`leftDone`) or right.
   */
  ghost predicate Pending(h: Items, b: set<int>, f: seq<int>, tail: int, available: int, x: int, hooked: bool,
                          leftDone: bool) {
    && BlockRing(h, b, tail)
    && FreeRing(h, f)
    && x != tail && IsFree(h, b, x)
    && h[tail].used
    && (forall p :: p in f <==> IsFree(h, b, p) && (hooked || p != x))
    && (forall q {:trigger Fenced(h, q)} | q in b && q != tail && q != x
        && (leftDone || h[q].next != x) :: Fenced(h, q))
    && available == FreeBytes(h, f) + (if hooked then 0 else Payload(h, x))
  }

  lemma MarkFreePending(h: Items, h': Items, b: set<int>, f: seq<int>, tail: int, available: int, x: int)
    requires Sound(h, b, f, tail, available)
    requires x in UsedMap(h, b, tail)
    requires h' == h[x := h[x].(used := false)]
    requires BlockRing(h', b, tail) && FreeRing(h', f)
    ensures Pending(h', b, f, tail, available + Payload(h, x), x, false, false)
    ensures UsedMap(h', b, tail) == UsedMap(h, b, tail) - {x}
  {
    FreeBytesFrame(h, h', f);
    forall q | q in b && q != tail && q != x && h'[q].next != x ensures Fenced(h', q) {
      assert Fenced(h, q);
    }
    assert Linked(h, b, tail, tail);
  }

  /** `h'` is `h` after block `q` was unlinked from the block ring. */
  ghost predicate Merged(h: Items, h': Items, b: set<int>, q: int) {
    && b <= h.Keys && b <= h'.Keys
    && q in b && h[q].prev in b && h[q].prev != q
    && h'[h[q].prev].next == h[q].next
    && (forall r | r in b :: h'[r].used == h[r].used)
    && (forall r | r in b && r != h[q].prev :: h'[r].next == h[r].next)
  }

  /** Merging `x` into the free block on its left. */
  lemma MergeLeftPending(h: Items, h': Items, b: set<int>, f: seq<int>, tail: int, available: int, x: int)
    requires Pending(h, b, f, tail, available, x, false, false)
    requires h[x].prev in h && !h[h[x].prev].used
    requires Merged(h, h', b, x)
    requires BlockRing(h', b - {x}, tail) && FreeRing(h', f)
    ensures x != 0
    ensures Pending(h', b - {x}, f, tail, available + HEADER, h[x].prev, true, true)
    ensures UsedMap(h', b - {x}, tail) == UsedMap(h, b, tail)
  {
    var l := h[x].prev;
    var b' := b - {x};
    assert Linked(h, b, tail, x) && Linked(h, b, tail, l);
    assert l in f;
    var k :| 0 <= k < |f| && f[k] == l;
    FreeBytesResize(h, h', f, k);
    forall q | q in b' && q != tail && q != l ensures Fenced(h', q) {
      assert Linked(h, b, tail, q) && Fenced(h, q);
    }
  }

  lemma NoMergeLeftPending(h: Items, b: set<int>, f: seq<int>, tail: int, available: int, x: int)
    requires Pending(h, b, f, tail, available, x, false, false)
    requires h[x].prev in h && h[h[x].prev].used
    ensures Pending(h, b, f, tail, available, x, false, true)
  {
    forall q | q in b && q != tail && q != x ensures Fenced(h, q) {
      assert Linked(h, b, tail, q) && Linked(h, b, tail, x);
    }
  }

  /** Merging the free block on the right of `x` into `x`. */
  lemma MergeRightPending(h: Items, h': Items, b: set<int>, f: seq<int>, tail: int, available: int, x: int,
                          hooked: bool, k: nat)
    requires Pending(h, b, f, tail, available, x, hooked, true)
    requires k < |f| && f[k] == h[x].next
    requires f[k] in b && h[f[k]].prev == x
    requires Merged(h, h', b, f[k])
    requires BlockRing(h', b - {f[k]}, tail) && FreeRing(h', Without(f, k))
    ensures Pending(h', b - {f[k]}, Without(f, k), tail, available + HEADER, x, hooked, true)
    ensures Fenced(h', x)
    ensures UsedMap(h', b - {f[k]}, tail) == UsedMap(h, b, tail)
  {
    var n := f[k];
    var b' := b - {n};
    var g := Without(f, k);
    assert n in f;
    assert Linked(h, b, tail, x) && Linked(h, b, tail, n) && Fenced(h, n);
    forall q | q in b' && q != tail && q != x ensures Fenced(h', q) {
      assert Linked(h, b, tail, q) && Fenced(h, q);
    }
    FreeBytesRemove(h, f, k);
    WithoutMembers(f, k);
    if hooked {
      assert x in g;
      var j :| 0 <= j < |g| && g[j] == x;
      FreeBytesResize(h, h', g, j);
    } else {
      FreeBytesFrame(h, h', g);
    }
  }

  lemma WithoutMembers(f: seq<int>, k: nat)
    requires k < |f|
    requires forall i, j | 0 <= i < j < |f| :: f[i] != f[j]
    ensures forall p :: p in Without(f, k) <==> p in f && p != f[k]
    ensures forall i, j | 0 <= i < j < |f| - 1 :: Without(f, k)[i] != Without(f, k)[j]
  {
    var g := Without(f, k);
    forall p ensures p in g <==> p in f && p != f[k] {
      if p in f && p != f[k] {
        var i :| 0 <= i < |f| && f[i] == p;
        assert i < k ==> g[i] == p;
        assert i > k ==> g[i - 1] == p;
      }
    }
  }

  /** With both neighbours used, a hooked block is an ordinary free block. */
  lemma HookedSound(h: Items, b: set<int>, f: seq<int>, tail: int, available: int, x: int)
    requires Pending(h, b, f, tail, available, x, true, true) && Fenced(h, x)
    ensures Sound(h, b, f, tail, available)
  {
  }

  /** With both neighbours used, hooking the block in front completes the free. */
  lemma PushedSound(h: Items, h': Items, b: set<int>, f: seq<int>, tail: int, available: int, x: int)
    requires Pending(h, b, f, tail, available, x, false, true) && Fenced(h, x)
    requires forall p | p in h :: p in h' && h'[p].next == h[p].next && h'[p].used == h[p].used
    requires BlockRing(h', b, tail) && FreeRing(h', [x] + f)
    ensures Sound(h', b, [x] + f, tail, available)
    ensures UsedMap(h', b, tail) == UsedMap(h, b, tail)
  {
    forall q | q in b && q != tail ensures Fenced(h', q) {
      assert Fenced(h, q);
    }
    FreeRingMembers(h, f);
    FreeBytesFrame(h, h', f);
    assert ([x] + f)[1..] == f;
  }

  // ---------------------------------------------------------------- resizing in place

  /** Used block `p` swallows the free block after it. */
  lemma AbsorbSound(h: Items, h': Items, b: set<int>, f: seq<int>, tail: int, available: int, p: int, k: nat)
    requires Sound(h, b, f, tail, available)
    requires p in UsedMap(h, b, tail)
    requires k < |f| && f[k] == h[p].next
    requires f[k] in b && h[f[k]].prev == p
    requires Merged(h, h', b, f[k])
    requires BlockRing(h', b - {f[k]}, tail) && FreeRing(h', Without(f, k))
    ensures h[f[k]].next in b && h[h[f[k]].next].used && f[k] != tail && f[k] != h[f[k]].next
    ensures Sound(h', b - {f[k]}, Without(f, k), tail, available - Payload(h, f[k]))
    ensures UsedMap(h', b - {f[k]}, tail) == UsedMap(h, b, tail)[p := Payload(h, p) + HEADER + Payload(h, f[k])]
  {
    var n := f[k];
    var b' := b - {n};
    assert n in f;
    assert Linked(h, b, tail, p) && Linked(h, b, tail, n) && Fenced(h, n);
    forall q | q in b' && q != tail ensures Fenced(h', q) {
      assert Linked(h, b, tail, q) && Fenced(h, q);
    }
    ListsFreeRemove(h, b, h', b', f, k);
    FreeBytesRemove(h, f, k);
    FreeBytesFrame(h, h', Without(f, k));
  }

  /** Used block `p` is cut at `n`: the cut-off part is a free block not yet on the free list. */
  lemma ShedPending(h: Items, h': Items, b: set<int>, f: seq<int>, tail: int, available: int, p: int, n: int)
    requires Sound(h, b, f, tail, available)
    requires p in UsedMap(h, b, tail) && n !in b
    requires p + HEADER <= n && n + HEADER <= h[p].next
    requires BlockRing(h', b + {n}, tail) && FreeRing(h', f)
    requires h'[p].next == n && h'[n].next == h[p].next && !h'[n].used
    requires forall q | q in b :: h'[q].used == h[q].used && (q != p ==> h'[q].next == h[q].next)
    ensures Pending(h', b + {n}, f, tail, available + h[p].next - n - HEADER, n, false, true)
    ensures UsedMap(h', b + {n}, tail) == UsedMap(h, b, tail)[p := n - p - HEADER]
  {
    assert Linked(h, b, tail, p) && Linked(h, b, tail, tail);
    forall q | q in b && q != tail ensures Fenced(h', q) {
      assert Linked(h, b, tail, q) && Fenced(h, q);
    }
    forall q ensures q in f <==> IsFree(h', b + {n}, q) && q != n {
      assert q in f <==> IsFree(h, b, q);
    }
    FreeBytesFrame(h, h', f);
  }

  /** The headers rt_memheap_init writes: one free block and the tail. */
  lemma InitialSound(h: Items, tail: int)
    requires tail >= HEADER && tail % 4 == 0
    requires h == map[
        FREE_HEADER := Item(false, NIL, NIL, 0, 0),
        0 := Item(false, tail, tail, FREE_HEADER, FREE_HEADER),
        tail := Item(true, 0, 0, NIL, NIL)
      ]
    ensures Sound(h, {0, tail}, [0], tail, tail - HEADER)
    ensures UsedMap(h, {0, tail}, tail) == map[]
  {
    assert Linked(h, {0, tail}, tail, 0) && Linked(h, {0, tail}, tail, tail);
    assert Hooked(h, [0], 0) && Hooked(h, [0], 1);
    assert FreeBytes(h, [0]) == Payload(h, 0) + FreeBytes(h, []);
  }

  /** A sound pool with no live allocation is back to its single free block. */
  lemma EmptyIsInitial(h: Items, b: set<int>, f: seq<int>, tail: int, available: int)
    requires Sound(h, b, f, tail, available)
    requires UsedMap(h, b, tail) == map[]
    ensures b == {0, tail} && f == [0] && available == tail - HEADER
    ensures h[0].next == tail && h[0].prev == tail && h[tail].next == 0 && h[tail].prev == 0
    ensures h[0].nextFree == h[0].prevFree == FREE_HEADER && h[FREE_HEADER].nextFree == h[FREE_HEADER].prevFree == 0
  {
    assert forall p | p in b && p != tail :: h[p].used <==> p in UsedMap(h, b, tail);
    assert Linked(h, b, tail, 0) && Fenced(h, 0) && Linked(h, b, tail, tail);
    forall q | q in b ensures q in {0, tail} {
      assert Linked(h, b, tail, q) && Clear(h, 0, q);
    }
    assert IsFree(h, b, 0);
    assert 0 in f;
    var i :| 0 <= i < |f| && f[i] == 0;
    forall j | 0 <= j < |f| ensures f[j] == 0 && j == i {
      assert f[j] in f;
    }
    assert f[0] == 0 && f[|f| - 1] == 0;
    assert Hooked(h, f, 0) && Hooked(h, f, 1);
    assert FreeBytes(h, [0]) == Payload(h, 0) + FreeBytes(h, []);
  }
}
