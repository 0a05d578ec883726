/** The raw bytes of a heap whose blocks carry a header of `width` bytes in front of their payload. */
module HeapBytes {
  import opened Machine

  /** Byte `a` belongs to one of the headers in `hs`. */
  ghost predicate InHeader(hs: set<int>, width: int, a: int) {
    exists p | p in hs :: p <= a < p + width
  }

  /** The memories differ in the headers `hs` at most. */
  ghost predicate OnlyHeaders(m: seq<byte>, m': seq<byte>, hs: set<int>, width: int) {
    |m'| == |m| && forall a | 0 <= a < |m| && !InHeader(hs, width, a) :: m'[a] == m[a]
  }

  lemma MoreHeaders(m: seq<byte>, m': seq<byte>, hs: set<int>, hs': set<int>, width: int)
    requires OnlyHeaders(m, m', hs, width) && hs <= hs'
    ensures OnlyHeaders(m, m', hs', width)
  {
    forall a | 0 <= a < |m| && !InHeader(hs', width, a) ensures m'[a] == m[a] {
      forall p | p in hs ensures !(p <= a < p + width) {
        assert p in hs';
      }
    }
  }

  /** The `len` bytes at `start` are the same in both memories. */
  ghost predicate Kept(m: seq<byte>, m': seq<byte>, start: int, len: int) {
    && |m'| == |m|
    && forall a | start <= a < start + len && 0 <= a < |m| :: m'[a] == m[a]
  }

  /** The payload of every block of `live` (header address to payload size) is the same in both memories. */
  ghost predicate AllKept(m: seq<byte>, m': seq<byte>, live: map<int, int>, width: int) {
    forall p | p in live :: Kept(m, m', p + width, live[p])
  }

  /** The `n` bytes at `a` in `m` are the `n` bytes at `a'` in `m'`. */
  ghost predicate SameBytes(m: seq<byte>, a: int, m': seq<byte>, a': int, n: int) {
    && 0 <= n && 0 <= a && a + n <= |m|
    && 0 <= a' && a' + n <= |m'|
    && m[a..a + n] == m'[a'..a' + n]
  }

  lemma AllKeptSame(m: seq<byte>, live: map<int, int>, width: int)
    ensures AllKept(m, m, live, width)
  {
  }

  lemma KeptBytes(m: seq<byte>, m': seq<byte>, start: int, len: int, n: nat)
    requires Kept(m, m', start, len) && n <= len
    requires 0 <= start && start + n <= |m|
    ensures SameBytes(m, start, m', start, n)
  {
  }

  lemma KeptTrans(m: seq<byte>, m': seq<byte>, m'': seq<byte>, l: map<int, int>, l': map<int, int>, r: map<int, int>,
                  width: int)
    requires AllKept(m, m', l, width) && AllKept(m', m'', l', width)
    requires forall p | p in r :: p in l && p in l' && r[p] <= l[p] && r[p] <= l'[p]
    ensures AllKept(m, m'', r, width)
  {
    forall p | p in r ensures Kept(m, m'', p + width, r[p]) {
      assert Kept(m, m', p + width, l[p]) && Kept(m', m'', p + width, l'[p]);
    }
  }

  /** Live payloads, none overlapping another. */
  ghost predicate Apart(live: map<int, int>, width: int) {
    forall p, q | p in live && q in live && p != q :: p + width + live[p] <= q || q + width + live[q] <= p
  }

  /** Writing into the payload of one live block leaves the others alone. */
  lemma PayloadStoreKeepsOthers(m: seq<byte>, m': seq<byte>, live: map<int, int>, width: nat, q: int, n: int)
    requires Apart(live, width)
    requires q in live && n <= live[q]
    requires |m'| == |m|
    requires forall a | 0 <= a < |m| && !(q + width <= a < q + width + n) :: m'[a] == m[a]
    ensures AllKept(m, m', live - {q}, width)
  {
  }

  ghost predicate NewBlock(live: map<int, int>, live': map<int, int>, p: int, size: int) {
    p !in live && p in live' && live'[p] >= size && live' == live[p := live'[p]]
  }

  /**
   What a successful resize of live block `p` to `size` bytes yields: block `q`
   instead of `p`, big enough, with the old contents up to the smaller size, and
   every other live block as it was.
   */
  ghost predicate Resized(live: map<int, int>, m: seq<byte>, live': map<int, int>, m': seq<byte>, width: int, p: int,
                          q: int, size: int)
    requires p in live
  {
    && q in live' && live'[q] >= size
    && live' == (live - {p})[q := live'[q]]
    && (q != p ==> q !in live)
    && SameBytes(m, p + width, m', q + width, Min(live[p], size))
    && AllKept(m, m', live - {p}, width)
  }

  /** Allocating `q`, copying what fits from `p` and freeing `p` is a resize. */
  lemma MoveResizes(m0: seq<byte>, m1: seq<byte>, m2: seq<byte>, live0: map<int, int>, live1: map<int, int>,
                    live2: map<int, int>,
                    width: int, p: int, q: int, size: int, room: int)
    requires p in live0 && NewBlock(live0, live1, q, room) && size <= room
    requires live2 == live1 - {p}
    requires AllKept(m0, m1, live0, width) && AllKept(m1, m2, live1 - {p, q}, width)
    requires SameBytes(m1, p + width, m2, q + width, Min(live0[p], size))
    ensures Resized(live0, m0, live2, m2, width, p, q, size)
  {
    assert Kept(m0, m1, p + width, live0[p]);
    KeptBytes(m0, m1, p + width, live0[p], Min(live0[p], size));
    KeptTrans(m0, m1, m2, live0, live1 - {p, q}, live0 - {p}, width);
  }

  // ---------------------------------------------------------------- headers in memory

  /** The low `n` bytes of `x`, the least significant first; a negative number is in two's complement. */
  function Word(x: int, n: nat): (s: seq<byte>)
    ensures |s| == n
    decreases n
  {
    if n == 0 then [] else [(x % 256) as byte] + Word(x / 256, n - 1)
  }

  function Power(n: nat): (r: nat)
    ensures r > 0
  {
    if n == 0 then 1 else 256 * Power(n - 1)
  }

  /** A number can be read back from its bytes up to their range. */
  lemma {:induction false} WordExact(x: int, y: int, n: nat)
    requires Word(x, n) == Word(y, n)
    ensures exists k: int :: x - y == k * Power(n)
    decreases n
  {
    if n == 0 {
      assert x - y == (x - y) * Power(0);
    } else {
      assert Word(x, n)[0] == Word(y, n)[0];
      assert Word(x, n)[1..] == Word(x / 256, n - 1) && Word(y, n)[1..] == Word(y / 256, n - 1);
      WordExact(x / 256, y / 256, n - 1);
      var k :| x / 256 - y / 256 == k * Power(n - 1);
      assert x - y == 256 * (x / 256 - y / 256);
      assert 256 * (k * Power(n - 1)) == k * Power(n);
    }
  }

  /** Eight bytes tell numbers apart that are less than 2^64 apart. */
  lemma OffsetExact(x: int, y: int)
    requires Word(x, 8) == Word(y, 8)
    requires -SIZE_LIMIT < x - y < SIZE_LIMIT
    ensures x == y
  {
    WordExact(x, y, 8);
    EightBytes();
    var k :| x - y == k * Power(8);
    Scale(k, Power(8));
  }

  lemma EightBytes()
    ensures Power(8) == SIZE_LIMIT
  {
    assert Power(4) == 0x1_0000_0000;
  }

  /** The bytes `s` stand at `a`. */
  ghost predicate Holds(m: seq<byte>, a: int, s: seq<byte>) {
    0 <= a && a + |s| <= |m| && m[a..a + |s|] == s
  }

  /** No two of the ranges of `width` bytes at `hs` overlap. */
  ghost predicate Spaced(hs: set<int>, width: int) {
    forall p, q | p in hs && q in hs && p < q :: p + width <= q
  }

  /** Bytes that do not change still hold what they held. */
  lemma HoldsKept(m: seq<byte>, m': seq<byte>, a: int, s: seq<byte>)
    requires Holds(m, a, s) && |m'| == |m| && forall c | a <= c < a + |s| :: m'[c] == m[c]
    ensures Holds(m', a, s)
  {
  }

  method StoreAt(mem: array<byte>, a: nat, s: seq<byte>)
    requires a + |s| <= mem.Length
    modifies mem
    ensures Holds(mem[..], a, s)
    ensures forall c | 0 <= c < mem.Length && !(a <= c < a + |s|) :: mem[c] == old(mem[c])
  {
    for i := 0 to |s|
      invariant mem[a..a + i] == s[..i]
      invariant forall c | 0 <= c < mem.Length && !(a <= c < a + i) :: mem[c] == old(mem[c])
    {
      mem[a + i] := s[i];
      assert mem[a..a + i + 1] == mem[a..a + i] + [s[i]];
    }
    assert mem[..][a..a + |s|] == mem[a..a + |s|];
  }

  /** Writing the headers `images` overwrites their bytes and no others. */
  method StoreHeaders(mem: array<byte>, images: map<int, seq<byte>>, width: nat)
    requires forall p | p in images :: 0 <= p && p + width <= mem.Length && |images[p]| == width
    requires Spaced(images.Keys, width)
    modifies mem
    ensures forall p | p in images :: Holds(mem[..], p, images[p])
    ensures OnlyHeaders(old(mem[..]), mem[..], images.Keys, width)
  {
    for a := 0 to mem.Length
      invariant forall p | p in images && p < a :: Holds(mem[..], p, images[p])
      invariant forall c | 0 <= c < mem.Length && !InHeader(images.Keys, width, c) :: mem[c] == old(mem[c])
    {
      if a in images {
        ghost var m := mem[..];
        StoreAt(mem, a, images[a]);
        forall q | q in images && q < a ensures Holds(mem[..], q, images[q]) {
          HoldsKept(m, mem[..], q, images[q]);
        }
      }
    }
  }

  /** rt_memcpy between two ranges that do not overlap. */
  method CopyBytes(mem: array<byte>, dst: int, src: int, n: nat)
    requires 0 <= dst && dst + n <= mem.Length && 0 <= src && src + n <= mem.Length
    requires dst + n <= src || src + n <= dst
    modifies mem
    ensures SameBytes(old(mem[..]), src, mem[..], dst, n)
    ensures forall a | 0 <= a < mem.Length && !(dst <= a < dst + n) :: mem[a] == old(mem[a])
  {
    for i := 0 to n
      invariant mem[dst..dst + i] == old(mem[src..src + n])[..i]
      invariant forall a | 0 <= a < mem.Length && !(dst <= a < dst + i) :: mem[a] == old(mem[a])
    {
      assert old(mem[src..src + n])[i] == mem[src + i];
      mem[dst + i] := mem[src + i];
      assert mem[dst..dst + i + 1] == mem[dst..dst + i] + [mem[dst + i]];
    }
    assert mem[dst..dst + n] == mem[..][dst..dst + n];
    assert old(mem[src..src + n]) == old(mem[..])[src..src + n];
  }
}
