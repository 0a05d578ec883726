/** Machine arithmetic shared by the allocators: 64-bit sizes and RT_ALIGN. */
module Machine {

  // rt_size_t is an unsigned 64-bit integer on this target.
  const SIZE_LIMIT: int := 0x1_0000_0000_0000_0000

  // RT_ALIGN_SIZE
  const ALIGN: int := 8

  newtype byte = x: int | 0 <= x < 256

  function Max(a: int, b: int): int {
    if a < b then b else a
  }

  function Min(a: int, b: int): int {
    if a < b then a else b
  }

  /** RT_ALIGN(size, RT_ALIGN_SIZE): the addition is done in 64 bits and may wrap. */
  function AlignUp(size: nat): (r: nat)
    requires size < SIZE_LIMIT
  {
    (size + ALIGN - 1) % SIZE_LIMIT / ALIGN * ALIGN
  }

  /** Rounding up works exactly for the sizes whose rounding does not wrap; above that it yields 0. */
  lemma AlignUpExact(size: nat)
    requires size < SIZE_LIMIT
    ensures AlignUp(size) % ALIGN == 0
    ensures size <= AlignUp(size) <==> size <= SIZE_LIMIT - ALIGN
    ensures size <= SIZE_LIMIT - ALIGN ==> AlignUp(size) < size + ALIGN
    ensures size > SIZE_LIMIT - ALIGN ==> AlignUp(size) == 0
  {
    if size <= SIZE_LIMIT - ALIGN {
      assert (size + ALIGN - 1) % SIZE_LIMIT == size + ALIGN - 1;
    } else {
      assert (size + ALIGN - 1) % SIZE_LIMIT == size + ALIGN - 1 - SIZE_LIMIT;
    }
  }

  function Pow(b: nat, e: nat): (r: nat)
    ensures b > 0 ==> r > 0
  {
    if e == 0 then 1 else b * Pow(b, e - 1)
  }

  lemma Scale(q: int, p: int)
    requires p > 0
    ensures q >= 1 ==> q * p >= p
    ensures q <= -1 ==> q * p <= -p
  {
  }

  lemma MulDiv(q: int, p: int)
    requires p > 0
    ensures q * p / p == q && q * p % p == 0
  {
    var d, r := q * p / p, q * p % p;
    assert q * p == d * p + r;
    assert (q - d) * p == r;
    Scale(q - d, p);
  }

  /** `m` is the largest value a counter has had, `s` being its values so far. */
  ghost predicate RunningMax(s: seq<int>, m: int) {
    m in s && forall x | x in s :: x <= m
  }

  lemma RunningMaxNext(s: seq<int>, m: int, x: int)
    requires RunningMax(s, m)
    ensures RunningMax(s + [x], Max(m, x))
  {
    assert (s + [x])[|s|] == x;
    forall y ensures y in s + [x] <==> y in s || y == x {
    }
  }

  lemma RunningMaxLower(s: seq<int>, m: int, x: int)
    requires RunningMax(s, m) && x <= s[|s| - 1]
    ensures RunningMax(s + [x], m)
  {
    assert s[|s| - 1] in s;
    RunningMaxNext(s, m, x);
  }
}
