/** Bit maps of 32 priorities, and __rt_ffs, which finds the lowest bit set by a table of bytes. */
module FirstSet {

  // __lowest_bit_bitmap, sixteen entries a row
  const LOWEST: seq<seq<nat>> := [
    [0, 0, 1, 0, 2, 0, 1, 0, 3, 0, 1, 0, 2, 0, 1, 0],
    [4, 0, 1, 0, 2, 0, 1, 0, 3, 0, 1, 0, 2, 0, 1, 0],
    [5, 0, 1, 0, 2, 0, 1, 0, 3, 0, 1, 0, 2, 0, 1, 0],
    [4, 0, 1, 0, 2, 0, 1, 0, 3, 0, 1, 0, 2, 0, 1, 0],
    [6, 0, 1, 0, 2, 0, 1, 0, 3, 0, 1, 0, 2, 0, 1, 0],
    [4, 0, 1, 0, 2, 0, 1, 0, 3, 0, 1, 0, 2, 0, 1, 0],
    [5, 0, 1, 0, 2, 0, 1, 0, 3, 0, 1, 0, 2, 0, 1, 0],
    [4, 0, 1, 0, 2, 0, 1, 0, 3, 0, 1, 0, 2, 0, 1, 0],
    [7, 0, 1, 0, 2, 0, 1, 0, 3, 0, 1, 0, 2, 0, 1, 0],
    [4, 0, 1, 0, 2, 0, 1, 0, 3, 0, 1, 0, 2, 0, 1, 0],
    [5, 0, 1, 0, 2, 0, 1, 0, 3, 0, 1, 0, 2, 0, 1, 0],
    [4, 0, 1, 0, 2, 0, 1, 0, 3, 0, 1, 0, 2, 0, 1, 0],
    [6, 0, 1, 0, 2, 0, 1, 0, 3, 0, 1, 0, 2, 0, 1, 0],
    [4, 0, 1, 0, 2, 0, 1, 0, 3, 0, 1, 0, 2, 0, 1, 0],
    [5, 0, 1, 0, 2, 0, 1, 0, 3, 0, 1, 0, 2, 0, 1, 0],
    [4, 0, 1, 0, 2, 0, 1, 0, 3, 0, 1, 0, 2, 0, 1, 0]
  ]

  /** Bit `p` of `n`. */
  predicate Bit(n: nat, p: nat) {
    if p == 0 then n % 2 == 1 else Bit(n / 2, p - 1)
  }

  /** `n | (1 << p)` */
  function SetBit(n: nat, p: nat): nat {
    if p == 0 then n - n % 2 + 1 else 2 * SetBit(n / 2, p - 1) + n % 2
  }

  /** `n & ~(1 << p)` */
  function ClearBit(n: nat, p: nat): nat {
    if p == 0 then n - n % 2 else 2 * ClearBit(n / 2, p - 1) + n % 2
  }

  lemma {:induction false} BitOfSet(n: nat, p: nat, q: nat)
    ensures Bit(SetBit(n, p), q) <==> q == p || Bit(n, q)
  {
    if p > 0 && q > 0 {
      BitOfSet(n / 2, p - 1, q - 1);
    }
  }

  lemma {:induction false} BitOfClear(n: nat, p: nat, q: nat)
    ensures Bit(ClearBit(n, p), q) <==> q != p && Bit(n, q)
  {
    if p > 0 && q > 0 {
      BitOfClear(n / 2, p - 1, q - 1);
    }
  }

  function Power(p: nat): nat {
    if p == 0 then 1 else 2 * Power(p - 1)
  }

  lemma {:induction false} SetBitBound(n: nat, p: nat, w: nat)
    requires n < Power(w) && p < w
    ensures SetBit(n, p) < Power(w)
  {
    var half := Power(w - 1);
    assert Power(w) == 2 * half && n / 2 < half;
    if p > 0 {
      SetBitBound(n / 2, p - 1, w - 1);
    }
  }

  lemma {:induction false} ClearBitBound(n: nat, p: nat)
    ensures ClearBit(n, p) <= n
  {
    if p > 0 {
      ClearBitBound(n / 2, p - 1);
    }
  }

  /** Bit `p` is the lowest one set. */
  ghost predicate Lowest(n: nat, p: nat) {
    Bit(n, p) && forall q: nat | q < p :: !Bit(n, q)
  }

  /** The lowest bit set, by division. */
  function LowBit(n: nat): nat
    requires n > 0
  {
    if n % 2 == 1 then 0 else 1 + LowBit(n / 2)
  }

  lemma {:induction false} LowBitLowest(n: nat)
    requires n > 0
    ensures Lowest(n, LowBit(n))
  {
    if n % 2 == 0 {
      LowBitLowest(n / 2);
      forall q: nat | q < LowBit(n) ensures !Bit(n, q) {
        assert q > 0 ==> !Bit(n / 2, q - 1);
      }
    }
  }

  /** Zeros below a number shift its lowest bit. */
  lemma {:induction false} LowBitShift(n: nat, k: nat)
    requires n > 0
    ensures n * Power(k) > 0 && LowBit(n * Power(k)) == k + LowBit(n)
  {
    if k > 0 {
      LowBitShift(n, k - 1);
      assert n * Power(k) == 2 * (n * Power(k - 1));
      DoubleLowBit(n * Power(k - 1));
    }
  }

  lemma DoubleLowBit(m: nat)
    requires m > 0
    ensures LowBit(2 * m) == 1 + LowBit(m)
  {
    assert 2 * m / 2 == m;
  }

  /** Bits above the lowest one do not matter. */
  lemma {:induction false} LowBitLow(hi: nat, lo: nat, k: nat)
    requires 0 < lo < Power(k)
    ensures LowBit(hi * Power(k) + lo) == LowBit(lo)
    decreases k
  {
    var n := hi * Power(k) + lo;
    if k > 0 {
      var h := hi * Power(k - 1);
      assert hi * Power(k) == 2 * h;
      assert n % 2 == lo % 2 && n / 2 == h + lo / 2;
      if lo % 2 == 0 {
        LowBitLow(hi, lo / 2, k - 1);
      }
    }
  }

  /** The rows of the table differ in their first entry only. */
  lemma Rows(r: nat)
    requires r < 16
    ensures |LOWEST[r]| == 16 && forall c | 0 < c < 16 :: LOWEST[r][c] == LOWEST[0][c]
  {
  }

  lemma TableLow(r: nat, c: nat)
    requires r < 16 && 0 < c < 16
    ensures |LOWEST[r]| == 16 && LOWEST[r][c] == LowBit(c)
  {
    Rows(r);
    FirstRow(c);
  }

  lemma FirstRow(c: nat)
    requires 0 < c < 16
    ensures LOWEST[0][c] == LowBit(c)
  {
  }

  lemma TableHigh(r: nat)
    requires 0 < r < 16
    ensures |LOWEST[r]| == 16 && LOWEST[r][0] == 4 + LowBit(r)
  {
  }

  /** The table entry of a byte. */
  function Entry(b: nat): nat
    requires b < 256
  {
    if |LOWEST[b / 16]| == 16 then LOWEST[b / 16][b % 16] else 0
  }

  lemma EntryLow(r: nat, c: nat)
    requires r < 16 && 0 < c < 16
    ensures Entry(r * 16 + c) == LowBit(c)
  {
    TableLow(r, c);
    assert (r * 16 + c) / 16 == r && (r * 16 + c) % 16 == c;
  }

  lemma EntryHigh(r: nat)
    requires 0 < r < 16
    ensures Entry(r * 16) == 4 + LowBit(r)
  {
    TableHigh(r);
  }

  /** The table gives the lowest bit of every byte but zero. */
  lemma TableLowest(b: nat)
    requires 0 < b < 256
    ensures Entry(b) == LowBit(b)
  {
    hide Entry, LowBit;
    var r, c := b / 16, b % 16;
    Powers();
    assert b == r * 16 + c;
    if c > 0 {
      EntryLow(r, c);
      LowBitLow(r, c, 4);
    } else {
      EntryHigh(r);
      LowBitShift(r, 4);
    }
  }

  /** __rt_ffs of a 32-bit word, given as the number it holds unsigned. */
  function Ffs(value: nat): nat
    requires value < 0x1_0000_0000
  {
    var v1, v2, v3 := value / 0x100, value / 0x100 / 0x100, value / 0x100 / 0x100 / 0x100;
    if value == 0 then 0
    else if value % 0x100 != 0 then Entry(value % 0x100) + 1
    else if v1 % 0x100 != 0 then Entry(v1 % 0x100) + 9
    else if v2 % 0x100 != 0 then Entry(v2 % 0x100) + 17
    else Entry(v3 % 0x100) + 25
  }

  /** __rt_ffs is 0 for 0, and else one more than the number of the lowest bit set. */
  lemma FfsLowest(value: nat)
    requires value < 0x1_0000_0000
    ensures value == 0 ==> Ffs(value) == 0
    ensures value > 0 ==> 1 <= Ffs(value) <= 32 && Lowest(value, Ffs(value) - 1)
  {
    if value > 0 {
      LowBitLowest(value);
      Powers();
      FfsLowBit(value);
      LowBitBound(value, 32);
    }
  }

  lemma FfsLowBit(value: nat)
    requires 0 < value < 0x1_0000_0000
    ensures Ffs(value) == LowBit(value) + 1
  {
    hide LowBit, Entry, Power;
    Powers();
    var v1, v2, v3 := value / 0x100, value / 0x100 / 0x100, value / 0x100 / 0x100 / 0x100;
    assert value == v1 * 0x100 + value % 0x100 && v1 == v2 * 0x100 + v1 % 0x100 && v2 == v3 * 0x100 + v2 % 0x100
        && v3 < 0x100;
    if value % 0x100 != 0 {
      WordBits(v1, value % 0x100, 0);
    } else if v1 % 0x100 != 0 {
      WordBits(v2, v1 % 0x100, 8);
    } else if v2 % 0x100 != 0 {
      WordBits(v3, v2 % 0x100, 16);
    } else {
      WordBits(0, v3, 24);
    }
  }

  lemma Powers()
    ensures Power(0) == 1 && Power(4) == 0x10 && Power(8) == 0x100 && Power(16) == 0x1_0000 && Power(24) == 0x100_0000
    ensures Power(32) == 0x1_0000_0000
  {
  }

  /** A word whose lowest byte that is not zero is `b`, at bit `k`. */
  lemma WordBits(hi: nat, b: nat, k: nat)
    requires 0 < b < 256
    ensures var n := (hi * 0x100 + b) * Power(k);
            n > 0 && LowBit(n) == k + Entry(b)
  {
    TableLowest(b);
    Powers();
    LowBitLow(hi, b, 8);
    LowBitShift(hi * 0x100 + b, k);
  }

  lemma {:induction false} LowBitBound(n: nat, w: nat)
    requires 0 < n < Power(w)
    ensures LowBit(n) < w
  {
    if w > 0 && n % 2 == 0 {
      LowBitBound(n / 2, w - 1);
    }
  }
}
