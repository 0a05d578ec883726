/**
 The hard-timer list of timer.c: a skip list of `levels` rows ordered by 32-bit
 wrapping ticks.  Beside each wrapped tick the model carries the true deadline.
 */
module TimerList {
  import opened Sequences
  import opened Machine
  import opened TimerRows

  const TICKS: int := 0x1_0000_0000  // rt_tick_t is 32 bits
  const HALF: int := 0x7fff_ffff     // RT_TICK_MAX / 2
  const SKIP_MASK: int := 3          // RT_TIMER_SKIP_LIST_MASK

  // How many ticks an expired timer may wait in the list before comparisons go wrong; see OrderWindow.
  const LATE: int := 3

  datatype Timer = Timer(initTick: nat, timeoutTick: nat, activated: bool, periodic: bool)

  /** Unsigned 32-bit subtraction of ticks. */
  function TickDiff(a: nat, b: nat): (d: nat) {
    (a - b) % TICKS
  }

  /**
   The comparison of rt_timer_start says rightly whether a listed timer with deadline `a` comes
   after the deadline `b`.
   */
  ghost predicate Compares(a: int, b: int) {
    && (TickDiff(a % TICKS, b % TICKS) == 0 <==> a == b)
    && (a != b ==> (TickDiff(a % TICKS, b % TICKS) < HALF <==> a > b))
  }

  /** It does so exactly if neither deadline is too far behind the other. */
  lemma ComparesExact(a: int, b: int)
    requires -TICKS < a - b < TICKS
    ensures Compares(a, b) <==> HALF - TICKS <= a - b < HALF
  {
    ModDiff(a, b);
  }

  /** A listed timer is at most `late` ticks past, and no deadline is further ahead than rt_timer_start allows. */
  ghost predicate InWindow(now: int, late: nat, a: int, b: int) {
    now - late <= a < now + HALF && now <= b < now + HALF
  }

  /** So insertion compares rightly with every listed timer exactly while none is more than LATE ticks past. */
  lemma OrderWindow(now: int, late: nat)
    ensures (forall a, b | InWindow(now, late, a, b) :: Compares(a, b)) <==> late <= LATE
  {
    hide Compares;
    if late <= LATE {
      forall a, b | InWindow(now, late, a, b) ensures Compares(a, b) {
        ComparesExact(a, b);
      }
    } else {
      var a, b := now - LATE - 1, now + HALF - 1;
      ComparesExact(a, b);
      assert InWindow(now, late, a, b);
    }
  }

  /** The expiry test of rt_timer_check agrees with true time. */
  lemma ExpiryWindow(now: int, a: int)
    requires now - LATE <= a < now + HALF
    ensures TickDiff(now % TICKS, a % TICKS) < HALF <==> a <= now
  {
    ModDiff(now, a);
  }

  lemma ModDiff(a: int, b: int)
    requires -TICKS < a - b < TICKS
    ensures TickDiff(a % TICKS, b % TICKS) == if a >= b then a - b else a - b + TICKS
  {
    var q, r := a / TICKS, b / TICKS;
    assert a == q * TICKS + a % TICKS && b == r * TICKS + b % TICKS;
    var d := a % TICKS - b % TICKS;
    assert d == a - b - (q - r) * TICKS;
    assert -TICKS < d < TICKS;
  }

  /** A listed timer carries its deadline in 32 bits, and the deadline is close enough to now to compare. */
  ghost predicate Timely(timers: map<TimerId, Timer>, due: map<TimerId, int>, now: int, t: TimerId) {
    && t in timers && t in due
    && timers[t].timeoutTick == due[t] % TICKS
    && now - LATE <= due[t] < now + HALF
  }

  ghost predicate AllTimely(timers: map<TimerId, Timer>, due: map<TimerId, int>, now: int) {
    forall t {:trigger Timely(timers, due, now, t)} | t in due :: Timely(timers, due, now, t)
  }

  /** The ACTIVATED flag is set for every listed timer; a timer whose callback is running is not listed. */
  ghost predicate Flagged(timers: map<TimerId, Timer>, listed: set<TimerId>, expiring: seq<TimerId>) {
    && |expiring| <= 1
    && (forall i | 0 <= i < |expiring| :: expiring[i] in timers && expiring[i] !in listed)
    && (forall t | t in timers && t in listed :: timers[t].activated)
  }

  /** Timer `t` gets the deadline `d`. */
  lemma TimelyUpdate(timers: map<TimerId, Timer>, timers': map<TimerId, Timer>, due: map<TimerId, int>, now: int,
                     t: TimerId, d: int)
    requires AllTimely(timers, due, now)
    requires now <= d < now + HALF
    requires t in timers' && timers'[t].timeoutTick == d % TICKS
    requires forall x | x in timers && x != t :: x in timers' && timers'[x] == timers[x]
    ensures AllTimely(timers', due - {t}, now) && AllTimely(timers', due[t := d], now)
  {
    forall x | x in due - {t} ensures Timely(timers', due - {t}, now, x) {
      assert Timely(timers, due, now, x);
    }
    var due' := due[t := d];
    forall x | x in due' ensures Timely(timers', due', now, x) {
      assert x != t ==> Timely(timers, due, now, x);
    }
  }

  lemma FlagStart(timers: map<TimerId, Timer>, timers': map<TimerId, Timer>, listed: set<TimerId>,
                  listed': set<TimerId>,
                  expiring: seq<TimerId>, expiring': seq<TimerId>, t: TimerId)
    requires Flagged(timers, listed, expiring)
    requires t in timers && timers'.Keys == timers.Keys && timers'[t].activated
    requires forall x | x in timers && x != t :: timers'[x] == timers[x]
    requires listed' == listed + {t}
    requires expiring' == if t in expiring then [] else expiring
    ensures Flagged(timers', listed', expiring')
  {
  }

  /** Changing a timer's flag or period leaves the other listed timers alone, and itself if it keeps its tick. */
  lemma TimelyKeep(timers: map<TimerId, Timer>, timers': map<TimerId, Timer>, due: map<TimerId, int>, now: int,
                   t: TimerId)
    requires AllTimely(timers, due, now)
    requires t in timers && timers'.Keys == timers.Keys && timers'[t].timeoutTick == timers[t].timeoutTick
    requires forall x | x in timers && x != t :: timers'[x] == timers[x]
    ensures AllTimely(timers', due, now) && AllTimely(timers', due - {t}, now)
  {
    forall x | x in due ensures Timely(timers', due, now, x) {
      assert Timely(timers, due, now, x);
    }
    TimelyWithout(timers', due, now, t);
  }

  lemma TimelyWithout(timers: map<TimerId, Timer>, due: map<TimerId, int>, now: int, t: TimerId)
    requires AllTimely(timers, due, now)
    ensures AllTimely(timers, due - {t}, now)
  {
    forall x | x in due - {t} ensures Timely(timers, due - {t}, now, x) {
      assert Timely(timers, due, now, x);
    }
  }

  /** How many rows a timer inserted with counter value `nr` gets: one more for each low pair of zero bits. */
  function TowerHeight(nr: nat, levels: nat): (h: nat)
    requires levels >= 1
    ensures 1 <= h <= levels
  {
    if levels == 1 || nr % (SKIP_MASK + 1) != 0 then 1
    else 1 + TowerHeight(nr / (SKIP_MASK + 1), levels - 1)
  }

  /** The tower reaches `k` rows exactly if the lowest `k - 1` pairs of bits are zero. */
  lemma {:induction false} TowerExact(nr: nat, levels: nat, k: nat)
    requires 1 <= k <= levels
    ensures k <= TowerHeight(nr, levels) <==> nr % Pow(4, k - 1) == 0
  {
    if k == 1 {
      assert Pow(4, 0) == 1;
    } else {
      TowerExact(nr / 4, levels - 1, k - 1);
      PairsZero(nr, Pow(4, k - 2));
    }
  }

  lemma PairsZero(n: nat, p: nat)
    requires p > 0
    ensures n % (4 * p) == 0 <==> n % 4 == 0 && n / 4 % p == 0
  {
    var q, r := n / 4 / p, n / 4 % p;
    assert n / 4 == q * p + r;
    assert n == q * (4 * p) + (4 * r + n % 4);
    var s := 4 * r + n % 4;
    assert 0 <= s < 4 * p;
    MulDiv(q, 4 * p);
    if n % (4 * p) == 0 {
      var d := n / (4 * p);
      assert n == d * (4 * p);
      assert (d - q) * (4 * p) == s;
      Scale(d - q, 4 * p);
    }
  }

  class List {
    const levels: nat                  // RT_TIMER_SKIP_LIST_LEVEL
    var rows: seq<seq<TimerId>>        // rows[levels - 1] is the complete one
    var timers: map<TimerId, Timer>
    var randomNr: nat
    var tick: nat
    var expiring: seq<TimerId>         // the temporary list of rt_timer_check

    ghost var now: int
    ghost var due: map<TimerId, int>   // true deadlines of the listed timers
    ghost var height: map<TimerId, nat>

    ghost function Bottom(): seq<TimerId>
      reads this
      requires |rows| >= 1
    {
      rows[|rows| - 1]
    }

    ghost predicate Shaped()
      reads this
    {
      && levels >= 1 && |rows| == levels
      && Ordered(rows, height, due)
    }

    /** The invariant of every step, also inside the callbacks of rt_timer_check. */
    ghost predicate Steady()
      reads this
    {
      && Shaped()
      && tick == now % TICKS
      && AllTimely(timers, due, now)
      && Flagged(timers, due.Keys, expiring)
    }

    ghost predicate Valid()
      reads this
    {
      Steady() && expiring == []
    }

    /** No timer is listed; those that rt_timer_init has set up are inactive, with any period and mode. */
    constructor (levels: nat, timers: map<TimerId, Timer>)
      requires levels >= 1 && forall t | t in timers :: !timers[t].activated
      ensures Valid() && this.levels == levels && this.timers == timers
      ensures height == map[] && due == map[] && now == 0
    {
      this.levels := levels;
      rows := seq(levels, _ => []);
      this.timers := timers;
      randomNr, tick, expiring := 0, 0, [];
      now, due, height := 0, map[], map[];
    }

    /** Unlink a timer from every row it is in. */
    method UnlinkRows(t: TimerId)
      requires levels >= 1 && |rows| == levels
      requires forall k | 0 <= k < levels :: NoRepeats(rows[k])
      modifies this`rows
      ensures |rows| == levels
      ensures forall k | 0 <= k < levels :: rows[k] == Without(old(rows)[k], t)
    {
      for i := 0 to levels
        invariant |rows| == levels
        invariant forall k | 0 <= k < levels :: rows[k] == if k < i then Without(old(rows)[k], t) else old(rows)[k]
      {
        if t in rows[i] {
          var j :| 0 <= j < |rows[i]| && rows[i][j] == t;
          WithoutAt(rows[i], j);
          rows := rows[i := RemoveAt(rows[i], j)];
        }
      }
    }

    /** _timer_remove: unlink a timer from every row it is in, and from the temporary list. */
    method Unlink(t: TimerId)
      requires Shaped() && |expiring| <= 1
      modifies this`rows, this`expiring, this`height, this`due
      ensures Shaped()
      ensures Bottom() == Without(old(Bottom()), t)
      ensures height == old(height) - {t} && due == old(due) - {t}
      ensures expiring == if t in old(expiring) then [] else old(expiring)
    {
      if t in expiring {
        expiring := [];
      }
      forall k | 0 <= k < levels ensures NoRepeats(rows[k]) {
        RowsSorted(rows, height, due, k);
      }
      UnlinkRows(t);
      OrderedWithout(old(rows), rows, height, due, t);
      height, due := height - {t}, due - {t};
    }

    /**
     The search of one row of rt_timer_start, from position `from`: it stops where a
     scan of the whole row would.
     */
    method ScanRow(k: nat, from: nat, tt: nat, ghost d: int) returns (i: nat)
      requires Shaped() && AllTimely(timers, due, now) && k < levels
      requires now <= d < now + HALF && tt == d % TICKS
      requires from <= |rows[k]| && forall j | 0 <= j < from :: Due(due, rows[k][j]) <= d
      ensures ScanPos(rows[k], due, d, i)
    {
      RowsSorted(rows, height, due, k);
      i := from;
      while i < |rows[k]|
        invariant i <= |rows[k]|
        invariant forall j | 0 <= j < i :: Due(due, rows[k][j]) <= d
      {
        var t := rows[k][i];
        assert Timely(timers, due, now, t);
        ComparesExact(due[t], d);
        if TickDiff(timers[t].timeoutTick, tt) == 0 {
          i := i + 1;
          continue;
        } else if TickDiff(timers[t].timeoutTick, tt) < HALF {
          break;
        }
        i := i + 1;
      }
    }

    /**
     The descent of rt_timer_start: each row is searched from the tower found in the
     row above, yet every position is the one a scan of the whole row would give.
     */
    method FindHeads(tt: nat, ghost d: int) returns (heads: seq<nat>)
      requires Shaped() && AllTimely(timers, due, now)
      requires now <= d < now + HALF && tt == d % TICKS
      ensures Heads(rows, due, d, heads)
    {
      heads := [];
      for k := 0 to levels
        invariant |heads| == k
        invariant forall j | 0 <= j < k :: ScanPos(rows[j], due, d, heads[j])
      {
        var from := 0;
        if k > 0 && heads[k - 1] > 0 {
          var t := rows[k - 1][heads[k - 1] - 1];
          RowsNest(rows, height, k - 1);
          RowsSorted(rows, height, due, k);
          var j :| 0 <= j < |rows[k]| && rows[k][j] == t;
          from := j + 1;
        }
        var i := ScanRow(k, from, tt, d);
        heads := heads + [i];
      }
    }

    /** Insert a timer into its rows, from the bottom row up, as long as the bits of `randomNr` say. */
    method InsertRows(t: TimerId, heads: seq<nat>)
      requires levels >= 1 && |rows| == levels == |heads|
      requires forall k | 0 <= k < levels :: heads[k] <= |rows[k]|
      modifies this`rows
      ensures |rows| == levels
      ensures forall k: nat {:trigger RowInserted(old(rows), rows, heads, t, TowerHeight(randomNr, levels),
                                                  k)} | k < levels ::
                RowInserted(old(rows), rows, heads, t, TowerHeight(randomNr, levels), k)
    {
      var tst: nat := randomNr;
      rows := rows[levels - 1 := InsertAt(rows[levels - 1], heads[levels - 1], t)];
      var lvl := 2;
      while lvl <= levels
        invariant 2 <= lvl <= levels + 1
        invariant |rows| == levels
        invariant TowerHeight(randomNr, levels) == lvl - 2 + TowerHeight(tst, levels - lvl + 2)
        invariant forall k | 0 <= k < levels ::
                    rows[k] == if k >= levels - lvl + 1 then InsertAt(old(rows)[k], heads[k], t) else old(rows)[k]
      {
        if tst % (SKIP_MASK + 1) != 0 {
          break;
        }
        rows := rows[levels - lvl := InsertAt(rows[levels - lvl], heads[levels - lvl], t)];
        tst := tst / (SKIP_MASK + 1);
        lvl := lvl + 1;
      }
    }

    /** The insertion half of rt_timer_start, for a timer that is in no list and whose `timeout_tick` is set. */
    method Link(t: TimerId, ghost d: int) returns (ghost pos: nat, ghost h: nat)
      requires Shaped() && AllTimely(timers, due, now)
      requires t in timers && t !in height
      requires now <= d < now + HALF && timers[t].timeoutTick == d % TICKS
      modifies this`rows, this`randomNr, this`due, this`height
      ensures Shaped()
      ensures due == old(due)[t := d]
      ensures Placed(old(Bottom()), Bottom(), due, t, pos)
      ensures height == old(height)[t := h]
      ensures randomNr == (old(randomNr) + 1) % TICKS && h == TowerHeight(randomNr, levels)
    {
      hide Ordered, AllTimely, Placed, RowInserted, TowerHeight, Due;
      var heads := FindHeads(timers[t].timeoutTick, d);
      pos := heads[levels - 1];
      randomNr := (randomNr + 1) % TICKS;
      InsertRows(t, heads);
      h := TowerHeight(randomNr, levels);
      OrderedInsert(old(rows), rows, height, due, t, d, h, heads);
      height, due := height[t := h], due[t := d];
    }

    /** The first half of rt_timer_start: take the timer out of its lists and set its deadline. */
    method Prepare(t: TimerId, ghost d: int)
      requires Steady()
      requires t in timers && d == now + timers[t].initTick && timers[t].initTick < HALF
      modifies this`rows, this`timers, this`expiring, this`due, this`height
      ensures Shaped() && AllTimely(timers, due, now)
      ensures expiring == if t in old(expiring) then [] else old(expiring)
      ensures due == old(due) - {t} && height == old(height) - {t}
      ensures timers == old(timers)[t := old(timers)[t].(timeoutTick := d % TICKS, activated := false)]
      ensures Bottom() == Without(old(Bottom()), t) == Without(Bottom(), t)
    {
      WithoutTwice(Bottom(), t, due);
      Unlink(t);
      timers := timers[t := timers[t].(activated := false)];
      timers := timers[t := timers[t].(timeoutTick := (tick + timers[t].initTick) % TICKS)];
      StartTick(now, timers[t].initTick);
      TimelyUpdate(old(timers), timers, old(due), now, t, d);
    }

    /** rt_timer_start; `pos` is where the timer ends up in the bottom row, `h` how many rows it gets. */
    method Start(t: TimerId) returns (ghost pos: nat, ghost h: nat)
      requires Steady()
      requires t in timers && timers[t].initTick < HALF
      modifies this`rows, this`timers, this`randomNr, this`expiring, this`due, this`height
      ensures Steady()
      ensures expiring == if t in old(expiring) then [] else old(expiring)
      ensures due == old(due)[t := now + old(timers)[t].initTick]
      ensures timers == old(timers)[t := old(timers)[t].(timeoutTick := due[t] % TICKS, activated := true)]
      ensures Placed(old(Bottom()), Bottom(), due, t, pos)
      ensures height == old(height)[t := h]
      ensures randomNr == (old(randomNr) + 1) % TICKS && h == TowerHeight(randomNr, levels)
    {
      hide Ordered, AllTimely, Flagged, Placed, Without;
      ghost var d := now + timers[t].initTick;
      Prepare(t, d);
      ghost var prepared := Bottom();
      pos, h := Link(t, d);
      Reinsert(old(due), t, d);
      Reinsert(old(height), t, h);
      PlacedSame(prepared, old(Bottom()), Bottom(), due, t, pos);
      timers := timers[t := timers[t].(activated := true)];
      TimelyUpdate(old(timers), timers, old(due), now, t, d);
      FlagStart(old(timers), timers, old(due.Keys), due.Keys, old(expiring), expiring, t);
    }

    /** rt_timer_stop; `ok` is false for the error return. */
    method Stop(t: TimerId) returns (ok: bool)
      requires Steady()
      requires t in timers
      modifies this`rows, this`timers, this`expiring, this`due, this`height
      ensures Steady()
      ensures ok == old(timers)[t].activated
      ensures !ok ==> unchanged(this)
      ensures ok ==>
                && Bottom() == Without(old(Bottom()), t)
                && due == old(due) - {t} && height == old(height) - {t}
                && timers == old(timers)[t := old(timers)[t].(activated := false)]
                && expiring == if t in old(expiring) then [] else old(expiring)
    {
      if !timers[t].activated {
        return false;
      }
      Unlink(t);
      timers := timers[t := timers[t].(activated := false)];
      TimelyKeep(old(timers), timers, old(due), now, t);
      return true;
    }

    /** rt_timer_control with RT_TIMER_CTRL_SET_TIME: only later starts use the new period. */
    method SetTime(t: TimerId, ticks: nat)
      requires Steady()
      requires t in timers
      modifies this`timers
      ensures Steady()
      ensures timers == old(timers)[t := old(timers)[t].(initTick := ticks)]
    {
      timers := timers[t := timers[t].(initTick := ticks)];
      TimelyKeep(old(timers), timers, due, now, t);
    }

    /** rt_timer_control with RT_TIMER_CTRL_SET_ONESHOT or RT_TIMER_CTRL_SET_PERIODIC. */
    method SetMode(t: TimerId, periodic: bool)
      requires Steady()
      requires t in timers
      modifies this`timers
      ensures Steady()
      ensures timers == old(timers)[t := old(timers)[t].(periodic := periodic)]
    {
      timers := timers[t := timers[t].(periodic := periodic)];
      TimelyKeep(old(timers), timers, due, now, t);
    }

    /** rt_tick_increase, as the timer list sees it: the last check may be LATE - 1 ticks back. */
    method Tick()
      requires Valid()
      requires forall t | t in due :: now - LATE < due[t]
      modifies this`tick, this`now
      ensures Valid()
      ensures now == old(now) + 1
    {
      StartTick(now, 1);
      forall t | t in due ensures Timely(timers, due, now + 1, t) {
        assert Timely(timers, due, now, t);
      }
      tick := (tick + 1) % TICKS;
      now := now + 1;
    }

    /**
     rt_timer_next_timeout_tick.  The value for an empty list is also the tick of a
     deadline that is RT_TICK_MAX modulo the tick range.
     */
    method NextTimeout() returns (tt: nat)
      requires Valid()
      ensures due == map[] ==> tt == TICKS - 1
      ensures due != map[] ==> exists t :: t in due && tt == due[t] % TICKS && forall x | x in due :: due[t] <= due[x]
      ensures tt == TICKS - 1 <==> (due == map[] || due[Bottom()[0]] % TICKS == TICKS - 1)
    {
      tt := TICKS - 1;
      if rows[levels - 1] != [] {
        var t := rows[levels - 1][0];
        assert t in Bottom();
        assert Timely(timers, due, now, t);
        tt := timers[t].timeoutTick;
        EarliestFirst(rows, height, due);
      } else {
        NoneListed(rows, height, due);
      }
    }
  }

  lemma EarliestFirst(rows: seq<seq<TimerId>>, height: map<TimerId, nat>, due: map<TimerId, int>)
    requires Ordered(rows, height, due) && rows[|rows| - 1] != []
    ensures rows[|rows| - 1][0] in due
    ensures forall x | x in due :: due[rows[|rows| - 1][0]] <= due[x]
  {
    var s := rows[|rows| - 1];
    assert s[0] in s;
    forall x | x in due ensures due[s[0]] <= due[x] {
      assert x in height.Keys;
      assert x in s;
    }
  }

  lemma NoneListed(rows: seq<seq<TimerId>>, height: map<TimerId, nat>, due: map<TimerId, int>)
    requires Ordered(rows, height, due) && rows[|rows| - 1] == []
    ensures due == map[]
  {
    assert forall t :: t in due.Keys <==> t in height.Keys;
    assert forall t :: t !in due;
  }

  lemma StartTick(now: int, init: nat)
    ensures (now % TICKS + init) % TICKS == (now + init) % TICKS
  {
    var q := now / TICKS;
    assert now == q * TICKS + now % TICKS;
    assert now + init == q * TICKS + (now % TICKS + init);
    ModShift(now % TICKS + init, q);
  }

  lemma ModShift(x: int, q: int)
    ensures (q * TICKS + x) % TICKS == x % TICKS
  {
    var p := x / TICKS;
    assert x == p * TICKS + x % TICKS;
    assert q * TICKS + x == (q + p) * TICKS + x % TICKS;
  }
}
