/**
 The rows of the timer skip list as sequences: each row is the bottom row
 restricted to the timers tall enough to appear in it.
 */
module TimerRows {
  import opened Sequences

  type TimerId = int

  /** The elements of `s` that are in `keep`, in order. */
  ghost function Restrict(s: seq<TimerId>, keep: set<TimerId>): seq<TimerId> {
    if s == [] then []
    else if s[0] in keep then [s[0]] + Restrict(s[1..], keep)
    else Restrict(s[1..], keep)
  }

  /** The deadline of a timer; 0 for a timer that has none. */
  ghost function Due(due: map<TimerId, int>, x: TimerId): int {
    if x in due then due[x] else 0
  }

  ghost predicate SortedBy(s: seq<TimerId>, due: map<TimerId, int>) {
    forall i, j | 0 <= i < j < |s| :: Due(due, s[i]) <= Due(due, s[j])
  }

  /** Where a plain scan of the row for a deadline later than `d` stops. */
  ghost predicate ScanPos(s: seq<TimerId>, due: map<TimerId, int>, d: int, i: int) {
    && 0 <= i <= |s|
    && (forall j | 0 <= j < i :: Due(due, s[j]) <= d)
    && (i < |s| ==> Due(due, s[i]) > d)
  }

  function InsertAt(s: seq<TimerId>, i: nat, t: TimerId): seq<TimerId>
    requires i <= |s|
  {
    s[..i] + [t] + s[i..]
  }

  function RemoveAt(s: seq<TimerId>, i: nat): seq<TimerId>
    requires i < |s|
  {
    s[..i] + s[i + 1..]
  }

  // ---------------------------------------------------------------- restriction

  lemma {:induction false} RestrictMembers(s: seq<TimerId>, keep: set<TimerId>)
    ensures forall x :: x in Restrict(s, keep) <==> x in s && x in keep
    ensures forall i | 0 <= i < |Restrict(s, keep)| :: Restrict(s, keep)[i] in s && Restrict(s, keep)[i] in keep
  {
    if s != [] {
      RestrictMembers(s[1..], keep);
      assert s == [s[0]] + s[1..];
    }
  }

  lemma {:induction false} RestrictConcat(a: seq<TimerId>, b: seq<TimerId>, keep: set<TimerId>)
    ensures Restrict(a + b, keep) == Restrict(a, keep) + Restrict(b, keep)
  {
    if a == [] {
      assert a + b == b;
    } else {
      RestrictConcat(a[1..], b, keep);
      assert (a + b)[1..] == a[1..] + b;
    }
  }

  lemma {:induction false} RestrictDistinct(s: seq<TimerId>, keep: set<TimerId>)
    requires NoRepeats(s)
    ensures NoRepeats(Restrict(s, keep))
  {
    if s != [] {
      RestrictDistinct(s[1..], keep);
      RestrictMembers(s[1..], keep);
    }
  }

  lemma {:induction false} RestrictSorted(s: seq<TimerId>, keep: set<TimerId>, due: map<TimerId, int>)
    requires SortedBy(s, due)
    ensures SortedBy(Restrict(s, keep), due)
  {
    if s != [] {
      RestrictSorted(s[1..], keep, due);
      RestrictMembers(s[1..], keep);
    }
  }

  /** Only the members of `s` matter. */
  lemma {:induction false} RestrictFrame(s: seq<TimerId>, keep: set<TimerId>, keep': set<TimerId>)
    requires forall i | 0 <= i < |s| :: s[i] in keep <==> s[i] in keep'
    ensures Restrict(s, keep') == Restrict(s, keep)
  {
    if s != [] {
      RestrictFrame(s[1..], keep, keep');
    }
  }

  /** A taller row is the restriction of any lower one. */
  lemma {:induction false} RestrictTwice(s: seq<TimerId>, keep: set<TimerId>, fewer: set<TimerId>)
    requires fewer <= keep
    ensures Restrict(Restrict(s, keep), fewer) == Restrict(s, fewer)
  {
    if s != [] {
      RestrictTwice(s[1..], keep, fewer);
    }
  }

  /** Restriction around one element. */
  lemma RestrictAround(a: seq<TimerId>, t: TimerId, b: seq<TimerId>, keep: set<TimerId>)
    ensures Restrict(a + [t] + b, keep) == Restrict(a, keep) + (if t in keep then [t] else []) + Restrict(b, keep)
  {
    RestrictConcat(a + [t], b, keep);
    RestrictConcat(a, [t], keep);
    assert Restrict([t], keep) == if t in keep then [t] else [];
  }

  // ---------------------------------------------------------------- positions

  /** In a sorted row the scan position is the same wherever the scan starts below it. */
  lemma ScanPosUnique(s: seq<TimerId>, due: map<TimerId, int>, d: int, i: int, j: int)
    requires SortedBy(s, due)
    requires ScanPos(s, due, d, i) && ScanPos(s, due, d, j)
    ensures i == j
  {
  }

  lemma ScanPosConcat(a: seq<TimerId>, b: seq<TimerId>, due: map<TimerId, int>, d: int)
    requires forall i | 0 <= i < |a| :: Due(due, a[i]) <= d
    requires b != [] ==> Due(due, b[0]) > d
    ensures ScanPos(a + b, due, d, |a|)
  {
  }

  /** Splitting the bottom row at its scan position splits every row at its own. */
  lemma RestrictScanPos(a: seq<TimerId>, b: seq<TimerId>, keep: set<TimerId>, due: map<TimerId, int>, d: int)
    requires SortedBy(a + b, due) && ScanPos(a + b, due, d, |a|)
    ensures Restrict(a + b, keep) == Restrict(a, keep) + Restrict(b, keep)
    ensures ScanPos(Restrict(a + b, keep), due, d, |Restrict(a, keep)|)
  {
    RestrictConcat(a, b, keep);
    RestrictMembers(a, keep);
    RestrictMembers(b, keep);
    SplitDue(a, b, due, d);
    ScanPosConcat(Restrict(a, keep), Restrict(b, keep), due, d);
  }

  lemma SplitDue(a: seq<TimerId>, b: seq<TimerId>, due: map<TimerId, int>, d: int)
    requires SortedBy(a + b, due) && ScanPos(a + b, due, d, |a|)
    ensures forall x | x in a :: Due(due, x) <= d
    ensures forall x | x in b :: Due(due, x) > d
  {
    assert forall i | 0 <= i < |a| :: (a + b)[i] == a[i];
    assert forall i | 0 <= i < |b| :: (a + b)[|a| + i] == b[i];
  }

  // ---------------------------------------------------------------- insertion and removal

  lemma InsertSorted(s: seq<TimerId>, due: map<TimerId, int>, i: nat, t: TimerId)
    requires SortedBy(s, due) && ScanPos(s, due, Due(due, t), i)
    ensures SortedBy(InsertAt(s, i, t), due)
  {
    var r := InsertAt(s, i, t);
    forall j, k | 0 <= j < k < |r| ensures Due(due, r[j]) <= Due(due, r[k]) {
      assert i < |s| && k > i ==> Due(due, s[i]) <= Due(due, s[k - 1]);
    }
  }

  /** Whether `t` is kept makes no difference to a list without it. */
  lemma RestrictOther(s: seq<TimerId>, keep: set<TimerId>, t: TimerId)
    requires t !in s
    ensures Restrict(s, keep + {t}) == Restrict(s, keep) == Restrict(s, keep - {t})
  {
    assert forall k | 0 <= k < |s| :: s[k] in s;
    RestrictFrame(s, keep, keep + {t});
    RestrictFrame(s, keep, keep - {t});
  }

  /** A timer inserted at each row's scan position keeps the row a restriction of the bottom one. */
  lemma RestrictInsert(s: seq<TimerId>, keep: set<TimerId>, due: map<TimerId, int>, i: nat, t: TimerId, j: nat)
    requires SortedBy(s, due) && ScanPos(s, due, Due(due, t), i)
    requires t !in s
    requires ScanPos(Restrict(s, keep), due, Due(due, t), j)
    ensures Restrict(InsertAt(s, i, t), keep + {t}) == InsertAt(Restrict(s, keep), j, t)
    ensures Restrict(InsertAt(s, i, t), keep - {t}) == Restrict(s, keep)
  {
    hide Restrict, SortedBy, Due;
    var a, b := s[..i], s[i..];
    assert s == a + b;
    assert t !in a && t !in b;
    assert SortedBy(a + b, due);
    RestrictScanPos(a, b, keep, due, Due(due, t));
    RestrictSorted(s, keep, due);
    ScanPosUnique(Restrict(s, keep), due, Due(due, t), |Restrict(a, keep)|, j);
    RestrictAround(a, t, b, keep + {t});
    RestrictAround(a, t, b, keep - {t});
    RestrictOther(a, keep, t);
    RestrictOther(b, keep, t);
  }

  lemma RemoveMiddle(a: seq<TimerId>, t: TimerId, b: seq<TimerId>, row: seq<TimerId>, j: nat)
    requires row == a + [t] + b && NoRepeats(row)
    requires j < |row| && row[j] == t
    ensures RemoveAt(row, j) == a + b
  {
    assert row[|a|] == t;
    assert j == |a|;
  }

  /** Unlinking a timer from the rows it is in keeps every row a restriction of the bottom one. */
  lemma RestrictRemove(a: seq<TimerId>, t: TimerId, b: seq<TimerId>, keep: set<TimerId>, row: seq<TimerId>, j: nat)
    requires NoRepeats(a + [t] + b) && row == Restrict(a + [t] + b, keep)
    requires t in keep ==> j < |row| && row[j] == t
    ensures Restrict(a + b, keep - {t}) == if t in keep then RemoveAt(row, j) else row
  {
    assert t !in a && t !in b by {
      assert forall k | 0 <= k < |a| :: (a + [t] + b)[k] == a[k];
      assert forall k | 0 <= k < |b| :: (a + [t] + b)[|a| + 1 + k] == b[k];
      assert (a + [t] + b)[|a|] == t;
    }
    RestrictAround(a, t, b, keep);
    RestrictConcat(a, b, keep - {t});
    RestrictOther(a, keep, t);
    RestrictOther(b, keep, t);
    RestrictDistinct(a + [t] + b, keep);
    if t in keep {
      RemoveMiddle(Restrict(a, keep), t, Restrict(b, keep), row, j);
    }
  }

  // ---------------------------------------------------------------- all rows together

  /** The timers that reach row `k`, counting rows from the sparsest at 0. */
  ghost function Tower(height: map<TimerId, nat>, levels: nat, k: int): set<TimerId> {
    set t | t in height && height[t] >= levels - k
  }

  /** Row `k` is the bottom row restricted to the timers tall enough. */
  ghost predicate RowOk(rows: seq<seq<TimerId>>, height: map<TimerId, nat>, k: nat) {
    k < |rows| && rows[k] == Restrict(rows[|rows| - 1], Tower(height, |rows|, k))
  }

  ghost predicate Rowed(rows: seq<seq<TimerId>>, height: map<TimerId, nat>) {
    && |rows| >= 1
    && NoRepeats(rows[|rows| - 1])
    && (forall t :: t in rows[|rows| - 1] <==> t in height)
    && (forall t | t in height :: 1 <= height[t] <= |rows|)
    && (forall k: nat {:trigger RowOk(rows, height, k)} | k < |rows| :: RowOk(rows, height, k))
  }

  /** Every row is a subsequence of the row below it. */
  lemma RowsNest(rows: seq<seq<TimerId>>, height: map<TimerId, nat>, k: nat)
    requires Rowed(rows, height) && k + 1 < |rows|
    ensures rows[k] == Restrict(rows[k + 1], Tower(height, |rows|, k))
    ensures forall i | 0 <= i < |rows[k]| :: rows[k][i] in rows[k + 1]
  {
    assert RowOk(rows, height, k) && RowOk(rows, height, k + 1);
    RestrictTwice(rows[|rows| - 1], Tower(height, |rows|, k + 1), Tower(height, |rows|, k));
    RestrictMembers(rows[k + 1], Tower(height, |rows|, k));
  }

  lemma RowsSorted(rows: seq<seq<TimerId>>, height: map<TimerId, nat>, due: map<TimerId, int>, k: nat)
    requires Rowed(rows, height) && k < |rows|
    requires SortedBy(rows[|rows| - 1], due)
    ensures SortedBy(rows[k], due) && NoRepeats(rows[k])
    ensures forall i | 0 <= i < |rows[k]| :: rows[k][i] in height
  {
    assert RowOk(rows, height, k);
    RestrictSorted(rows[|rows| - 1], Tower(height, |rows|, k), due);
    RestrictDistinct(rows[|rows| - 1], Tower(height, |rows|, k));
    RestrictMembers(rows[|rows| - 1], Tower(height, |rows|, k));
  }

  /** `s` without `t`. */
  ghost function Without(s: seq<TimerId>, t: TimerId): seq<TimerId> {
    if t in s then
      var i :| 0 <= i < |s| && s[i] == t;
      RemoveAt(s, i)
    else s
  }

  lemma WithoutAt(s: seq<TimerId>, i: nat)
    requires NoRepeats(s) && i < |s|
    ensures Without(s, s[i]) == RemoveAt(s, i)
    ensures NoRepeats(Without(s, s[i]))
    ensures forall x :: x in Without(s, s[i]) <==> x in s && x != s[i]
  {
    var t := s[i];
    forall x ensures x in RemoveAt(s, i) <==> x in s && x != t {
      if x in s && x != t {
        var j :| 0 <= j < |s| && s[j] == x;
        assert j < i ==> RemoveAt(s, i)[j] == x;
        assert j > i ==> RemoveAt(s, i)[j - 1] == x;
      }
    }
  }

  lemma RemoveSorted(s: seq<TimerId>, i: nat, due: map<TimerId, int>)
    requires SortedBy(s, due) && i < |s|
    ensures SortedBy(RemoveAt(s, i), due)
  {
    var r := RemoveAt(s, i);
    forall j, k | 0 <= j < k < |r| ensures Due(due, r[j]) <= Due(due, r[k]) {
      assert r[j] == s[if j < i then j else j + 1];
      assert r[k] == s[if k < i then k else k + 1];
    }
  }

  lemma SortedFrame(s: seq<TimerId>, due: map<TimerId, int>, due': map<TimerId, int>)
    requires SortedBy(s, due)
    requires forall i | 0 <= i < |s| :: Due(due', s[i]) == Due(due, s[i])
    ensures SortedBy(s, due')
  {
  }

  lemma WithoutSorted(s: seq<TimerId>, t: TimerId, due: map<TimerId, int>)
    requires SortedBy(s, due) && NoRepeats(s)
    ensures SortedBy(Without(s, t), due - {t})
    ensures t !in Without(s, t)
  {
    hide SortedBy, RemoveAt;
    if t in s {
      var i :| 0 <= i < |s| && s[i] == t;
      WithoutAt(s, i);
      RemoveSorted(s, i, due);
    }
    var r := Without(s, t);
    assert forall j | 0 <= j < |r| :: r[j] in r;
    SortedFrame(r, due, due - {t});
  }

  lemma WithoutTwice(s: seq<TimerId>, t: TimerId, due: map<TimerId, int>)
    requires SortedBy(s, due) && NoRepeats(s)
    ensures Without(Without(s, t), t) == Without(s, t)
  {
    WithoutSorted(s, t, due);
  }

  /** Unlinking one timer from every row leaves a well-formed skip list of the others. */
  lemma RowsWithout(rows: seq<seq<TimerId>>, rows': seq<seq<TimerId>>, height: map<TimerId, nat>, t: TimerId)
    requires Rowed(rows, height) && t in height
    requires |rows'| == |rows|
    requires forall k | 0 <= k < |rows| :: rows'[k] == Without(rows[k], t)
    ensures Rowed(rows', height - {t})
  {
    hide Restrict, RemoveAt, Without;
    var s := rows[|rows| - 1];
    var i :| 0 <= i < |s| && s[i] == t;
    WithoutAt(s, i);
    forall k: nat | k < |rows| ensures RowOk(rows', height - {t}, k) {
      assert RowOk(rows, height, k);
      RowWithout(rows, height, t, k, i);
      assert Tower(height - {t}, |rows|, k) == Tower(height, |rows|, k) - {t};
    }
  }

  /** A timer that is not listed is in no row. */
  lemma RowsWithoutAbsent(rows: seq<seq<TimerId>>, rows': seq<seq<TimerId>>, height: map<TimerId, nat>, t: TimerId)
    requires Rowed(rows, height) && t !in height
    requires |rows'| == |rows|
    requires forall k | 0 <= k < |rows| :: rows'[k] == Without(rows[k], t)
    ensures rows' == rows
  {
    forall k | 0 <= k < |rows| ensures rows'[k] == rows[k] {
      assert RowOk(rows, height, k);
      RestrictMembers(rows[|rows| - 1], Tower(height, |rows|, k));
    }
  }

  /** A well-formed skip list whose bottom row, and so every row, is sorted by deadline. */
  ghost predicate Ordered(rows: seq<seq<TimerId>>, height: map<TimerId, nat>, due: map<TimerId, int>) {
    && Rowed(rows, height)
    && SortedBy(rows[|rows| - 1], due)
    && due.Keys == height.Keys
  }

  lemma OrderedWithout(rows: seq<seq<TimerId>>, rows': seq<seq<TimerId>>, height: map<TimerId, nat>,
                       due: map<TimerId, int>, t: TimerId)
    requires Ordered(rows, height, due)
    requires |rows'| == |rows|
    requires forall k | 0 <= k < |rows| :: rows'[k] == Without(rows[k], t)
    ensures Ordered(rows', height - {t}, due - {t})
  {
    WithoutSorted(rows[|rows| - 1], t, due);
    if t in height {
      RowsWithout(rows, rows', height, t);
    } else {
      RowsWithoutAbsent(rows, rows', height, t);
      assert height - {t} == height;
    }
  }

  lemma RowWithout(rows: seq<seq<TimerId>>, height: map<TimerId, nat>, t: TimerId, k: nat, i: nat)
    requires Rowed(rows, height) && t in height && k < |rows|
    requires i < |rows[|rows| - 1]| && rows[|rows| - 1][i] == t
    ensures Restrict(Without(rows[|rows| - 1], t), Tower(height, |rows|, k) - {t}) == Without(rows[k], t)
  {
    var s, keep := rows[|rows| - 1], Tower(height, |rows|, k);
    assert RowOk(rows, height, k);
    WithoutAt(s, i);
    RestrictMembers(s, keep);
    RestrictDistinct(s, keep);
    assert s == s[..i] + [t] + s[i + 1..];
    if t in keep {
      assert t in rows[k];
      var j :| 0 <= j < |rows[k]| && rows[k][j] == t;
      WithoutAt(rows[k], j);
      RestrictRemove(s[..i], t, s[i + 1..], keep, rows[k], j);
    } else {
      RestrictRemove(s[..i], t, s[i + 1..], keep, rows[k], 0);
    }
  }

  /** Row `k` after a timer of `h` rows was inserted at that row's position. */
  ghost predicate RowInserted(rows: seq<seq<TimerId>>, rows': seq<seq<TimerId>>, heads: seq<nat>, t: TimerId, h: nat,
                              k: nat) {
    && k < |rows| == |rows'| == |heads|
    && heads[k] <= |rows[k]|
    && rows'[k] == if k >= |rows| - h then InsertAt(rows[k], heads[k], t) else rows[k]
  }

  ghost predicate Heads(rows: seq<seq<TimerId>>, due: map<TimerId, int>, d: int, heads: seq<nat>) {
    && |heads| == |rows|
    && forall k | 0 <= k < |rows| :: ScanPos(rows[k], due, d, heads[k])
  }

  /** Inserting a new timer at the scan position of its lowest `h` rows gives a well-formed skip list. */
  lemma RowsInsert(rows: seq<seq<TimerId>>, rows': seq<seq<TimerId>>, height: map<TimerId, nat>, due: map<TimerId, int>,
                   t: TimerId, h: nat, heads: seq<nat>)
    requires Rowed(rows, height) && t !in height && 1 <= h <= |rows|
    requires SortedBy(rows[|rows| - 1], due)
    requires |rows'| == |rows| && Heads(rows, due, Due(due, t), heads)
    requires forall k: nat {:trigger RowInserted(rows, rows', heads, t, h, k)} | k < |rows| ::
             RowInserted(rows, rows', heads, t, h, k)
    ensures Rowed(rows', height[t := h])
    ensures SortedBy(rows'[|rows| - 1], due)
  {
    hide Restrict, InsertAt, Due, SortedBy;
    var last := |rows| - 1;
    assert RowInserted(rows, rows', heads, t, h, last);
    InsertSorted(rows[last], due, heads[last], t);
    InsertMembers(rows[last], heads[last], t);
    forall k: nat {:trigger RowOk(rows', height[t := h], k)} | k < |rows| ensures RowOk(rows', height[t := h], k) {
      assert RowInserted(rows, rows', heads, t, h, k);
      RowInsert(rows, height, due, t, h, heads, k);
    }
  }

  /**
   `after` is `before` with `t` moved to position `i` of the others, where a plain
   scan puts it: behind all timers due no later.
   */
  ghost predicate Placed(before: seq<TimerId>, after: seq<TimerId>, due: map<TimerId, int>, t: TimerId, i: nat) {
    ScanPos(Without(before, t), due, Due(due, t), i) && after == InsertAt(Without(before, t), i, t)
  }

  /** So it stands behind all timers due no later and before all others, which keep their order. */
  lemma PlacedBehind(before: seq<TimerId>, after: seq<TimerId>, due: map<TimerId, int>, t: TimerId, i: nat, j: nat)
    requires Placed(before, after, due, t, i) && SortedBy(Without(before, t), due) && j < |Without(before, t)|
    ensures |after| == |Without(before, t)| + 1 && i < |after| && after[i] == t
    ensures if Due(due, Without(before, t)[j]) <= Due(due, t) then j < i && after[j] == Without(before, t)[j]
            else j >= i && after[j + 1] == Without(before, t)[j]
  {
    hide Without;
    if j > i {
      assert Due(due, Without(before, t)[i]) <= Due(due, Without(before, t)[j]);
    }
  }

  lemma PlacedSame(before: seq<TimerId>, before': seq<TimerId>, after: seq<TimerId>, due: map<TimerId, int>, t: TimerId,
                   i: nat)
    requires Placed(before, after, due, t, i)
    requires Without(before', t) == Without(before, t)
    ensures Placed(before', after, due, t, i)
  {
  }

  lemma Reinsert<V>(m: map<TimerId, V>, t: TimerId, v: V)
    ensures (m - {t})[t := v] == m[t := v]
  {
  }

  lemma OrderedInsert(rows: seq<seq<TimerId>>, rows': seq<seq<TimerId>>, height: map<TimerId, nat>,
                      due: map<TimerId, int>,
                      t: TimerId, d: int, h: nat, heads: seq<nat>)
    requires Ordered(rows, height, due) && t !in height && 1 <= h <= |rows|
    requires |rows'| == |rows| && Heads(rows, due, d, heads)
    requires forall k: nat {:trigger RowInserted(rows, rows', heads, t, h, k)} | k < |rows| ::
             RowInserted(rows, rows', heads, t, h, k)
    ensures Ordered(rows', height[t := h], due[t := d])
    ensures Placed(rows[|rows| - 1], rows'[|rows| - 1], due[t := d], t, heads[|rows| - 1])
  {
    hide Restrict, InsertAt, SortedBy;
    var due' := due[t := d];
    forall k: nat | k < |rows| ensures SortedBy(rows[k], due') && ScanPos(rows[k], due', d, heads[k]) {
      RowsSorted(rows, height, due, k);
      SortedFrame(rows[k], due, due');
    }
    RowsInsert(rows, rows', height, due', t, h, heads);
    assert RowInserted(rows, rows', heads, t, h, |rows| - 1);
  }

  lemma RowInsert(rows: seq<seq<TimerId>>, height: map<TimerId, nat>, due: map<TimerId, int>, t: TimerId, h: nat,
                  heads: seq<nat>, k: nat)
    requires Rowed(rows, height) && t !in height && 1 <= h <= |rows| && k < |rows|
    requires SortedBy(rows[|rows| - 1], due)
    requires Heads(rows, due, Due(due, t), heads)
    ensures Restrict(InsertAt(rows[|rows| - 1], heads[|rows| - 1], t), Tower(height[t := h], |rows|, k))
         == if k >= |rows| - h then InsertAt(rows[k], heads[k], t) else rows[k]
  {
    var last := |rows| - 1;
    assert RowOk(rows, height, k);
    RestrictInsert(rows[last], Tower(height, |rows|, k), due, heads[last], t, heads[k]);
    assert Tower(height[t := h], |rows|, k)
        == if k >= |rows| - h then Tower(height, |rows|, k) + {t} else Tower(height, |rows|, k) - {t};
  }

  lemma InsertMembers(s: seq<TimerId>, i: nat, t: TimerId)
    requires NoRepeats(s) && t !in s && i <= |s|
    ensures NoRepeats(InsertAt(s, i, t))
    ensures forall x :: x in InsertAt(s, i, t) <==> x in s || x == t
  {
    var r := InsertAt(s, i, t);
    assert r[i] == t;
    forall x | x in s ensures x in r {
      var j :| 0 <= j < |s| && s[j] == x;
      assert r[if j < i then j else j + 1] == x;
    }
    forall j, k | 0 <= j < k < |r| ensures r[j] != r[k] {
      assert j != i ==> r[j] == s[if j < i then j else j - 1];
      assert k != i ==> r[k] == s[if k < i then k else k - 1];
    }
  }

  // ---------------------------------------------------------------- the expired prefix

  /** `pend` is the prefix of row `s` that is due at `now`. */
  ghost predicate Expired(s: seq<TimerId>, due: map<TimerId, int>, now: int, pend: seq<TimerId>) {
    pend <= s && ScanPos(s, due, now, |pend|)
  }

  ghost predicate DueSameBut(due: map<TimerId, int>, due': map<TimerId, int>, t: TimerId) {
    forall x | x != t :: Due(due', x) == Due(due, x)
  }

  lemma DistinctSplit(a: seq<TimerId>, t: TimerId, b: seq<TimerId>)
    requires NoRepeats(a + [t] + b)
    ensures t !in a && t !in b && NoRepeats(a) && NoRepeats(b)
  {
    var s := a + [t] + b;
    assert s[|a|] == t;
    assert forall k | 0 <= k < |a| :: s[k] == a[k];
    assert forall k | 0 <= k < |b| :: s[|a| + 1 + k] == b[k];
  }

  lemma WithoutSplit(a: seq<TimerId>, t: TimerId, b: seq<TimerId>)
    requires NoRepeats(a + [t] + b)
    ensures Without(a + [t] + b, t) == a + b
    ensures t !in a && t !in b && NoRepeats(a) && NoRepeats(b)
  {
    hide NoRepeats, Without;
    var s := a + [t] + b;
    DistinctSplit(a, t, b);
    WithoutAt(s, |a|);
    assert s[..|a|] == a && s[|a| + 1..] == b;
  }

  lemma SplitAt(s: seq<TimerId>, t: TimerId) returns (a: seq<TimerId>, b: seq<TimerId>)
    requires t in s
    ensures s == a + [t] + b
  {
    var i :| 0 <= i < |s| && s[i] == t;
    a, b := s[..i], s[i + 1..];
  }

  lemma ExpiredWithoutLeft(a: seq<TimerId>, t: TimerId, b: seq<TimerId>, rest: seq<TimerId>,
                           due: map<TimerId, int>, due': map<TimerId, int>, now: int)
    requires NoRepeats(a + [t] + b + rest) && DueSameBut(due, due', t)
    requires forall x | x in a + [t] + b :: Due(due, x) <= now
    requires forall x | x in rest :: Due(due, x) > now
    ensures Expired(Without(a + [t] + b + rest, t), due', now, Without(a + [t] + b, t))
  {
    hide Without, NoRepeats;
    assert a + [t] + b + rest == a + [t] + (b + rest);
    PrefixDistinct(a + [t] + b, rest);
    WithoutSplit(a, t, b + rest);
    WithoutSplit(a, t, b);
    assert a + (b + rest) == (a + b) + rest;
    assert t in a + [t] + b;
    ExpiredConcat(a + b, rest, due, due', now, t);
  }

  lemma ExpiredWithoutRight(pend: seq<TimerId>, a: seq<TimerId>, t: TimerId, b: seq<TimerId>,
                            due: map<TimerId, int>, due': map<TimerId, int>, now: int)
    requires NoRepeats(pend + a + [t] + b) && DueSameBut(due, due', t)
    requires forall x | x in pend :: Due(due, x) <= now
    requires forall x | x in a + [t] + b :: Due(due, x) > now
    ensures Expired(Without(pend + a + [t] + b, t), due', now, Without(pend, t))
  {
    hide Without, NoRepeats;
    WithoutSplit(pend + a, t, b);
    WithoutAbsent(pend, t);
    assert (pend + a) + b == pend + (a + b);
    ExpiredConcat(pend, a + b, due, due', now, t);
  }

  /** Taking a timer out takes it out of the expired prefix. */
  lemma ExpiredWithout(s: seq<TimerId>, due: map<TimerId, int>, due': map<TimerId, int>, now: int, pend: seq<TimerId>,
                       t: TimerId)
    requires NoRepeats(s) && Expired(s, due, now, pend) && SortedBy(s, due)
    requires DueSameBut(due, due', t)
    ensures Expired(Without(s, t), due', now, Without(pend, t))
  {
    hide Without, NoRepeats, DueSameBut;
    var rest := s[|pend|..];
    assert s == pend + rest;
    SplitDue(pend, rest, due, now);
    if t in pend {
      var a, b := SplitAt(pend, t);
      ExpiredWithoutLeft(a, t, b, rest, due, due', now);
    } else if t in rest {
      var a, b := SplitAt(rest, t);
      assert s == pend + a + [t] + b;
      ExpiredWithoutRight(pend, a, t, b, due, due', now);
    } else {
      WithoutAbsent(pend, t);
      WithoutAbsent(s, t);
      ExpiredConcat(pend, rest, due, due', now, t);
    }
  }

  lemma PrefixDistinct(a: seq<TimerId>, b: seq<TimerId>)
    requires NoRepeats(a + b)
    ensures NoRepeats(a) && NoRepeats(b)
    ensures forall x | x in a :: x !in b
  {
    assert forall k | 0 <= k < |a| :: (a + b)[k] == a[k];
    assert forall k | 0 <= k < |b| :: (a + b)[|a| + k] == b[k];
  }

  lemma WithoutAbsent(s: seq<TimerId>, t: TimerId)
    requires t !in s
    ensures Without(s, t) == s
  {
  }

  lemma ExpiredConcat(a: seq<TimerId>, b: seq<TimerId>, due: map<TimerId, int>, due': map<TimerId, int>, now: int,
                      t: TimerId)
    requires DueSameBut(due, due', t) && t !in a && t !in b
    requires forall x | x in a :: Due(due, x) <= now
    requires forall x | x in b :: Due(due, x) > now
    ensures Expired(a + b, due', now, a)
  {
    ScanPosConcat(a, b, due', now);
  }

  /** Inserting a timer that is not due yet leaves the expired prefix alone. */
  lemma ExpiredInsert(w: seq<TimerId>, due: map<TimerId, int>, now: int, pend: seq<TimerId>, t: TimerId, i: nat)
    requires Expired(w, due, now, pend)
    requires ScanPos(w, due, Due(due, t), i) && Due(due, t) > now
    ensures Expired(InsertAt(w, i, t), due, now, pend)
  {
    assert i == |w| || Due(due, w[i]) > now;
    var r := InsertAt(w, i, t);
    assert forall j | 0 <= j < i :: r[j] == w[j];
  }

  /** Starting a timer with a future deadline takes it out of the expired prefix and changes nothing else there. */
  lemma ExpiredPlaced(s: seq<TimerId>, s': seq<TimerId>, due: map<TimerId, int>, due': map<TimerId, int>, now: int,
                      pend: seq<TimerId>, t: TimerId, i: nat)
    requires NoRepeats(s) && Expired(s, due, now, pend) && SortedBy(s, due)
    requires DueSameBut(due, due', t) && Due(due', t) > now
    requires Placed(s, s', due', t, i)
    ensures Expired(s', due', now, Without(pend, t))
  {
    ExpiredWithout(s, due, due', now, pend, t);
    ExpiredInsert(Without(s, t), due', now, Without(pend, t), t, i);
  }

  /** Taking one more timer out of a restriction restricts it to one timer fewer. */
  lemma RestrictWithout(s: seq<TimerId>, keep: set<TimerId>, t: TimerId)
    requires NoRepeats(s)
    ensures Without(Restrict(s, keep), t) == Restrict(s, keep - {t})
  {
    hide NoRepeats, Without, Restrict;
    if t in s {
      var a, b := SplitAt(s, t);
      WithoutSplit(a, t, b);
      RestrictAround(a, t, b, keep);
      RestrictAround(a, t, b, keep - {t});
      RestrictOther(a, keep, t);
      RestrictOther(b, keep, t);
      RestrictDistinct(s, keep);
      RestrictMembers(a, keep);
      RestrictMembers(b, keep);
      var ra, rb := Restrict(a, keep), Restrict(b, keep);
      assert Restrict(s, keep - {t}) == ra + rb;
      if t in keep {
        WithoutSplit(ra, t, rb);
      } else {
        assert Restrict(s, keep) == ra + rb;
        assert t !in ra && t !in rb;
        WithoutAbsent(ra + rb, t);
      }
    } else {
      RestrictOther(s, keep, t);
      RestrictMembers(s, keep);
      WithoutAbsent(Restrict(s, keep), t);
    }
  }
}
