/**
 The page allocator under the slab: a list of runs of free pages.  Pages are
 numbered from the start of the heap.
 */
module PageList {

  datatype Run = Run(start: nat, len: nat)

  datatype Option<T> = None | Some(value: T)

  ghost predicate Holds(r: Run, p: int) {
    r.start <= p < r.start + r.len
  }

  /** Page `p` is in one of the runs. */
  ghost predicate InRuns(runs: seq<Run>, p: int) {
    exists i | 0 <= i < |runs| :: Holds(runs[i], p)
  }

  /** The runs are in address order, not empty, and a page short of touching: none could be merged. */
  ghost predicate Canonical(runs: seq<Run>) {
    && (forall i | 0 <= i < |runs| :: runs[i].len > 0)
    && (forall i, j | 0 <= i < j < |runs| :: runs[i].start + runs[i].len < runs[j].start)
  }

  /** `after` has the pages of `before` and those from `p` to `p + n`, which `before` lacks. */
  ghost predicate Added(before: seq<Run>, after: seq<Run>, p: int, n: int) {
    && (forall x | p <= x < p + n :: !InRuns(before, x))
    && (forall x :: InRuns(after, x) <==> InRuns(before, x) || p <= x < p + n)
  }

  lemma AddedPages(before: seq<Run>, after: seq<Run>, p: int, n: int)
    requires Added(before, after, p, n)
    ensures forall x | p <= x < p + n :: InRuns(after, x)
    ensures forall x | p <= x < p + n :: !InRuns(before, x)
  {
    hide InRuns;
    forall x | p <= x < p + n ensures InRuns(after, x) {
      assert !InRuns(before, x);
    }
  }

  // ---------------------------------------------------------------- canonical form

  lemma {:induction false} SamePages(a: seq<Run>, b: seq<Run>)
    requires Canonical(a) && Canonical(b)
    requires forall p :: InRuns(a, p) <==> InRuns(b, p)
    ensures a == b
  {
    if a == [] {
      NoPages(b);
    } else {
      assert Holds(a[0], a[0].start);
      assert InRuns(b, a[0].start);
      assert Holds(b[0], b[0].start);
      assert InRuns(a, b[0].start);
      FirstRunNotLonger(a, b);
      FirstRunNotLonger(b, a);
      forall p ensures InRuns(a[1..], p) <==> InRuns(b[1..], p) {
        TailPages(a, p);
        TailPages(b, p);
      }
      SamePages(a[1..], b[1..]);
      assert a == [a[0]] + a[1..] && b == [b[0]] + b[1..];
    }
  }

  lemma NoPages(b: seq<Run>)
    requires Canonical(b) && forall p :: !InRuns(b, p)
    ensures b == []
  {
    if b != [] {
      PageOf(b);
    }
  }

  lemma PageOf(b: seq<Run>)
    requires Canonical(b) && b != []
    ensures InRuns(b, b[0].start)
  {
    assert Holds(b[0], b[0].start);
  }

  lemma FirstRunNotLonger(a: seq<Run>, b: seq<Run>)
    requires Canonical(a) && Canonical(b) && a != [] && b != []
    requires forall p :: InRuns(a, p) <==> InRuns(b, p)
    requires a[0].start == b[0].start
    ensures a[0].len <= b[0].len
  {
    var e := b[0].start + b[0].len;
    assert Holds(a[0], e) ==> InRuns(a, e);
    assert !InRuns(b, e);
  }

  lemma TailPages(s: seq<Run>, p: int)
    requires Canonical(s) && s != []
    ensures InRuns(s[1..], p) <==> InRuns(s, p) && !Holds(s[0], p)
  {
    if InRuns(s, p) && !Holds(s[0], p) {
      var i :| 0 <= i < |s| && Holds(s[i], p);
      assert s[1..][i - 1] == s[i];
    }
    if InRuns(s[1..], p) {
      var i :| 0 <= i < |s[1..]| && Holds(s[1..][i], p);
      assert s[i + 1] == s[1..][i];
    }
  }

  /** Freeing what was just allocated gives back the very same list. */
  lemma FreeUndoesAlloc(before: seq<Run>, during: seq<Run>, after: seq<Run>, p: int, n: int)
    requires Canonical(before) && Canonical(after)
    requires Added(during, before, p, n) && Added(during, after, p, n)
    ensures after == before
  {
    SamePages(before, after);
  }

  /** A canonical list of all pages below `n` is the initial single run. */
  lemma AllPagesOneRun(runs: seq<Run>, n: nat)
    requires Canonical(runs) && n > 0
    requires forall p :: InRuns(runs, p) <==> 0 <= p < n
    ensures runs == [Run(0, n)]
  {
    var one := [Run(0, n)];
    assert forall p :: Holds(one[0], p) <==> InRuns(one, p);
    SamePages(runs, one);
  }

  // ---------------------------------------------------------------- edits in the middle of the list

  lemma PagesConcat(a: seq<Run>, b: seq<Run>)
    ensures forall x :: InRuns(a + b, x) <==> InRuns(a, x) || InRuns(b, x)
  {
    forall x ensures InRuns(a + b, x) <==> InRuns(a, x) || InRuns(b, x) {
      if i :| 0 <= i < |a| && Holds(a[i], x) {
        assert Holds((a + b)[i], x);
      }
      if i :| 0 <= i < |b| && Holds(b[i], x) {
        assert Holds((a + b)[|a| + i], x);
      }
    }
  }

  lemma PagesOne(r: Run)
    ensures forall x :: InRuns([r], x) <==> Holds(r, x)
  {
    assert [r][0] == r;
  }

  lemma PagesMiddle(a: seq<Run>, mid: seq<Run>, b: seq<Run>)
    ensures forall x :: InRuns(a + mid + b, x) <==> InRuns(a, x) || InRuns(mid, x) || InRuns(b, x)
  {
    PagesConcat(a + mid, b);
    PagesConcat(a, mid);
  }

  lemma NonePages()
    ensures forall x :: !InRuns([], x)
  {
  }

  lemma CanonicalCut(runs: seq<Run>, i: nat)
    requires Canonical(runs) && i <= |runs|
    ensures Canonical(runs[..i]) && Canonical(runs[i..])
  {
  }

  /** All of `a` ends short of page `p`. */
  ghost predicate Below(a: seq<Run>, p: int) {
    a != [] ==> a[|a| - 1].start + a[|a| - 1].len < p
  }

  /** All of `b` starts past page `p`. */
  ghost predicate Above(b: seq<Run>, p: int) {
    b != [] ==> p < b[0].start
  }

  lemma CanonicalPair(a: seq<Run>, b: seq<Run>, p: int)
    requires Canonical(a) && Canonical(b) && Below(a, p) && Above(b, p - 1)
    ensures Canonical(a + b)
  {
    var s := a + b;
    forall j, k | 0 <= j < k < |s| ensures s[j].start + s[j].len < s[k].start {
      if j < |a| <= k {
        assert j < |a| - 1 ==> a[j].start + a[j].len < a[|a| - 1].start;
        assert k > |a| ==> b[0].start + b[0].len < b[k - |a|].start;
      }
    }
  }

  /** One run between two canonical lists it does not touch. */
  lemma CanonicalJoin(a: seq<Run>, r: Run, b: seq<Run>)
    requires Canonical(a) && Canonical(b) && r.len > 0
    requires Below(a, r.start) && Above(b, r.start + r.len)
    ensures Canonical(a + [r] + b)
  {
    CanonicalPair(a, [r], r.start);
    CanonicalPair(a + [r], b, r.start + r.len + 1);
  }

  /** The list around run `i`. */
  lemma CanonicalSplit(runs: seq<Run>, i: nat)
    requires Canonical(runs) && i < |runs|
    ensures var a, r, b := runs[..i], runs[i], runs[i + 1..];
            && runs == a + [r] + b && Canonical(a) && Canonical(b) && r.len > 0
            && Below(a, r.start) && Above(b, r.start + r.len)
            && forall x | Holds(r, x) :: !InRuns(a, x) && !InRuns(b, x)
  {
    var a, r, b := runs[..i], runs[i], runs[i + 1..];
    forall x | Holds(r, x) ensures !InRuns(a, x) && !InRuns(b, x) {
      assert forall j | 0 <= j < |a| :: a[j] == runs[j] && !Holds(a[j], x);
      assert forall j | 0 <= j < |b| :: b[j] == runs[i + 1 + j] && !Holds(b[j], x);
    }
  }

  lemma Replace(a: seq<Run>, less: seq<Run>, more: seq<Run>, b: seq<Run>, p: int, n: int)
    requires forall x :: InRuns(more, x) <==> InRuns(less, x) || p <= x < p + n
    requires forall x | p <= x < p + n :: !InRuns(a, x) && !InRuns(less, x) && !InRuns(b, x)
    ensures Added(a + less + b, a + more + b, p, n)
  {
    PagesMiddle(a, less, b);
    PagesMiddle(a, more, b);
  }

  lemma CutFront(runs: seq<Run>, i: nat, n: nat)
    requires Canonical(runs) && i < |runs| && 0 < n < runs[i].len
    ensures var runs' := runs[i := Run(runs[i].start + n, runs[i].len - n)];
            Canonical(runs') && Added(runs', runs, runs[i].start, n)
  {
    hide InRuns, Canonical, Added;
    var a, r, b := runs[..i], runs[i], runs[i + 1..];
    var r' := Run(r.start + n, r.len - n);
    CanonicalSplit(runs, i);
    CanonicalJoin(a, r', b);
    PagesOne(r);
    PagesOne(r');
    assert forall x | r.start <= x < r.start + n :: Holds(r, x);
    Replace(a, [r'], [r], b, r.start, n);
    assert runs[i := r'] == a + [r'] + b;
  }

  lemma DropRun(runs: seq<Run>, i: nat)
    requires Canonical(runs) && i < |runs|
    ensures var runs' := runs[..i] + runs[i + 1..];
            Canonical(runs') && Added(runs', runs, runs[i].start, runs[i].len)
  {
    hide InRuns, Canonical, Added;
    var a, r, b := runs[..i], runs[i], runs[i + 1..];
    CanonicalSplit(runs, i);
    CanonicalPair(a, b, r.start);
    PagesOne(r);
    assert forall x | r.start <= x < r.start + r.len :: Holds(r, x);
    NonePages();
    Replace(a, [], [r], b, r.start, r.len);
    assert a + [] + b == a + b;
  }

  /** The pages from `p` to `p + n` are not free. */
  ghost predicate Taken(runs: seq<Run>, p: int, n: int) {
    forall x | p <= x < p + n :: !InRuns(runs, x)
  }

  /** Pages that are not free lie wholly before or after each run; these are the assertions of rt_page_free. */
  lemma RunsApart(runs: seq<Run>, i: nat, p: nat, n: nat)
    requires Canonical(runs) && i < |runs| && n > 0 && Taken(runs, p, n)
    ensures runs[i].start + runs[i].len <= p || p + n <= runs[i].start
    ensures runs[i].len > 0 && (i + 1 < |runs| ==> runs[i].start + runs[i].len < runs[i + 1].start)
  {
    var b := runs[i];
    assert Holds(b, p) ==> InRuns(runs, p);
    assert Holds(b, b.start);
    assert InRuns(runs, b.start);
  }

  lemma TakenParts(a: seq<Run>, mid: seq<Run>, b: seq<Run>, p: int, n: int)
    requires Taken(a + mid + b, p, n)
    ensures Taken(a, p, n) && Taken(mid, p, n) && Taken(b, p, n)
  {
    PagesMiddle(a, mid, b);
  }

  lemma InsertRun(runs: seq<Run>, i: nat, p: nat, n: nat)
    requires Canonical(runs) && i <= |runs| && n > 0 && Taken(runs, p, n)
    requires Below(runs[..i], p) && Above(runs[i..], p + n)
    ensures var runs' := runs[..i] + [Run(p, n)] + runs[i..];
            Canonical(runs') && Added(runs, runs', p, n)
  {
    hide InRuns, Canonical, Added;
    var a, b := runs[..i], runs[i..];
    assert runs == a + b == a + [] + b;
    CanonicalCut(runs, i);
    CanonicalJoin(a, Run(p, n), b);
    PagesOne(Run(p, n));
    TakenParts(a, [], b, p, n);
    NonePages();
    Replace(a, [], [Run(p, n)], b, p, n);
  }

  /** Run `i` grows to the left or to the right. */
  lemma GrowRun(runs: seq<Run>, i: nat, p: nat, n: nat)
    requires Canonical(runs) && i < |runs| && n > 0 && Taken(runs, p, n)
    requires p + n == runs[i].start || runs[i].start + runs[i].len == p
    requires Below(runs[..i], p) || p > runs[i].start
    requires Above(runs[i + 1..], p + n)
    ensures var runs' := runs[i := Run(if p < runs[i].start then p else runs[i].start, runs[i].len + n)];
            Canonical(runs') && Added(runs, runs', p, n)
  {
    hide InRuns, Canonical, Added;
    var a, r, b := runs[..i], runs[i], runs[i + 1..];
    var r' := Run(if p < r.start then p else r.start, r.len + n);
    CanonicalSplit(runs, i);
    CanonicalJoin(a, r', b);
    PagesOne(r);
    PagesOne(r');
    TakenParts(a, [r], b, p, n);
    Replace(a, [r], [r'], b, p, n);
    assert runs[i := r'] == a + [r'] + b;
  }

  /** Run `i`, the pages after it and run `i + 1` become one. */
  lemma FuseRuns(runs: seq<Run>, i: nat, n: nat)
    requires Canonical(runs) && i + 1 < |runs| && n > 0
    requires runs[i].start + runs[i].len + n == runs[i + 1].start
    requires Taken(runs, runs[i].start + runs[i].len, n)
    ensures var r, s := runs[i], runs[i + 1];
            var runs' := runs[..i] + [Run(r.start, r.len + n + s.len)] + runs[i + 2..];
            Canonical(runs') && Added(runs, runs', r.start + r.len, n)
  {
    hide InRuns, Canonical, Added;
    var a, r, s, b := runs[..i], runs[i], runs[i + 1], runs[i + 2..];
    var joined := Run(r.start, r.len + n + s.len);
    CanonicalSplit(runs, i);
    CanonicalSplit(runs, i + 1);
    assert Above(b, joined.start + joined.len);
    CanonicalJoin(a, joined, b);
    PagesOne(joined);
    PagesOne(r);
    PagesOne(s);
    PagesConcat([r], [s]);
    assert runs == a + ([r] + [s]) + b;
    TakenParts(a, [r] + [s], b, r.start + r.len, n);
    assert forall x :: Holds(joined, x) <==> Holds(r, x) || Holds(s, x) || r.start + r.len <= x < r.start + r.len + n;
    Replace(a, [r] + [s], [joined], b, r.start + r.len, n);
  }

  // ---------------------------------------------------------------- the list itself

  /** The run at `start` is the first one of `npages` pages or more. */
  ghost predicate LowestRun(runs: seq<Run>, start: nat, npages: nat) {
    exists i | 0 <= i < |runs| ::
      runs[i].start == start && runs[i].len >= npages && forall j | 0 <= j < i :: runs[j].len < npages
  }

  class Pages {
    var runs: seq<Run>

    ghost predicate Valid()
      reads this
    {
      Canonical(runs)
    }

    /** rt_page_init */
    constructor (npages: nat)
      requires npages > 0
      ensures Valid() && runs == [Run(0, npages)]
      ensures forall p :: InRuns(runs, p) <==> 0 <= p < npages
    {
      runs := [Run(0, npages)];
      new;
      assert forall p :: Holds(runs[0], p) <==> 0 <= p < npages;
    }

    /** rt_page_alloc: the lowest run that is long enough gives up its first pages. */
    method Alloc(npages: nat) returns (r: Option<nat>)
      requires Valid()
      modifies this
      ensures Valid()
      ensures r.None? <==> npages == 0 || forall i | 0 <= i < |old(runs)| :: old(runs)[i].len < npages
      ensures r.None? ==> runs == old(runs)
      ensures r.Some? ==> Added(runs, old(runs), r.value, npages)
      ensures r.Some? ==> LowestRun(old(runs), r.value, npages)
    {
      hide InRuns, Canonical, Added;
      if npages == 0 {
        return None;
      }
      var i := 0;
      while i < |runs|
        invariant i <= |runs| && runs == old(runs)
        invariant forall j | 0 <= j < i :: runs[j].len < npages
      {
        var b := runs[i];
        if b.len > npages {
          CutFront(runs, i, npages);
          runs := runs[i := Run(b.start + npages, b.len - npages)];
          return Some(b.start);
        }
        if b.len == npages {
          DropRun(runs, i);
          runs := runs[..i] + runs[i + 1..];
          return Some(b.start);
        }
        i := i + 1;
      }
      return None;
    }

    /** rt_page_free: the pages join the runs they touch. */
    method Free(p: nat, npages: nat)
      requires Valid()
      requires npages != 0 && Taken(runs, p, npages)
      modifies this
      ensures Valid()
      ensures Added(old(runs), runs, p, npages)
    {
      hide InRuns, Canonical, Added, Taken;
      var i := 0;
      while i < |runs|
        invariant i <= |runs| && runs == old(runs)
        invariant Below(runs[..i], p)
      {
        var b := runs[i];
        RunsApart(runs, i, p, npages);
        assert b.start > p || b.start + b.len <= p;
        if b.start + b.len == p {
          if i + 1 < |runs| {
            RunsApart(runs, i + 1, p, npages);
          }
          if i + 1 < |runs| && b.start + (b.len + npages) == runs[i + 1].start {
            FuseRuns(runs, i, npages);
            runs := runs[..i] + [Run(b.start, b.len + npages + runs[i + 1].len)] + runs[i + 2..];
          } else {
            GrowRun(runs, i, p, npages);
            runs := runs[i := Run(b.start, b.len + npages)];
          }
          return;
        }
        if b.start == p + npages {
          GrowRun(runs, i, p, npages);
          runs := runs[i := Run(p, b.len + npages)];
          return;
        }
        if b.start > p + npages {
          break;
        }
        i := i + 1;
      }
      InsertRun(runs, i, p, npages);
      runs := runs[..i] + [Run(p, npages)] + runs[i..];
    }
  }

  // ---------------------------------------------------------------- freeing everything

  /** The blocks and the free runs are disjoint and together are all pages below `npages`. */
  ghost predicate Partition(runs: seq<Run>, blocks: seq<Run>, npages: nat) {
    && (forall i | 0 <= i < |blocks| :: blocks[i].len > 0)
    && (forall i, x | 0 <= i < |blocks| && Holds(blocks[i], x) :: !InRuns(runs, x))
    && (forall i, j, x | 0 <= i < j < |blocks| && Holds(blocks[i], x) :: !Holds(blocks[j], x))
    && (forall x :: InRuns(runs, x) || InRuns(blocks, x) <==> 0 <= x < npages)
  }

  lemma PartitionNext(runs: seq<Run>, runs': seq<Run>, blocks: seq<Run>, npages: nat)
    requires Partition(runs, blocks, npages) && blocks != []
    requires Added(runs, runs', blocks[0].start, blocks[0].len)
    ensures Partition(runs', blocks[1..], npages)
  {
    var rest := blocks[1..];
    assert forall j | 0 <= j < |rest| :: rest[j] == blocks[j + 1];
    forall x ensures InRuns(blocks, x) <==> Holds(blocks[0], x) || InRuns(rest, x) {
      if InRuns(blocks, x) && !Holds(blocks[0], x) {
        var j :| 0 <= j < |blocks| && Holds(blocks[j], x);
        assert Holds(rest[j - 1], x);
      }
    }
    forall i, x | 0 <= i < |rest| && Holds(rest[i], x) ensures !InRuns(runs', x) {
      assert Holds(blocks[i + 1], x) && !Holds(blocks[0], x);
    }
    forall i, j, x | 0 <= i < j < |rest| && Holds(rest[i], x) ensures !Holds(rest[j], x) {
      assert Holds(blocks[i + 1], x) && !Holds(blocks[j + 1], x);
    }
    forall x ensures InRuns(runs', x) || InRuns(rest, x) <==> 0 <= x < npages {
      assert InRuns(runs', x) <==> InRuns(runs, x) || Holds(blocks[0], x);
    }
  }

  /** Giving back all outstanding blocks, in any order, restores the initial single run. */
  method FreeAll(pages: Pages, blocks: seq<Run>, npages: nat)
    requires pages.Valid() && npages > 0
    requires Partition(pages.runs, blocks, npages)
    modifies pages
    ensures pages.Valid() && pages.runs == [Run(0, npages)]
  {
    var i := 0;
    while i < |blocks|
      invariant i <= |blocks| && pages.Valid()
      invariant Partition(pages.runs, blocks[i..], npages)
    {
      assert blocks[i..][0] == blocks[i];
      ghost var before := pages.runs;
      assert forall x | blocks[i].start <= x < blocks[i].start + blocks[i].len :: Holds(blocks[i..][0], x);
      pages.Free(blocks[i].start, blocks[i].len);
      PartitionNext(before, pages.runs, blocks[i..], npages);
      assert blocks[i..][1..] == blocks[i + 1..];
      i := i + 1;
    }
    AllPagesOneRun(pages.runs, npages);
  }
}
