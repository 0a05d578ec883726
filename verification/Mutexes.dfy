/**
 Mutexes of ipc.c with priority inheritance: what it keeps while no thread asks for
 a mutex that owns another one, and exactly what it keeps when threads do.
 */
module Mutexes {
  import opened Sequences
  import opened Machine
  import opened WaitList
  import opened Traces

  type MutexId = int

  const NOBODY: ThreadId := -1
  const NO_PRIORITY: int := 255   // original_priority of a free mutex
  const HOLD_MAX: int := 255      // RT_MUTEX_HOLD_MAX

  /** `gaveUp`: a waiter has timed out since the owner took the mutex. */
  datatype Mutex = Mutex(value: nat, owner: ThreadId, original: nat, hold: nat, waiters: seq<ThreadId>, gaveUp: bool)

  datatype Outcome = Pending | Ok | Failed | Full | TimedOut

  /** Free with nobody waiting, or owned and held. */
  ghost predicate Sane(m: Mutex, prio: map<ThreadId, nat>) {
    && (m.value == 1 || m.value == 0)
    && (m.value == 1 <==> m.owner == NOBODY) && (m.value == 1 <==> m.hold == 0) && m.hold <= HOLD_MAX
    && (m.owner == NOBODY ==> m.waiters == [])
    && (m.owner != NOBODY ==> m.owner in prio)
    && NoRepeats(m.waiters) && (forall i | 0 <= i < |m.waiters| :: m.waiters[i] in prio)
    && m.owner !in m.waiters
  }

  ghost predicate AllSane(mutex: map<MutexId, Mutex>, prio: map<ThreadId, nat>) {
    NOBODY !in prio && forall m {:trigger mutex[m]} | m in mutex :: Sane(mutex[m], prio)
  }

  ghost predicate Owns(mutex: map<MutexId, Mutex>, t: ThreadId) {
    exists m | m in mutex :: mutex[m].owner == t
  }

  predicate Waits(mutex: map<MutexId, Mutex>, t: ThreadId) {
    exists m | m in mutex :: t in mutex[m].waiters
  }

  /** No thread owns two mutexes, waits twice, or waits while it owns one. */
  ghost predicate OneAtATime(mutex: map<MutexId, Mutex>) {
    && (forall m, n | m in mutex && n in mutex && mutex[m].owner == mutex[n].owner != NOBODY :: m == n)
    && (forall m, n, t | m in mutex && n in mutex && t in mutex[m].waiters ::
          mutex[n].owner != t
          && (t in mutex[n].waiters ==> m == n))
  }

  /**
   The owner is as urgent as its own priority and every waiter demand; exactly that,
   until a waiter gives up.  Waiters queue by urgency.
   */
  ghost predicate Inherits(m: Mutex, prio: map<ThreadId, nat>, base: map<ThreadId, nat>) {
    m.owner != NOBODY ==>
      && m.owner in prio && m.owner in base && m.original == base[m.owner]
      && Sorted(m.waiters, prio)
      && prio[m.owner] <= base[m.owner]
      && (m.waiters != [] ==> prio[m.owner] <= prio[m.waiters[0]])
      && (!m.gaveUp ==> prio[m.owner] == if m.waiters == [] then base[m.owner]
          else Min(base[m.owner], prio[m.waiters[0]]))
  }

  ghost predicate AllInherit(mutex: map<MutexId, Mutex>, prio: map<ThreadId, nat>, base: map<ThreadId, nat>) {
    forall m {:trigger mutex[m]} | m in mutex :: Inherits(mutex[m], prio, base)
  }

  /** Threads without a mutex run at their own priority. */
  ghost predicate Unboosted(mutex: map<MutexId, Mutex>, prio: map<ThreadId, nat>, base: map<ThreadId, nat>) {
    && (forall t :: t in prio <==> t in base)
    && (forall t {:trigger prio[t]} | t in prio && !Owns(mutex, t) :: prio[t] == base[t])
  }

  ghost predicate Disciplined(mutex: map<MutexId, Mutex>, prio: map<ThreadId, nat>, base: map<ThreadId, nat>) {
    && AllSane(mutex, prio) && OneAtATime(mutex) && AllInherit(mutex, prio, base) && Unboosted(mutex, prio, base)
  }

  /** The owner is at least as urgent as every waiter. */
  lemma OwnerMostUrgent(m: Mutex, prio: map<ThreadId, nat>, base: map<ThreadId, nat>, w: ThreadId)
    requires Sane(m, prio) && Inherits(m, prio, base) && w in m.waiters
    ensures m.owner in prio && w in prio && prio[m.owner] <= prio[w]
  {
    var i :| 0 <= i < |m.waiters| && m.waiters[i] == w;
    assert i > 0 ==> prio[m.waiters[0]] <= prio[m.waiters[i]];
  }

  // ---------------------------------------------------------------- what each step keeps

  /** A thread that owns nothing takes a free mutex. */
  lemma AcquireKeeps(mutex: map<MutexId, Mutex>, prio: map<ThreadId, nat>, base: map<ThreadId, nat>, m: MutexId,
                     t: ThreadId)
    requires Disciplined(mutex, prio, base) && m in mutex && mutex[m].value == 1
    requires t in prio && !Owns(mutex, t) && !Waits(mutex, t)
    ensures Disciplined(mutex[m := Mutex(0, t, prio[t], 1, mutex[m].waiters, false)], prio, base)
  {
    var mutex' := mutex[m := Mutex(0, t, prio[t], 1, mutex[m].waiters, false)];
    assert Sane(mutex[m], prio);
    forall x | x in prio && !Owns(mutex', x) ensures prio[x] == base[x] {
      OwnsOther(mutex, mutex', m, x);
    }
    forall n | n in mutex' ensures Sane(mutex'[n], prio) && Inherits(mutex'[n], prio, base) {
      assert n != m ==> Sane(mutex[n], prio) && Inherits(mutex[n], prio, base);
    }
  }

  /** Who owns what changes at mutex `m` only. */
  lemma OwnsOther(mutex: map<MutexId, Mutex>, mutex': map<MutexId, Mutex>, m: MutexId, x: ThreadId)
    requires m in mutex && mutex'.Keys == mutex.Keys && forall n | n in mutex && n != m :: mutex'[n] == mutex[n]
    ensures Owns(mutex, x) && mutex[m].owner != x ==> Owns(mutex', x)
    ensures Owns(mutex', x) && mutex'[m].owner != x ==> Owns(mutex, x)
  {
  }

  /** The owner takes its mutex once more, or gives back one of several holds. */
  lemma HoldKeeps(mutex: map<MutexId, Mutex>, prio: map<ThreadId, nat>, base: map<ThreadId, nat>, m: MutexId, hold: nat)
    requires Disciplined(mutex, prio, base) && m in mutex && mutex[m].owner != NOBODY && 0 < hold <= HOLD_MAX
    ensures Disciplined(mutex[m := mutex[m].(hold := hold)], prio, base)
  {
    var mutex' := mutex[m := mutex[m].(hold := hold)];
    forall x ensures Owns(mutex', x) <==> Owns(mutex, x) {
      OwnsOther(mutex, mutex', m, x);
    }
    forall n | n in mutex' ensures Sane(mutex'[n], prio) && Inherits(mutex'[n], prio, base) {
      assert Sane(mutex[n], prio) && Inherits(mutex[n], prio, base);
    }
  }

  /** The priorities once `t` waits for a mutex of `owner`: the owner inherits. */
  function Boosted(prio: map<ThreadId, nat>, owner: ThreadId, t: ThreadId): map<ThreadId, nat>
    requires owner in prio && t in prio
  {
    if prio[t] < prio[owner] then prio[owner := prio[t]] else prio
  }

  /** Threads that own nothing keep their priority when an owner is boosted or restored. */
  lemma SanePrio(mutex: map<MutexId, Mutex>, prio: map<ThreadId, nat>, prio': map<ThreadId, nat>)
    requires AllSane(mutex, prio) && forall t :: t in prio <==> t in prio'
    ensures AllSane(mutex, prio')
  {
    forall m | m in mutex ensures Sane(mutex[m], prio') {
      assert Sane(mutex[m], prio);
    }
  }

  /** The other mutexes do not notice. */
  lemma OthersInherit(n: Mutex, prio: map<ThreadId, nat>, prio': map<ThreadId, nat>, base: map<ThreadId, nat>,
                      o: ThreadId)
    requires Inherits(n, prio, base) && n.owner != o && o !in n.waiters
    requires forall t | t != o :: (t in prio <==> t in prio') && (t in prio ==> prio'[t] == prio[t])
    ensures Inherits(n, prio', base)
  {
    forall i | 0 <= i < |n.waiters| ensures n.waiters[i] != o {
      var w := n.waiters[i];
      assert w in n.waiters;
    }
  }

  lemma WaitInherits(m: Mutex, list: seq<ThreadId>, prio: map<ThreadId, nat>, base: map<ThreadId, nat>, t: ThreadId,
                     i: nat)
    requires Sane(m, prio) && Inherits(m, prio, base) && m.owner != NOBODY && t in prio && t != m.owner
             && m.owner !in m.waiters
    requires Inserted(m.waiters, list, t, i) && LastOfEquals(m.waiters, Boosted(prio, m.owner, t), t, i)
    ensures Inherits(m.(waiters := list), Boosted(prio, m.owner, t), base)
  {
    var prio' := Boosted(prio, m.owner, t);
    assert forall k | 0 <= k < |m.waiters| :: m.waiters[k] in m.waiters;
    assert Sorted(m.waiters, prio');
    SuspendKeepsSorted(m.waiters, list, prio', t, i);
    assert list[0] == if i == 0 then t else m.waiters[0];
  }

  lemma WaitKeeps(mutex: map<MutexId, Mutex>, prio: map<ThreadId, nat>, base: map<ThreadId, nat>, m: MutexId,
                  t: ThreadId, list: seq<ThreadId>, i: nat)
    requires Disciplined(mutex, prio, base) && m in mutex && mutex[m].owner != NOBODY && mutex[m].owner in prio
    requires t in prio && !Owns(mutex, t) && !Waits(mutex, t)
    requires Inserted(mutex[m].waiters, list, t, i) && LastOfEquals(mutex[m].waiters, Boosted(prio, mutex[m].owner, t),
                                                                    t, i)
    ensures Disciplined(mutex[m := mutex[m].(waiters := list)], Boosted(prio, mutex[m].owner, t), base)
  {
    hide Inherits, Inserted, LastOfEquals;
    assert Sane(mutex[m], prio);
    assert t !in mutex[m].waiters;
    var o, prio' := mutex[m].owner, Boosted(prio, mutex[m].owner, t);
    var mutex' := mutex[m := mutex[m].(waiters := list)];
    InsertedMembers(mutex[m].waiters, list, t, i);
    assert mutex[m].owner != t;
    WaitInherits(mutex[m], list, prio, base, t, i);
    forall x ensures Owns(mutex', x) <==> Owns(mutex, x) {
      OwnsOther(mutex, mutex', m, x);
    }
    SaneWaiters(mutex[m], list, prio, prio', t);
    SanePrio(mutex, prio, prio');
    forall n | n in mutex' ensures Sane(mutex'[n], prio') && Inherits(mutex'[n], prio', base) {
      if n != m {
        OthersInherit(mutex[n], prio, prio', base, o);
      }
    }
    assert Owns(mutex, o);
    assert Unboosted(mutex', prio', base);
  }

  lemma SaneWaiters(m: Mutex, list: seq<ThreadId>, prio: map<ThreadId, nat>, prio': map<ThreadId, nat>, t: ThreadId)
    requires Sane(m, prio) && m.owner != NOBODY && t in prio && t != m.owner && NoRepeats(list)
    requires forall x :: x in list ==> x in m.waiters || x == t
    requires forall x :: x in prio <==> x in prio'
    ensures Sane(m.(waiters := list), prio')
  {
    forall i | 0 <= i < |list| ensures list[i] in prio' {
      var x := list[i];
      assert x in list;
      if x in m.waiters {
        var j :| 0 <= j < |m.waiters| && m.waiters[j] == x;
      }
    }
  }

  /** The priorities once the owner is back at its saved one. */
  function Restored(prio: map<ThreadId, nat>, m: Mutex): map<ThreadId, nat>
    requires m.owner in prio
  {
    if m.original != prio[m.owner] then prio[m.owner := m.original] else prio
  }

  /** The mutex once its owner let go for good: handed to the first waiter, or free. */
  function Passed(m: Mutex, prio: map<ThreadId, nat>): Mutex
    requires m.waiters != [] ==> m.waiters[0] in prio
  {
    if m.waiters == [] then Mutex(m.value + 1, NOBODY, NO_PRIORITY, 0, [], false)
    else Mutex(m.value, m.waiters[0], prio[m.waiters[0]], 1, m.waiters[1..], false)
  }

  lemma ReleaseKeeps(mutex: map<MutexId, Mutex>, prio: map<ThreadId, nat>, base: map<ThreadId, nat>, m: MutexId)
    requires Disciplined(mutex, prio, base) && m in mutex && mutex[m].owner != NOBODY && mutex[m].owner in prio
    requires mutex[m].waiters != [] ==> mutex[m].waiters[0] in Restored(prio, mutex[m])
    ensures var prio' := Restored(prio, mutex[m]);
            Disciplined(mutex[m := Passed(mutex[m], prio')], prio', base)
    ensures Restored(prio, mutex[m])[mutex[m].owner] == base[mutex[m].owner]
  {
    hide Sane;
    var o, prio' := mutex[m].owner, Restored(prio, mutex[m]);
    assert Inherits(mutex[m], prio, base);
    var mutex' := mutex[m := Passed(mutex[m], prio')];
    PassedMembers(mutex[m], prio, prio');
    SanePrio(mutex, prio, prio');
    PassedOk(mutex, prio, prio', base, m);
    forall n | n in mutex' ensures Sane(mutex'[n], prio') && Inherits(mutex'[n], prio', base) {
      if n != m {
        OthersInherit(mutex[n], prio, prio', base, o);
      }
    }
    forall x | x in prio' && !Owns(mutex', x) ensures prio'[x] == base[x] {
      OwnsOther(mutex, mutex', m, x);
    }
  }

  lemma PassedMembers(m: Mutex, prio: map<ThreadId, nat>, prio': map<ThreadId, nat>)
    requires Sane(m, prio) && m.owner != NOBODY && (m.waiters != [] ==> m.waiters[0] in prio')
    ensures var p := Passed(m, prio');
            && (m.waiters == [] ==> p.owner == NOBODY && p.waiters == [])
            && (m.waiters != [] ==>
                  p.owner in m.waiters && p.owner !in p.waiters
                  && forall x | x in p.waiters :: x in m.waiters)
  {
    if m.waiters != [] {
      HeadRemoved(m.waiters);
    }
  }

  lemma PassedOk(mutex: map<MutexId, Mutex>, prio: map<ThreadId, nat>, prio': map<ThreadId, nat>,
                 base: map<ThreadId, nat>, m: MutexId)
    requires Disciplined(mutex, prio, base) && m in mutex && mutex[m].owner != NOBODY && mutex[m].owner in prio
    requires prio' == Restored(prio, mutex[m])
    ensures mutex[m].waiters != [] ==> mutex[m].waiters[0] in prio'
    ensures Sane(Passed(mutex[m], prio'), prio') && Inherits(Passed(mutex[m], prio'), prio', base)
  {
    var k := mutex[m];
    assert Sane(k, prio) && Inherits(k, prio, base);
    if k.waiters != [] {
      HeadRemoved(k.waiters);
      var w := k.waiters[0];
      assert w in k.waiters;
      assert !Owns(mutex, w);
      assert forall i | 0 <= i < |k.waiters| :: k.waiters[i] in k.waiters && k.waiters[i] != k.owner;
      assert prio'[w] == base[w];
    }
  }

  /** A waiter gives up: its owner keeps the priority it inherited. */
  lemma GiveUpKeeps(mutex: map<MutexId, Mutex>, prio: map<ThreadId, nat>, base: map<ThreadId, nat>, m: MutexId,
                    t: ThreadId, i: nat)
    requires Disciplined(mutex, prio, base) && m in mutex && i < |mutex[m].waiters| && mutex[m].waiters[i] == t
    ensures Disciplined(mutex[m := mutex[m].(waiters := mutex[m].waiters[..i] + mutex[m].waiters[i + 1..],
                                             gaveUp := true)], prio, base)
  {
    hide Inherits, OneAtATime, Sane;
    var k := mutex[m];
    var list := k.waiters[..i] + k.waiters[i + 1..];
    var mutex' := mutex[m := k.(waiters := list, gaveUp := true)];
    assert Sane(k, prio);
    GiveUpInherits(k, list, prio, base, i);
    FewerWaiters(mutex, mutex', m);
    forall x ensures Owns(mutex', x) <==> Owns(mutex, x) {
      OwnsOther(mutex, mutex', m, x);
    }
    forall n | n in mutex' ensures Sane(mutex'[n], prio) && Inherits(mutex'[n], prio, base) {
      assert n != m ==> Sane(mutex[n], prio) && Inherits(mutex[n], prio, base);
    }
  }

  lemma FewerWaiters(mutex: map<MutexId, Mutex>, mutex': map<MutexId, Mutex>, m: MutexId)
    requires OneAtATime(mutex) && m in mutex && m in mutex' && mutex' == mutex[m := mutex'[m]]
    requires mutex'[m].owner == mutex[m].owner && forall x | x in mutex'[m].waiters :: x in mutex[m].waiters
    ensures OneAtATime(mutex')
  {
  }

  lemma GiveUpInherits(k: Mutex, list: seq<ThreadId>, prio: map<ThreadId, nat>, base: map<ThreadId, nat>, i: nat)
    requires Sane(k, prio) && Inherits(k, prio, base) && i < |k.waiters| && list == k.waiters[..i] + k.waiters[i + 1..]
    ensures Inherits(k.(waiters := list, gaveUp := true), prio, base) && Sane(k.(waiters := list, gaveUp := true), prio)
    ensures forall x | x in list :: x in k.waiters
  {
    assert forall j | 0 <= j < |list| :: list[j] == k.waiters[if j < i then j else j + 1];
  }

  // ---------------------------------------------------------------- who owns what, in which order

  /** `s` without `m`. */
  ghost function Unstacked(s: seq<MutexId>, m: MutexId): seq<MutexId> {
    if s == [] then [] else if s[0] == m then s[1..] else [s[0]] + Unstacked(s[1..], m)
  }

  lemma {:induction false} UnstackedMembers(s: seq<MutexId>, m: MutexId)
    requires NoRepeats(s)
    ensures NoRepeats(Unstacked(s, m)) && forall x :: x in Unstacked(s, m) <==> x in s && x != m
    ensures s != [] ==>
              if s[0] == m then Unstacked(s, m) == s[1..] else Unstacked(s, m) != [] && Unstacked(s, m)[0] == s[0]
  {
    if s != [] {
      HeadRemoved(s);
      assert s == [s[0]] + s[1..];
      if s[0] != m {
        UnstackedMembers(s[1..], m);
        FrontUnique(s[0], Unstacked(s[1..], m));
      }
    }
  }

  lemma {:induction false} UnstackedDrops(s: seq<MutexId>, m: MutexId)
    requires m in s
    ensures Dropped(s, Unstacked(s, m), m)
  {
    assert s == [s[0]] + s[1..];
    if s[0] == m {
      HeadDropped(s);
    } else {
      UnstackedDrops(s[1..], m);
      DroppedBehind(s[0], s[1..], Unstacked(s[1..], m), m);
    }
  }

  lemma HeadDropped(s: seq<MutexId>)
    requires s != []
    ensures Dropped(s, s[1..], s[0])
  {
    assert s[1..] == s[..0] + s[0 + 1..];
  }

  lemma DroppedBehind(x: MutexId, before: seq<MutexId>, after: seq<MutexId>, m: MutexId)
    requires Dropped(before, after, m)
    ensures Dropped([x] + before, [x] + after, m)
  {
    var i: nat :| i < |before| && before[i] == m && after == before[..i] + before[i + 1..];
    var longer := [x] + before;
    assert longer[i + 1] == m;
    assert longer[..i + 1] == [x] + before[..i] && longer[i + 2..] == before[i + 1..];
    assert [x] + after == longer[..i + 1] + longer[i + 2..];
  }

  lemma FrontUnique(m: MutexId, s: seq<MutexId>)
    requires NoRepeats(s) && m !in s
    ensures NoRepeats([m] + s) && NoRepeats(s + [m])
  {
    forall i | 0 <= i < |s| ensures s[i] != m {
      assert s[i] in s;
    }
  }

  /** Each thread's stack lists the mutexes it owns, in the order in which they became its own. */
  ghost predicate Stacked(mutex: map<MutexId, Mutex>, prio: map<ThreadId, nat>, stack: map<ThreadId, seq<MutexId>>) {
    && (forall t :: t in stack <==> t in prio)
    && (forall t {:trigger stack[t]} | t in stack :: NoRepeats(stack[t]))
    && (forall t, m {:trigger m in stack[t]} | t in stack :: m in stack[t] <==> m in mutex && mutex[m].owner == t)
  }

  /** The stacks once `m` left that of `t`, unless that is NOBODY, and joined that of `w`, likewise. */
  ghost function Restacked(stack: map<ThreadId, seq<MutexId>>, t: ThreadId, w: ThreadId,
                           m: MutexId): map<ThreadId, seq<MutexId>> {
    var left := if t in stack then stack[t := Unstacked(stack[t], m)] else stack;
    if w in left then left[w := left[w] + [m]] else left
  }

  /** A mutex that changes hands leaves its old owner's stack as it was otherwise, and is the last of the new one's. */
  lemma RestackedExact(stack: map<ThreadId, seq<MutexId>>, t: ThreadId, w: ThreadId, m: MutexId)
    requires t != w && (t in stack ==> m in stack[t])
    ensures Restacked(stack, t, w, m).Keys == stack.Keys
    ensures t in stack ==> Dropped(stack[t], Restacked(stack, t, w, m)[t], m)
    ensures w in stack ==> Restacked(stack, t, w, m)[w] == stack[w] + [m]
    ensures forall x | x in stack && x != t && x != w :: Restacked(stack, t, w, m)[x] == stack[x]
  {
    if t in stack {
      UnstackedDrops(stack[t], m);
    }
  }

  lemma RestackedOk(mutex: map<MutexId, Mutex>, mutex': map<MutexId, Mutex>, prio: map<ThreadId, nat>,
                    prio': map<ThreadId, nat>,
                    stack: map<ThreadId, seq<MutexId>>, m: MutexId)
    requires Stacked(mutex, prio, stack) && NOBODY !in prio && (forall t :: t in prio <==> t in prio')
    requires m in mutex && mutex'.Keys == mutex.Keys && mutex' == mutex[m := mutex'[m]]
             && mutex'[m].owner != mutex[m].owner
    ensures Stacked(mutex', prio', Restacked(stack, mutex[m].owner, mutex'[m].owner, m))
  {
    var t, w := mutex[m].owner, mutex'[m].owner;
    var stack' := Restacked(stack, t, w, m);
    if t in stack {
      UnstackedMembers(stack[t], m);
    }
    if w in stack {
      assert m in stack[w] <==> m in mutex && mutex[m].owner == w;
      FrontUnique(m, stack[w]);
    }
    forall x | x in stack' ensures NoRepeats(stack'[x]) {
      assert NoRepeats(stack[x]);
    }
    forall x, n | x in stack' ensures n in stack'[x] <==> n in mutex' && mutex'[n].owner == x {
      assert n in stack[x] <==> n in mutex && mutex[n].owner == x;
    }
  }

  lemma StackedSame(mutex: map<MutexId, Mutex>, mutex': map<MutexId, Mutex>, prio: map<ThreadId, nat>,
                    prio': map<ThreadId, nat>,
                    stack: map<ThreadId, seq<MutexId>>, m: MutexId)
    requires Stacked(mutex, prio, stack) && (forall t :: t in prio <==> t in prio')
    requires m in mutex && mutex'.Keys == mutex.Keys && mutex' == mutex[m := mutex'[m]]
             && mutex'[m].owner == mutex[m].owner
    ensures Stacked(mutex', prio', stack)
  {
    forall x, n | x in stack ensures n in stack[x] <==> n in mutex' && mutex'[n].owner == x {
      assert n in stack[x] <==> n in mutex && mutex[n].owner == x;
    }
  }

  // ---------------------------------------------------------------- the calls

  class Kernel {
    var prio: map<ThreadId, nat>           // current_priority
    var mutex: map<MutexId, Mutex>
    ghost var base: map<ThreadId, nat>     // each thread's own priority
    ghost var stack: map<ThreadId, seq<MutexId>>

    ghost predicate Valid()
      reads this
    {
      AllSane(mutex, prio) && Stacked(mutex, prio, stack)
    }

    constructor (prio: map<ThreadId, nat>, ids: set<MutexId>)
      requires NOBODY !in prio
      ensures Valid() && Disciplined(mutex, this.prio, base) && this.prio == prio && base == prio
      ensures mutex.Keys == ids && forall m | m in ids :: mutex[m] == Mutex(1, NOBODY, NO_PRIORITY, 0, [], false)
      ensures stack == map t | t in prio :: []
    {
      this.prio, base := prio, prio;
      mutex := map m | m in ids :: Mutex(1, NOBODY, NO_PRIORITY, 0, [], false);
      stack := map t | t in prio :: [];
    }

    /** rt_mutex_take, up to its answer or its suspension; threads that own no other mutex keep the discipline. */
    method Take(t: ThreadId, m: MutexId, time: int) returns (r: Outcome)
      requires Valid() && m in mutex && t in prio && !Waits(mutex, t)
      modifies this`prio, this`mutex, this`stack
      ensures Valid()
      ensures var k := old(mutex)[m];
              if k.owner == t then
                && r == (if k.hold < HOLD_MAX then Ok else Full)
                && prio == old(prio) && stack == old(stack)
                && mutex == (if r.Ok? then old(mutex)[m := k.(hold := k.hold + 1)] else old(mutex))
              else if k.value == 1 then
                && r.Ok? && prio == old(prio) && mutex == old(mutex)[m := Mutex(0, t, old(prio)[t], 1, k.waiters,
                    false)]
                && k.owner == NOBODY && stack == Restacked(old(stack), NOBODY, t, m)
              else if time == 0 then
                r.TimedOut? && prio == old(prio) && mutex == old(mutex) && stack == old(stack)
              else
                && r.Pending? && k.owner in old(prio) && prio == Boosted(old(prio), k.owner, t) && stack == old(stack)
                && m in mutex && mutex == old(mutex)[m := k.(waiters := mutex[m].waiters)]
                && Queued(k.waiters, mutex[m].waiters, t, Prio, prio)
      ensures old(Disciplined(mutex, prio, base)) && (old(mutex)[m].owner == t || !Owns(old(mutex), t)) ==>
                Disciplined(mutex, prio, base)
    {
      hide AllSane, Disciplined, Inserted, LastOfEquals, Stacked, Restacked, Queued;
      var k := mutex[m];
      SaneHere(mutex, prio, m);
      if k.owner == t {
        if k.hold >= HOLD_MAX {
          return Full;
        }
        HoldSane(mutex, prio, m, k.hold + 1);
        StackedSame(mutex, mutex[m := k.(hold := k.hold + 1)], prio, prio, stack, m);
        if old(Disciplined(mutex, prio, base)) {
          HoldKeeps(mutex, prio, base, m, k.hold + 1);
        }
        mutex := mutex[m := k.(hold := k.hold + 1)];
        return Ok;
      }
      if k.value > 0 {
        Acquire(t, m);
        return Ok;
      }
      if time == 0 {
        return TimedOut;
      }
      if prio[t] < prio[k.owner] {
        prio := prio[k.owner := prio[t]];
      }
      var list, pos := Suspend(k.waiters, t, Prio, prio);
      WaitSane(mutex, old(prio), prio, m, t, list, pos);
      StackedSame(mutex, mutex[m := k.(waiters := list)], old(prio), prio, stack, m);
      if old(Disciplined(mutex, prio, base)) && !Owns(mutex, t) {
        WaitKeeps(mutex, old(prio), base, m, t, list, pos);
      }
      mutex := mutex[m := k.(waiters := list)];
      return Pending;
    }

    /** Take a free mutex. */
    method Acquire(t: ThreadId, m: MutexId)
      requires Valid() && m in mutex && mutex[m].value == 1 && t in prio && !Waits(mutex, t)
      modifies this`mutex, this`stack
      ensures Valid() && mutex == old(mutex)[m := Mutex(0, t, prio[t], 1, old(mutex)[m].waiters, false)]
      ensures old(mutex)[m].owner == NOBODY && stack == Restacked(old(stack), NOBODY, t, m)
      ensures old(Disciplined(mutex, prio, base)) && !Owns(old(mutex), t) ==> Disciplined(mutex, prio, base)
    {
      hide AllSane, Disciplined, Stacked, Restacked;
      var k := mutex[m];
      SaneHere(mutex, prio, m);
      AcquireSane(mutex, prio, m, t);
      if old(Disciplined(mutex, prio, base)) && !Owns(mutex, t) {
        AcquireKeeps(mutex, prio, base, m, t);
      }
      k := k.(value := k.value - 1);
      k := k.(owner := t, original := prio[t], gaveUp := false);
      var overflow := k.hold >= HOLD_MAX;   // the source would return -RT_EFULL here
      assert !overflow;
      k := k.(hold := k.hold + 1);
      RestackedOk(mutex, mutex[m := k], prio, prio, stack, m);
      stack := Restacked(stack, NOBODY, t, m);
      mutex := mutex[m := k];
    }

    /** rt_mutex_release; the final release gives back the priority saved when the mutex was taken. */
    method Release(t: ThreadId, m: MutexId) returns (r: Outcome)
      requires Valid() && m in mutex && t in prio
      modifies this`prio, this`mutex, this`stack
      ensures Valid()
      ensures var k := old(mutex)[m];
              if k.owner != t then
                r.Failed? && prio == old(prio) && mutex == old(mutex) && stack == old(stack)
              else if k.hold > 1 then
                r.Ok? && prio == old(prio) && mutex == old(mutex)[m := k.(hold := k.hold - 1)] && stack == old(stack)
              else
                && r.Ok? && prio == Restored(old(prio), k) && prio[t] == k.original
                && (k.waiters != [] ==> k.waiters[0] in prio)
                && mutex == old(mutex)[m := Passed(k, prio)]
                && (forall x | x in prio && x != t :: prio[x] == old(prio)[x])
                && (if k.waiters == [] then mutex[m].value == 1 && mutex[m].owner == NOBODY && mutex[m].waiters == []
                    else
                      && k.waiters == [mutex[m].owner] + mutex[m].waiters && mutex[m].hold == 1
                      && mutex[m].original == prio[mutex[m].owner])
                && stack == Restacked(old(stack), t, Passed(k, prio).owner, m)
      ensures old(Disciplined(mutex, prio, base)) ==> Disciplined(mutex, prio, base)
      ensures old(Disciplined(mutex, prio, base)) && old(mutex)[m].owner == t && old(mutex)[m].hold == 1 ==>
                t in base && prio[t] == base[t]
    {
      hide AllSane, Disciplined, Stacked, Restacked;
      var k := mutex[m];
      SaneHere(mutex, prio, m);
      if t != k.owner {
        return Failed;
      }
      k := k.(hold := k.hold - 1);
      if k.hold > 0 {
        HoldSane(mutex, prio, m, k.hold);
        StackedSame(mutex, mutex[m := k], prio, prio, stack, m);
        if old(Disciplined(mutex, prio, base)) {
          HoldKeeps(mutex, prio, base, m, k.hold);
        }
        mutex := mutex[m := k];
        return Ok;
      }
      PassSane(mutex, prio, m);
      if old(Disciplined(mutex, prio, base)) {
        ReleaseKeeps(mutex, prio, base, m);
        OwnerKnown(mutex, prio, base, m);
      }
      PassOwner(mutex, prio, m);
      if k.original != prio[k.owner] {
        prio := prio[k.owner := k.original];
      }
      if k.waiters != [] {
        var w := k.waiters[0];
        k := k.(owner := w, original := prio[w], gaveUp := false);
        var overflow := k.hold >= HOLD_MAX;   // the source would return -RT_EFULL here
        assert !overflow;
        k := k.(hold := k.hold + 1, waiters := k.waiters[1..]);
      } else {
        k := k.(value := k.value + 1);
        k := k.(owner := NOBODY, original := NO_PRIORITY, gaveUp := false);
      }
      RestackedOk(mutex, mutex[m := k], old(prio), prio, stack, m);
      stack := Restacked(stack, t, k.owner, m);
      mutex := mutex[m := k];
      return Ok;
    }

    /** The timer of a waiting thread fires. */
    method Expire(t: ThreadId, m: MutexId)
      requires Valid() && m in mutex && t in mutex[m].waiters
      modifies this`mutex
      ensures Valid()
      ensures m in mutex && mutex == old(mutex)[m := old(mutex)[m].(waiters := mutex[m].waiters, gaveUp := true)]
      ensures Dropped(old(mutex)[m].waiters, mutex[m].waiters, t)
      ensures old(Disciplined(mutex, prio, base)) ==> Disciplined(mutex, prio, base)
    {
      hide Disciplined, Stacked;
      assert Sane(mutex[m], prio);
      var list := Remove(mutex[m].waiters, t);
      ghost var i: nat :|
        i < |mutex[m].waiters| && mutex[m].waiters[i] == t && list == mutex[m].waiters[..i] + mutex[m].waiters[i + 1..];
      if old(Disciplined(mutex, prio, base)) {
        GiveUpKeeps(mutex, prio, base, m, t, i);
      }
      forall k | 0 <= k < |list| ensures list[k] in prio {
        var x := list[k];
        assert x in list && x in mutex[m].waiters;
        var j :| 0 <= j < |mutex[m].waiters| && mutex[m].waiters[j] == x;
      }
      forall n | n in mutex && n != m ensures Sane(mutex[n], prio) {
      }
      StackedSame(mutex, mutex[m := mutex[m].(waiters := list, gaveUp := true)], prio, prio, stack, m);
      mutex := mutex[m := mutex[m].(waiters := list, gaveUp := true)];
    }
  }

  /** Who owns a mutex changes when it is passed on. */
  lemma PassOwner(mutex: map<MutexId, Mutex>, prio: map<ThreadId, nat>, m: MutexId)
    requires AllSane(mutex, prio) && m in mutex && mutex[m].owner != NOBODY
    ensures mutex[m].waiters != [] ==> mutex[m].waiters[0] != mutex[m].owner
  {
    var k := mutex[m];
    assert Sane(k, prio);
    if k.waiters != [] {
      assert k.waiters[0] in k.waiters;
    }
  }

  lemma SaneHere(mutex: map<MutexId, Mutex>, prio: map<ThreadId, nat>, m: MutexId)
    requires AllSane(mutex, prio) && m in mutex
    ensures Sane(mutex[m], prio) && NOBODY !in prio
  {
  }

  lemma HoldSane(mutex: map<MutexId, Mutex>, prio: map<ThreadId, nat>, m: MutexId, hold: nat)
    requires AllSane(mutex, prio) && m in mutex && mutex[m].owner != NOBODY && 0 < hold <= HOLD_MAX
    ensures AllSane(mutex[m := mutex[m].(hold := hold)], prio)
  {
  }

  lemma AcquireSane(mutex: map<MutexId, Mutex>, prio: map<ThreadId, nat>, m: MutexId, t: ThreadId)
    requires AllSane(mutex, prio) && m in mutex && mutex[m].value == 1 && t in prio
    ensures AllSane(mutex[m := Mutex(0, t, prio[t], 1, mutex[m].waiters, false)], prio)
  {
    assert Sane(mutex[m], prio);
  }

  lemma WaitSane(mutex: map<MutexId, Mutex>, prio: map<ThreadId, nat>, prio': map<ThreadId, nat>, m: MutexId,
                 t: ThreadId, list: seq<ThreadId>, i: nat)
    requires AllSane(mutex, prio) && m in mutex && mutex[m].owner != NOBODY && t in prio && !Waits(mutex, t)
    requires mutex[m].owner != t && forall x :: x in prio <==> x in prio'
    requires Inserted(mutex[m].waiters, list, t, i)
    ensures AllSane(mutex[m := mutex[m].(waiters := list)], prio')
  {
    hide Inserted;
    assert Sane(mutex[m], prio);
    assert t !in mutex[m].waiters;
    InsertedMembers(mutex[m].waiters, list, t, i);
    SaneWaiters(mutex[m], list, prio, prio', t);
    SanePrio(mutex, prio, prio');
  }

  lemma PassSane(mutex: map<MutexId, Mutex>, prio: map<ThreadId, nat>, m: MutexId)
    requires AllSane(mutex, prio) && m in mutex && mutex[m].owner != NOBODY && mutex[m].owner in prio
    ensures var prio' := Restored(prio, mutex[m]);
            && (mutex[m].waiters != [] ==> mutex[m].waiters[0] in prio')
            && AllSane(mutex[m := Passed(mutex[m], prio')], prio')
  {
    var k, prio' := mutex[m], Restored(prio, mutex[m]);
    assert Sane(k, prio);
    SanePrio(mutex, prio, prio');
    if k.waiters != [] {
      HeadRemoved(k.waiters);
    }
  }

  lemma OwnerKnown(mutex: map<MutexId, Mutex>, prio: map<ThreadId, nat>, base: map<ThreadId, nat>, m: MutexId)
    requires Disciplined(mutex, prio, base) && m in mutex && mutex[m].owner != NOBODY
    ensures mutex[m].owner in base
  {
    assert Inherits(mutex[m], prio, base);
  }
}
