/**
 What priority inheritance keeps when threads own several mutexes: for each call,
 and so for each run, the exact conditions under which owners stay as urgent as
 their waiters, and under which threads that own nothing run at their own priority.
 */
module Inheritance {
  import opened Sequences
  import opened Machine
  import opened WaitList
  import opened Traces
  import opened Mutexes

  // ---------------------------------------------------------------- owners as urgent as their waiters

  /** Priority `p` is at least as urgent as that of every thread in `list`. */
  ghost predicate Covers(p: nat, list: seq<ThreadId>, prio: map<ThreadId, nat>) {
    forall w {:trigger w in list} | w in list :: w in prio && p <= prio[w]
  }

  ghost predicate Respected(m: Mutex, prio: map<ThreadId, nat>) {
    m.owner != NOBODY ==> m.owner in prio && Covers(prio[m.owner], m.waiters, prio)
  }

  /** Every owner is at least as urgent as every thread that waits for it. */
  ghost predicate AllRespected(mutex: map<MutexId, Mutex>, prio: map<ThreadId, nat>) {
    forall m {:trigger mutex[m]} | m in mutex :: Respected(mutex[m], prio)
  }

  /**
   A take of `m` by `t` that has to wait is safe unless the owner it makes more urgent
   waits itself, for a thread that does not inherit in turn.
   */
  ghost predicate WaitSafe(mutex: map<MutexId, Mutex>, prio: map<ThreadId, nat>, t: ThreadId, m: MutexId)
    requires m in mutex && t in prio && mutex[m].owner in prio
  {
    var o := mutex[m].owner;
    prio[t] < prio[o] ==>
      forall n | n in mutex && o in mutex[n].waiters :: mutex[n].owner in prio && prio[mutex[n].owner] <= prio[t]
  }

  /**
   The final release of `m` by `t` is safe if the priority saved with it covers the
   waiters of every other mutex that `t` owns, and the waiter it is handed to covers
   the others.
   */
  ghost predicate ReleaseSafe(mutex: map<MutexId, Mutex>, prio: map<ThreadId, nat>, t: ThreadId, m: MutexId)
    requires m in mutex
  {
    var k := mutex[m];
    && (forall n | n in mutex && n != m && mutex[n].owner == t :: Covers(k.original, mutex[n].waiters, prio))
    && (k.waiters != [] ==> k.waiters[0] in prio && Covers(prio[k.waiters[0]], k.waiters, prio))
  }

  /** Waiting keeps owners as urgent as their waiters if and only if it is safe. */
  lemma WaitExact(mutex: map<MutexId, Mutex>, prio: map<ThreadId, nat>, m: MutexId, t: ThreadId, list: seq<ThreadId>)
    requires AllSane(mutex, prio) && AllRespected(mutex, prio) && m in mutex && t in prio && !Waits(mutex, t)
    requires mutex[m].owner != NOBODY && mutex[m].owner != t && mutex[m].owner in prio
    requires forall x :: x in list <==> x in mutex[m].waiters || x == t
    ensures AllRespected(mutex[m := mutex[m].(waiters := list)], Boosted(prio, mutex[m].owner, t))
            <==> WaitSafe(mutex, prio, t, m)
  {
    var o, prio' := mutex[m].owner, Boosted(prio, mutex[m].owner, t);
    var mutex' := mutex[m := mutex[m].(waiters := list)];
    forall n | n in mutex ensures Sane(mutex[n], prio) && Respected(mutex[n], prio) {
    }
    if WaitSafe(mutex, prio, t, m) {
      forall n | n in mutex' ensures Respected(mutex'[n], prio') {
        assert Respected(mutex[n], prio) && Sane(mutex[n], prio);
      }
    } else {
      var n :| n in mutex && o in mutex[n].waiters && !(mutex[n].owner in prio && prio[mutex[n].owner] <= prio[t]);
      assert Respected(mutex[n], prio) && Sane(mutex[n], prio);
      WaiterOwned(mutex[n], prio, o);
      assert n != m && mutex[n].owner != o;
      assert !Respected(mutex'[n], prio');
    }
  }

  lemma WaiterOwned(m: Mutex, prio: map<ThreadId, nat>, w: ThreadId)
    requires Sane(m, prio) && w in m.waiters
    ensures m.owner != NOBODY && m.owner in prio && m.owner != w && w in prio
  {
  }

  /** The final release keeps owners as urgent as their waiters if and only if it is safe. */
  lemma ReleaseExact(mutex: map<MutexId, Mutex>, prio: map<ThreadId, nat>, m: MutexId)
    requires AllSane(mutex, prio) && AllRespected(mutex, prio) && m in mutex && mutex[m].owner != NOBODY
    requires mutex[m].owner in prio && !Waits(mutex, mutex[m].owner)
    requires mutex[m].waiters != [] ==> mutex[m].waiters[0] in Restored(prio, mutex[m])
    ensures var prio' := Restored(prio, mutex[m]);
            AllRespected(mutex[m := Passed(mutex[m], prio')], prio') <==> ReleaseSafe(mutex, prio, mutex[m].owner, m)
  {
    hide AllSane, Sane;
    var t, prio' := mutex[m].owner, Restored(prio, mutex[m]);
    var mutex' := mutex[m := Passed(mutex[m], prio')];
    assert prio'[t] == mutex[m].original;
    forall n | n in mutex ensures t !in mutex[n].waiters {
    }
    HandedExact(mutex, prio, m);
    forall n | n in mutex && n != m
      ensures Respected(mutex'[n], prio') <==> (mutex[n].owner == t
                                                ==> Covers(mutex[m].original, mutex[n].waiters, prio))
    {
      assert Respected(mutex[n], prio);
    }
    assert AllRespected(mutex', prio') <==>
             Respected(mutex'[m], prio') && forall n | n in mutex && n != m :: Respected(mutex'[n], prio');
  }

  /** The mutex that is handed on. */
  lemma HandedExact(mutex: map<MutexId, Mutex>, prio: map<ThreadId, nat>, m: MutexId)
    requires AllSane(mutex, prio) && m in mutex && mutex[m].owner != NOBODY && mutex[m].owner in prio
    requires mutex[m].waiters != [] ==> mutex[m].waiters[0] in Restored(prio, mutex[m])
    ensures var k, prio' := mutex[m], Restored(prio, mutex[m]);
            Respected(Passed(k, prio'), prio') <==>
              (k.waiters != [] ==> k.waiters[0] in prio && Covers(prio[k.waiters[0]], k.waiters, prio))
  {
    var k, prio' := mutex[m], Restored(prio, mutex[m]);
    assert Sane(k, prio);
    if k.waiters != [] {
      HeadRemoved(k.waiters);
      assert k.waiters[0] in k.waiters;
      forall w | w in k.waiters ensures w in prio && prio'[w] == prio[w] {
        var i :| 0 <= i < |k.waiters| && k.waiters[i] == w;
      }
    }
  }

  /** In a list sorted by urgency, the first waiter covers the others. */
  lemma SortedCovers(list: seq<ThreadId>, prio: map<ThreadId, nat>)
    requires Sorted(list, prio) && list != []
    ensures Covers(prio[list[0]], list, prio)
  {
    forall w | w in list ensures w in prio && prio[list[0]] <= prio[w] {
      var i :| 0 <= i < |list| && list[i] == w;
      assert i > 0 ==> prio[list[0]] <= prio[list[i]];
    }
  }

  /** The mutexes but for one, whose owner stays and whose waiters are among the old ones. */
  lemma FewerRespected(mutex: map<MutexId, Mutex>, prio: map<ThreadId, nat>, m: MutexId, k: Mutex)
    requires AllRespected(mutex, prio) && m in mutex && k.owner == mutex[m].owner
             && forall x | x in k.waiters :: x in mutex[m].waiters
    ensures AllRespected(mutex[m := k], prio)
  {
    assert Respected(mutex[m], prio);
  }

  // ---------------------------------------------------------------- own priorities

  /**
   Threads that own nothing run at their own priority, and the mutex that a thread has
   owned longest has its own priority saved.
   */
  ghost predicate Anchored(mutex: map<MutexId, Mutex>, prio: map<ThreadId, nat>, stack: map<ThreadId, seq<MutexId>>,
                           base: map<ThreadId, nat>) {
    && (forall t :: t in prio <==> t in base)
    && (forall t {:trigger stack[t]} | t in stack :: AnchorOk(mutex, prio, stack[t], base, t))
  }

  ghost predicate AnchorOk(mutex: map<MutexId, Mutex>, prio: map<ThreadId, nat>, s: seq<MutexId>,
                           base: map<ThreadId, nat>, t: ThreadId) {
    && t in prio && t in base
    && if s == [] then prio[t] == base[t] else s[0] in mutex && mutex[s[0]].original == base[t]
  }

  /** It is the invariant behind `Unboosted`. */
  lemma AnchoredUnboosted(mutex: map<MutexId, Mutex>, prio: map<ThreadId, nat>, stack: map<ThreadId, seq<MutexId>>,
                          base: map<ThreadId, nat>)
    requires Stacked(mutex, prio, stack) && Anchored(mutex, prio, stack, base)
    ensures Unboosted(mutex, prio, base)
  {
    forall t | t in prio && !Owns(mutex, t) ensures prio[t] == base[t] {
      assert AnchorOk(mutex, prio, stack[t], base, t);
      OwnsTop(mutex, prio, stack, t);
    }
  }

  lemma OwnsTop(mutex: map<MutexId, Mutex>, prio: map<ThreadId, nat>, stack: map<ThreadId, seq<MutexId>>, t: ThreadId)
    requires Stacked(mutex, prio, stack) && t in stack
    ensures stack[t] != [] ==> Owns(mutex, t)
  {
    if stack[t] != [] {
      var m := stack[t][0];
      assert m in stack[t];
      assert mutex[m].owner == t;
    }
  }

  /**
   The final release of `m` by `t` is anchored unless `m` is the one owned longest and
   another remains, taken when `t` did not run at its own priority.
   */
  ghost predicate ReleaseAnchored(mutex: map<MutexId, Mutex>, stack: map<ThreadId, seq<MutexId>>,
                                  base: map<ThreadId, nat>,
                                  t: ThreadId, m: MutexId)
    requires t in stack && t in base
  {
    |stack[t]| > 1 && stack[t][0] == m ==> stack[t][1] in mutex && mutex[stack[t][1]].original == base[t]
  }

  /** Taking a free mutex keeps threads anchored. */
  lemma AcquireAnchors(mutex: map<MutexId, Mutex>, prio: map<ThreadId, nat>, stack: map<ThreadId, seq<MutexId>>,
                       base: map<ThreadId, nat>,
                       m: MutexId, t: ThreadId)
    requires NOBODY !in prio && Stacked(mutex, prio, stack) && Anchored(mutex, prio, stack, base)
    requires m in mutex && mutex[m].owner == NOBODY && t in prio
    ensures Anchored(mutex[m := Mutex(0, t, prio[t], 1, mutex[m].waiters, false)], prio, Restacked(stack, NOBODY, t, m),
                     base)
  {
    var mutex', stack' := mutex[m := Mutex(0, t, prio[t], 1, mutex[m].waiters, false)], Restacked(stack, NOBODY, t, m);
    forall x | x in stack' ensures AnchorOk(mutex', prio, stack'[x], base, x) {
      assert AnchorOk(mutex, prio, stack[x], base, x);
      NotFirst(mutex, prio, stack, m, x);
    }
  }

  lemma NotFirst(mutex: map<MutexId, Mutex>, prio: map<ThreadId, nat>, stack: map<ThreadId, seq<MutexId>>, m: MutexId,
                 x: ThreadId)
    requires Stacked(mutex, prio, stack) && x in stack && m in mutex && mutex[m].owner != x
    ensures stack[x] != [] ==> stack[x][0] != m
  {
    if stack[x] != [] {
      assert stack[x][0] in stack[x];
    }
  }

  /** Waiting for a mutex makes its owner more urgent, but owners are anchored by what is saved. */
  lemma WaitAnchors(mutex: map<MutexId, Mutex>, prio: map<ThreadId, nat>, stack: map<ThreadId, seq<MutexId>>,
                    base: map<ThreadId, nat>,
                    m: MutexId, t: ThreadId, list: seq<ThreadId>)
    requires Stacked(mutex, prio, stack) && Anchored(mutex, prio, stack, base)
    requires m in mutex && mutex[m].owner in prio && t in prio
    ensures Anchored(mutex[m := mutex[m].(waiters := list)], Boosted(prio, mutex[m].owner, t), stack, base)
  {
    var o, mutex', prio' := mutex[m].owner, mutex[m := mutex[m].(waiters := list)], Boosted(prio, mutex[m].owner, t);
    assert m in stack[o];
    forall x | x in stack ensures AnchorOk(mutex', prio', stack[x], base, x) {
      assert AnchorOk(mutex, prio, stack[x], base, x);
    }
  }

  /** A mutex changes owner, holds or waiters, but no saved priority changes. */
  lemma SameAnchors(mutex: map<MutexId, Mutex>, prio: map<ThreadId, nat>, stack: map<ThreadId, seq<MutexId>>,
                    base: map<ThreadId, nat>,
                    m: MutexId, k: Mutex)
    requires Anchored(mutex, prio, stack, base) && m in mutex && k.original == mutex[m].original
    ensures Anchored(mutex[m := k], prio, stack, base)
  {
    forall x | x in stack ensures AnchorOk(mutex[m := k], prio, stack[x], base, x) {
      assert AnchorOk(mutex, prio, stack[x], base, x);
    }
  }

  /** The final release keeps threads anchored if and only if it is anchored itself. */
  lemma ReleaseAnchorsExact(mutex: map<MutexId, Mutex>, prio: map<ThreadId, nat>, stack: map<ThreadId, seq<MutexId>>,
                            base: map<ThreadId, nat>, m: MutexId)
    requires AllSane(mutex, prio) && Stacked(mutex, prio, stack) && Anchored(mutex, prio, stack, base)
    requires m in mutex && mutex[m].owner != NOBODY && mutex[m].owner in prio
    requires mutex[m].waiters != [] ==> mutex[m].waiters[0] in Restored(prio, mutex[m])
    ensures var t, prio' := mutex[m].owner, Restored(prio, mutex[m]);
            var k' := Passed(mutex[m], prio');
            && t in stack && t in base
            && (Anchored(mutex[m := k'], prio', Restacked(stack, t, k'.owner, m), base)
                <==> ReleaseAnchored(mutex, stack, base, t, m))
  {
    hide AllSane;
    var t, prio' := mutex[m].owner, Restored(prio, mutex[m]);
    var k' := Passed(mutex[m], prio');
    var mutex', stack' := mutex[m := k'], Restacked(stack, t, k'.owner, m);
    SaneHere(mutex, prio, m);
    PassOwner(mutex, prio, m);
    assert m in stack[t];
    UnstackedMembers(stack[t], m);
    assert k'.owner != t && k'.original == if k'.owner == NOBODY then NO_PRIORITY else prio[k'.owner];
    forall x | x in stack && x != t ensures AnchorOk(mutex', prio', stack'[x], base, x) {
      assert AnchorOk(mutex, prio, stack[x], base, x);
      NotFirst(mutex, prio, stack, m, x);
    }
    assert AnchorOk(mutex, prio, stack[t], base, t);
    OwnAnchor(mutex, mutex', prio, prio', stack, base, m, t);
    assert stack'[t] == Unstacked(stack[t], m);
  }

  /** The releasing thread. */
  lemma OwnAnchor(mutex: map<MutexId, Mutex>, mutex': map<MutexId, Mutex>, prio: map<ThreadId, nat>,
                  prio': map<ThreadId, nat>,
                  stack: map<ThreadId, seq<MutexId>>, base: map<ThreadId, nat>, m: MutexId, t: ThreadId)
    requires Stacked(mutex, prio, stack) && t in stack && m in mutex && m in stack[t]
             && AnchorOk(mutex, prio, stack[t], base, t)
    requires m in mutex' && mutex' == mutex[m := mutex'[m]] && t in prio' && prio'[t] == mutex[m].original
    ensures AnchorOk(mutex', prio', Unstacked(stack[t], m), base, t) <==> ReleaseAnchored(mutex, stack, base, t, m)
  {
    var s := stack[t];
    assert NoRepeats(s);
    UnstackedMembers(s, m);
    if s[0] == m {
      if |s| > 1 {
        assert s[1] in s && s[1] != m;
      }
    } else {
      assert s[0] in s;
    }
  }

  /** A mutex released last of those its thread took last, or alone, is anchored. */
  lemma ReverseOrderAnchored(mutex: map<MutexId, Mutex>, prio: map<ThreadId, nat>, stack: map<ThreadId, seq<MutexId>>,
                             base: map<ThreadId, nat>, t: ThreadId, m: MutexId)
    requires Stacked(mutex, prio, stack) && t in stack && t in base && stack[t] != [] && stack[t][|stack[t]| - 1] == m
    ensures ReleaseAnchored(mutex, stack, base, t, m)
  {
    assert NoRepeats(stack[t]);
  }

  /**
   In any state: a thread that releases the only mutex it owns ends at its own priority
   if and only if that is the priority saved with this mutex.
   */
  lemma LastReleaseExact(mutex: map<MutexId, Mutex>, prio: map<ThreadId, nat>, base: map<ThreadId, nat>, m: MutexId)
    requires AllSane(mutex, prio) && m in mutex && mutex[m].owner in prio && mutex[m].owner in base
    requires mutex[m].waiters != [] ==> mutex[m].waiters[0] in Restored(prio, mutex[m])
    requires forall n | n in mutex && n != m :: mutex[n].owner != mutex[m].owner
    ensures var t, prio' := mutex[m].owner, Restored(prio, mutex[m]);
            !Owns(mutex[m := Passed(mutex[m], prio')], t)
            && (prio'[t] == base[t] <==> mutex[m].original == base[t])
  {
    SaneHere(mutex, prio, m);
    PassOwner(mutex, prio, m);
  }
}
