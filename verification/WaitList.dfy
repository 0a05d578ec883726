/** The lists of suspended threads of ipc.c. */
module WaitList {
  import opened Sequences
  import opened Machine

  type ThreadId = int

  datatype Discipline = Fifo | Prio

  /** No thread waits behind a less urgent one; a smaller number is more urgent. */
  ghost predicate Sorted(s: seq<ThreadId>, prio: map<ThreadId, nat>) {
    && (forall i | 0 <= i < |s| :: s[i] in prio)
    && (forall i, j | 0 <= i < j < |s| :: prio[s[i]] <= prio[s[j]])
  }

  /** `after` is `before` with `t` inserted at `i`. */
  ghost predicate Inserted(before: seq<ThreadId>, after: seq<ThreadId>, t: ThreadId, i: nat) {
    i <= |before| && after == before[..i] + [t] + before[i..]
  }

  /** `t` comes behind every waiter it does not precede by priority: last of its equals. */
  ghost predicate LastOfEquals(before: seq<ThreadId>, prio: map<ThreadId, nat>, t: ThreadId, i: nat) {
    && t in prio && i <= |before|
    && (forall j | 0 <= j < i :: before[j] in prio && prio[before[j]] <= prio[t])
    && (i < |before| ==> before[i] in prio && prio[t] < prio[before[i]])
  }

  /** `t` joined the list as its discipline says: last, or last of its equals in urgency. */
  ghost predicate Queued(before: seq<ThreadId>, after: seq<ThreadId>, t: ThreadId, flag: Discipline,
                         prio: map<ThreadId, nat>) {
    exists i: nat :: Inserted(before, after, t, i) && (flag.Fifo? ==> i == |before|)
        && (flag.Prio? ==> LastOfEquals(before, prio, t, i))
  }

  /** _ipc_list_suspend, as far as the list goes. */
  method Suspend(list: seq<ThreadId>, t: ThreadId, flag: Discipline, prio: map<ThreadId, nat>)
      returns (list': seq<ThreadId>, i: nat)
    requires t in prio && forall k | 0 <= k < |list| :: list[k] in prio
    ensures Inserted(list, list', t, i)
    ensures flag.Fifo? ==> i == |list|
    ensures flag.Prio? ==> LastOfEquals(list, prio, t, i)
    ensures Queued(list, list', t, flag, prio)
  {
    if flag.Fifo? {
      assert Inserted(list, list + [t], t, |list|);
      return list + [t], |list|;
    }
    i := 0;
    while i < |list|
      invariant i <= |list| && forall j | 0 <= j < i :: prio[list[j]] <= prio[t]
    {
      if prio[t] < prio[list[i]] {
        break;
      }
      i := i + 1;
    }
    list' := list[..i] + [t] + list[i..];
    assert Inserted(list, list', t, i);
  }

  /** A list sorted by urgency stays sorted, so its head is a most urgent waiter, the longest waiting of its equals. */
  lemma SuspendKeepsSorted(list: seq<ThreadId>, list': seq<ThreadId>, prio: map<ThreadId, nat>, t: ThreadId, i: nat)
    requires Sorted(list, prio) && Inserted(list, list', t, i) && LastOfEquals(list, prio, t, i)
    ensures Sorted(list', prio)
  {
    forall j, k | 0 <= j < k < |list'| ensures prio[list'[j]] <= prio[list'[k]] {
      assert k > i && i < |list| ==> prio[list[i]] <= prio[list[k - 1]];
    }
  }

  /**
   Thread `t` is at `i` in the list, behind all that were there, in a list by urgency behind exactly those at least as
   urgent; the others keep their order.
   */
  ghost predicate BehindAt(before: seq<ThreadId>, after: seq<ThreadId>, t: ThreadId, flag: Discipline,
                           prio: map<ThreadId, nat>, i: nat) {
    && i < |after| == |before| + 1 && after[i] == t
    && (forall j | 0 <= j < |before| :: after[if j < i then j else j + 1] == before[j])
    && (forall j | 0 <= j < |before| ::
          j < i <==> flag.Fifo? || (before[j] in prio && t in prio && prio[before[j]] <= prio[t]))
  }

  lemma QueuedBehind(before: seq<ThreadId>, after: seq<ThreadId>, t: ThreadId, flag: Discipline,
                     prio: map<ThreadId, nat>)
    requires Queued(before, after, t, flag, prio) && (flag.Prio? ==> Sorted(before, prio))
    ensures exists i: nat :: BehindAt(before, after, t, flag, prio, i)
  {
    var i: nat :| Inserted(before, after, t, i) && (flag.Fifo? ==> i == |before|)
                  && (flag.Prio? ==> LastOfEquals(before, prio, t, i));
    InsertedOrder(before, after, t, i);
    if flag.Prio? {
      UrgentAhead(before, prio, t, i);
    }
    hide Inserted, LastOfEquals, Sorted;
    assert BehindAt(before, after, t, flag, prio, i);
  }

  lemma InsertedOrder(before: seq<ThreadId>, after: seq<ThreadId>, t: ThreadId, i: nat)
    requires Inserted(before, after, t, i)
    ensures i < |after| == |before| + 1 && after[i] == t
    ensures forall j | 0 <= j < |before| :: after[if j < i then j else j + 1] == before[j]
  {
  }

  lemma UrgentAhead(list: seq<ThreadId>, prio: map<ThreadId, nat>, t: ThreadId, i: nat)
    requires Sorted(list, prio) && LastOfEquals(list, prio, t, i)
    ensures forall j | 0 <= j < |list| :: j < i <==> list[j] in prio && t in prio && prio[list[j]] <= prio[t]
  {
    forall j | i < j < |list| ensures prio[list[j]] > prio[t] {
      assert prio[list[i]] <= prio[list[j]];
    }
  }

  lemma InsertedMembers(before: seq<ThreadId>, after: seq<ThreadId>, t: ThreadId, i: nat)
    requires Inserted(before, after, t, i)
    ensures |after| == |before| + 1
    ensures forall x :: x in after <==> x in before || x == t
    ensures NoRepeats(before) && t !in before ==> NoRepeats(after)
  {
    assert after[i] == t;
    forall x | x in before ensures x in after {
      var j :| 0 <= j < |before| && before[j] == x;
      assert after[if j < i then j else j + 1] == x;
    }
    if NoRepeats(before) && t !in before {
      forall j, k | 0 <= j < k < |after| ensures after[j] != after[k] {
        assert j != i ==> after[j] == before[if j < i then j else j - 1];
        assert k != i ==> after[k] == before[if k < i then k else k - 1];
      }
    }
  }

  /** A thread leaves the list: resumed, or its timer fired. */
  method Remove(list: seq<ThreadId>, t: ThreadId) returns (list': seq<ThreadId>)
    requires NoRepeats(list) && t in list
    ensures NoRepeats(list') && |list'| == |list| - 1
    ensures forall x :: x in list' <==> x in list && x != t
    ensures Dropped(list, list', t)
  {
    var i: nat :| i < |list| && list[i] == t;
    list' := list[..i] + list[i + 1..];
    forall x ensures x in list' <==> x in list && x != t {
      if x in list && x != t {
        var j :| 0 <= j < |list| && list[j] == x;
        assert list'[if j < i then j else j - 1] == x;
      }
    }
  }

  lemma HeadRemoved(s: seq<ThreadId>)
    requires NoRepeats(s) && s != []
    ensures NoRepeats(s[1..]) && forall x :: x in s[1..] <==> x in s && x != s[0]
  {
    assert s == [s[0]] + s[1..];
  }

  /** Sets that agree except on `t`. */
  lemma SetSwap(a: set<ThreadId>, b: set<ThreadId>, t: ThreadId)
    requires forall x | x != t :: x in a <==> x in b
    ensures |b| == |a| + (if t in b then 1 else 0) - (if t in a then 1 else 0)
  {
    forall x ensures x in a - {t} <==> x in b - {t} {
      assert x != t ==> (x in a <==> x in b);
    }
    assert a - {t} == b - {t};
    assert t in a ==> a == (a - {t}) + {t};
    assert t in b ==> b == (b - {t}) + {t};
    assert t !in a ==> a - {t} == a;
    assert t !in b ==> b - {t} == b;
  }

  /** The time left after `elapsed` ticks of waiting; a negative time is for ever. */
  function Left(timeout: int, elapsed: nat): (r: int)
    ensures 0 <= elapsed <= timeout ==> r + elapsed == timeout
    ensures 0 <= timeout <= elapsed ==> r == 0
    ensures timeout < 0 ==> r == timeout
  {
    if timeout > 0 then Max(timeout - elapsed, 0) else timeout
  }
}
