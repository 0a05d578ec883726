/** Whole runs of mutexes: any number of threads and mutexes, owned in any nesting. */
module MutexRuns {
  import opened Sequences
  import opened Machine
  import opened WaitList
  import opened Traces
  import opened Mutexes
  import opened Inheritance

  datatype Step =
    | Takes(t: ThreadId, m: MutexId, time: int)
    | Releases(t: ThreadId, m: MutexId)
    | Expires(t: ThreadId, m: MutexId)

  /** What a step answered; a step that its thread cannot make is skipped. */
  datatype Reply = Skipped | Expired | Answer(r: Outcome)

  datatype View = View(mutex: map<MutexId, Mutex>, prio: map<ThreadId, nat>, stack: map<ThreadId, seq<MutexId>>)

  type Record = Entry<View, Step, Reply>

  ghost function Seen(k: Kernel): View
    reads k
  {
    View(k.mutex, k.prio, k.stack)
  }

  /** A thread that waits makes no calls. */
  predicate Enabled(step: Step, mutex: map<MutexId, Mutex>, prio: map<ThreadId, nat>) {
    && step.m in mutex
    && if step.Expires? then step.t in mutex[step.m].waiters else step.t in prio && !Waits(mutex, step.t)
  }

  ghost predicate Sound(v: View) {
    AllSane(v.mutex, v.prio) && Stacked(v.mutex, v.prio, v.stack)
  }

  /** A take that has to wait, and a release that gives the mutex away. */
  predicate HasToWait(step: Step, mutex: map<MutexId, Mutex>) {
    step.Takes? && step.m in mutex && mutex[step.m].owner != step.t && mutex[step.m].value != 1 && step.time != 0
  }

  predicate GivesAway(step: Step, mutex: map<MutexId, Mutex>) {
    step.Releases? && step.m in mutex && mutex[step.m].owner == step.t && mutex[step.m].hold <= 1
  }

  predicate Acquires(step: Step, mutex: map<MutexId, Mutex>) {
    step.Takes? && step.m in mutex && mutex[step.m].owner != step.t && mutex[step.m].value == 1
  }

  /** What each step does and answers. */
  ghost predicate Happened(e: Record) {
    var v, v', t, m := e.before, e.after, e.event.t, e.event.m;
    if !Enabled(e.event, v.mutex, v.prio) then v' == v && e.result.Skipped?
    else
      var k := v.mutex[m];
      if e.event.Expires? then
        && e.result.Expired? && m in v'.mutex && Dropped(k.waiters, v'.mutex[m].waiters, t)
        && v' == v.(mutex := v.mutex[m := k.(waiters := v'.mutex[m].waiters, gaveUp := true)])
      else if Acquires(e.event, v.mutex) then
        && e.result == Answer(Ok) && k.owner == NOBODY
        && v' == View(v.mutex[m := Mutex(0, t, v.prio[t], 1, k.waiters, false)], v.prio,
                      Restacked(v.stack, NOBODY, t, m))
      else if HasToWait(e.event, v.mutex) then
        && e.result == Answer(Pending) && k.owner in v.prio && m in v'.mutex
        && v' == v.(mutex := v.mutex[m := k.(waiters := v'.mutex[m].waiters)], prio := Boosted(v.prio, k.owner, t))
        && Queued(k.waiters, v'.mutex[m].waiters, t, Prio, v'.prio)
      else if GivesAway(e.event, v.mutex) then
        && e.result == Answer(Ok) && v'.prio == Restored(v.prio, k) && (k.waiters != [] ==> k.waiters[0] in v'.prio)
        && v'.mutex == v.mutex[m := Passed(k, v'.prio)]
        && v'.stack == Restacked(v.stack, t, Passed(k, v'.prio).owner, m)
      else if e.event.Takes? && k.owner != t then
        e.result == Answer(TimedOut) && v' == v
      else if e.event.Takes? then
        if k.hold < HOLD_MAX then e.result == Answer(Ok) && v' == v.(mutex := v.mutex[m := k.(hold := k.hold + 1)])
        else e.result == Answer(Full) && v' == v
      else if k.owner != t then
        e.result == Answer(Failed) && v' == v
      else
        e.result == Answer(Ok) && v' == v.(mutex := v.mutex[m := k.(hold := k.hold - 1)])
  }

  /** The record of a run. */
  ghost predicate History(trace: seq<Record>, first: View, last: View) {
    && Joined(trace, first, last)
    && forall i | 0 <= i < |trace| :: Happened(trace[i]) && Sound(trace[i].before) && Sound(trace[i].after)
  }

  /** One step, if its thread can make it. */
  method Take(k: Kernel, step: Step) returns (reply: Reply)
    requires k.Valid()
    modifies k`mutex, k`prio, k`stack
    ensures k.Valid() && Happened(Entry(old(Seen(k)), step, reply, Seen(k)))
  {
    hide AllSane, Stacked, Disciplined, Restacked, Queued, Dropped, Boosted, Restored, Passed, Waits;
    if !Enabled(step, k.mutex, k.prio) {
      return Skipped;
    }
    SaneHere(k.mutex, k.prio, step.m);
    match step {
      case Takes(t, m, time) =>
        var r := k.Take(t, m, time);
        reply := Answer(r);
      case Releases(t, m) =>
        var r := k.Release(t, m);
        reply := Answer(r);
      case Expires(t, m) =>
        k.Expire(t, m);
        reply := Expired;
    }
  }

  /** Any interleaving of any calls: what each step answered, and the record of what it did. */
  method Run(k: Kernel, steps: seq<Step>) returns (replies: seq<Reply>, ghost trace: seq<Record>)
    requires k.Valid()
    modifies k`mutex, k`prio, k`stack
    ensures k.Valid()
    ensures Recorded(trace, steps, replies) && History(trace, old(Seen(k)), Seen(k))
  {
    hide AllSane, Stacked, Happened, Joined;
    replies, trace := [], [];
    JoinedEmpty<View, Step, Reply>(Seen(k));
    for i := 0 to |steps|
      invariant k.Valid()
      invariant Recorded(trace, steps[..i], replies) && History(trace, old(Seen(k)), Seen(k))
    {
      ghost var before := Seen(k);
      var reply := Take(k, steps[i]);
      ghost var e := Entry(before, steps[i], reply, Seen(k));
      JoinedNext(trace, old(Seen(k)), e);
      replies, trace := replies + [reply], trace + [e];
    }
    assert steps[..|steps|] == steps;
  }

  // ---------------------------------------------------------------- owners as urgent as their waiters

  /** The step cannot make an owner less urgent than a waiter; this can be told before it is made. */
  ghost predicate Safe(step: Step, v: View) {
    Enabled(step, v.mutex, v.prio) ==>
      && (HasToWait(step, v.mutex) && v.mutex[step.m].owner in v.prio ==> WaitSafe(v.mutex, v.prio, step.t, step.m))
      && (GivesAway(step, v.mutex) ==> ReleaseSafe(v.mutex, v.prio, step.t, step.m))
  }

  lemma SafeStep(e: Record)
    requires Happened(e) && Sound(e.before) && AllRespected(e.before.mutex, e.before.prio)
    ensures AllRespected(e.after.mutex, e.after.prio) <==> Safe(e.event, e.before)
  {
    hide AllSane, Stacked, AllRespected, WaitSafe, ReleaseSafe, Restacked, Boosted, Restored, Passed, Sane, Queued,
        Dropped;
    if Enabled(e.event, e.before.mutex, e.before.prio) {
      var v, m, t := e.before, e.event.m, e.event.t;
      var k := v.mutex[m];
      SaneHere(v.mutex, v.prio, m);
      SaneOwner(k, v.prio);
      if HasToWait(e.event, v.mutex) {
        QueuedMembers(k.waiters, e.after.mutex[m].waiters, t, e.after.prio);
        WaitExact(v.mutex, v.prio, m, t, e.after.mutex[m].waiters);
      } else if GivesAway(e.event, v.mutex) {
        ReleaseExact(v.mutex, v.prio, m);
      } else if Acquires(e.event, v.mutex) {
        AcquireRespects(v.mutex, v.prio, m, t);
      } else if e.event.Expires? {
        DroppedMembers(k.waiters, e.after.mutex[m].waiters, t);
        FewerRespected(v.mutex, v.prio, m, e.after.mutex[m]);
      } else if e.after != v {
        FewerRespected(v.mutex, v.prio, m, e.after.mutex[m]);
      }
    }
  }

  lemma SaneOwner(k: Mutex, prio: map<ThreadId, nat>)
    requires Sane(k, prio)
    ensures k.value != 1 ==> k.owner != NOBODY && k.owner in prio && k.hold > 0
    ensures k.value == 1 ==> k.owner == NOBODY && k.waiters == [] && k.hold == 0
  {
  }

  lemma QueuedMembers(before: seq<ThreadId>, after: seq<ThreadId>, t: ThreadId, prio: map<ThreadId, nat>)
    requires Queued(before, after, t, Prio, prio)
    ensures forall x :: x in after <==> x in before || x == t
  {
    var i: nat :| Inserted(before, after, t, i) && LastOfEquals(before, prio, t, i);
    InsertedMembers(before, after, t, i);
  }

  lemma DroppedMembers(before: seq<ThreadId>, after: seq<ThreadId>, t: ThreadId)
    requires Dropped(before, after, t)
    ensures forall x | x in after :: x in before
  {
  }

  lemma AcquireRespects(mutex: map<MutexId, Mutex>, prio: map<ThreadId, nat>, m: MutexId, t: ThreadId)
    requires AllRespected(mutex, prio) && m in mutex && mutex[m].waiters == [] && t in prio
    ensures AllRespected(mutex[m := Mutex(0, t, prio[t], 1, mutex[m].waiters, false)], prio)
  {
  }

  /** Over a run, owners are as urgent as their waiters throughout if and only if every step is safe. */
  lemma SafeRun(trace: seq<Record>, first: View, last: View)
    requires History(trace, first, last) && AllRespected(first.mutex, first.prio)
    ensures (forall i | 0 <= i < |trace| :: AllRespected(trace[i].after.mutex, trace[i].after.prio))
            <==> (forall i | 0 <= i < |trace| :: Safe(trace[i].event, trace[i].before))
  {
    hide AllRespected, Safe, Happened, Sound;
    if forall i | 0 <= i < |trace| :: Safe(trace[i].event, trace[i].before) {
      forall i | 0 <= i < |trace| ensures AllRespected(trace[i].after.mutex, trace[i].after.prio) {
        SafeUpTo(trace, first, last, i);
      }
    } else if forall i | 0 <= i < |trace| :: AllRespected(trace[i].after.mutex, trace[i].after.prio) {
      forall i | 0 <= i < |trace| ensures Safe(trace[i].event, trace[i].before) {
        assert i > 0 ==> trace[i - 1].after == trace[i].before;
        SafeStep(trace[i]);
      }
    }
  }

  lemma {:induction false} SafeUpTo(trace: seq<Record>, first: View, last: View, i: nat)
    requires History(trace, first, last) && AllRespected(first.mutex, first.prio) && i < |trace|
    requires forall j | 0 <= j <= i :: Safe(trace[j].event, trace[j].before)
    ensures AllRespected(trace[i].after.mutex, trace[i].after.prio)
  {
    hide AllRespected, Safe, Happened, Sound;
    if i > 0 {
      SafeUpTo(trace, first, last, i - 1);
      assert trace[i - 1].after == trace[i].before;
    }
    SafeStep(trace[i]);
  }

  // ---------------------------------------------------------------- own priorities

  /** The step leaves no thread with an inherited priority that it does not give back; this can be told before. */
  ghost predicate Anchors(step: Step, v: View, base: map<ThreadId, nat>) {
    Enabled(step, v.mutex, v.prio) && GivesAway(step, v.mutex) && step.t in v.stack && step.t in base ==>
      ReleaseAnchored(v.mutex, v.stack, base, step.t, step.m)
  }

  lemma AnchorStep(e: Record, base: map<ThreadId, nat>)
    requires Happened(e) && Sound(e.before) && Anchored(e.before.mutex, e.before.prio, e.before.stack, base)
    ensures Anchored(e.after.mutex, e.after.prio, e.after.stack, base) <==> Anchors(e.event, e.before, base)
  {
    hide AllSane, Stacked, Anchored, ReleaseAnchored, Restacked, Boosted, Restored, Passed, Sane, Queued, Dropped,
        Waits;
    if Enabled(e.event, e.before.mutex, e.before.prio) {
      var v, m, t := e.before, e.event.m, e.event.t;
      var k := v.mutex[m];
      SaneHere(v.mutex, v.prio, m);
      SaneOwner(k, v.prio);
      if HasToWait(e.event, v.mutex) {
        WaitAnchors(v.mutex, v.prio, v.stack, base, m, t, e.after.mutex[m].waiters);
      } else if GivesAway(e.event, v.mutex) {
        ReleaseAnchorsExact(v.mutex, v.prio, v.stack, base, m);
      } else if Acquires(e.event, v.mutex) {
        AcquireAnchors(v.mutex, v.prio, v.stack, base, m, t);
      } else if e.after != v {
        SameAnchors(v.mutex, v.prio, v.stack, base, m, e.after.mutex[m]);
      }
    }
  }

  /** Over a run, threads stay anchored throughout if and only if every final release is. */
  lemma AnchoredRun(trace: seq<Record>, first: View, last: View, base: map<ThreadId, nat>)
    requires History(trace, first, last) && Anchored(first.mutex, first.prio, first.stack, base)
    ensures (forall i | 0 <= i < |trace| :: Anchored(trace[i].after.mutex, trace[i].after.prio, trace[i].after.stack,
                                                     base))
            <==> (forall i | 0 <= i < |trace| :: Anchors(trace[i].event, trace[i].before, base))
  {
    hide Anchored, Anchors, Happened, Sound;
    if forall i | 0 <= i < |trace| :: Anchors(trace[i].event, trace[i].before, base) {
      forall i | 0 <= i < |trace| ensures Anchored(trace[i].after.mutex, trace[i].after.prio, trace[i].after.stack,
                                                   base) {
        AnchoredUpTo(trace, first, last, base, i);
      }
    } else if forall i | 0 <= i < |trace| :: Anchored(trace[i].after.mutex, trace[i].after.prio, trace[i].after.stack,
                                                      base) {
      forall i | 0 <= i < |trace| ensures Anchors(trace[i].event, trace[i].before, base) {
        assert i > 0 ==> trace[i - 1].after == trace[i].before;
        AnchorStep(trace[i], base);
      }
    }
  }

  lemma {:induction false} AnchoredUpTo(trace: seq<Record>, first: View, last: View, base: map<ThreadId, nat>, i: nat)
    requires History(trace, first, last) && Anchored(first.mutex, first.prio, first.stack, base) && i < |trace|
    requires forall j | 0 <= j <= i :: Anchors(trace[j].event, trace[j].before, base)
    ensures Anchored(trace[i].after.mutex, trace[i].after.prio, trace[i].after.stack, base)
  {
    hide Anchored, Anchors, Happened, Sound;
    if i > 0 {
      AnchoredUpTo(trace, first, last, base, i - 1);
      assert trace[i - 1].after == trace[i].before;
    }
    AnchorStep(trace[i], base);
  }

  /** A thread gives away the mutex that became its own last. */
  ghost predicate InReverse(e: Record) {
    var t := e.event.t;
    GivesAway(e.event, e.before.mutex) && t in e.before.stack && e.before.stack[t] != [] ==>
      e.before.stack[t][|e.before.stack[t]| - 1] == e.event.m
  }

  /**
   If threads release their mutexes in the reverse order of taking, however many they
   own and whatever they inherit, then at every moment of a run each thread that owns
   nothing runs at its own priority.
   */
  lemma ReverseOrderRestores(trace: seq<Record>, first: View, last: View, base: map<ThreadId, nat>)
    requires History(trace, first, last) && Anchored(first.mutex, first.prio, first.stack, base)
    requires forall i | 0 <= i < |trace| :: InReverse(trace[i])
    ensures forall i | 0 <= i < |trace| :: Unboosted(trace[i].after.mutex, trace[i].after.prio, base)
  {
    hide Anchored, Happened, Sound, Unboosted, Anchors;
    forall i | 0 <= i < |trace| ensures Anchors(trace[i].event, trace[i].before, base) {
      ReverseStep(trace[i], base);
    }
    AnchoredRun(trace, first, last, base);
    forall i | 0 <= i < |trace| ensures Unboosted(trace[i].after.mutex, trace[i].after.prio, base) {
      SoundAnchored(trace[i].after, base);
    }
  }

  lemma ReverseStep(e: Record, base: map<ThreadId, nat>)
    requires Sound(e.before) && InReverse(e)
    ensures Anchors(e.event, e.before, base)
  {
    hide AllSane, ReleaseAnchored;
    var v, t, m := e.before, e.event.t, e.event.m;
    if Enabled(e.event, v.mutex, v.prio) && GivesAway(e.event, v.mutex) && t in v.stack && t in base {
      assert m in v.stack[t];
      ReverseOrderAnchored(v.mutex, v.prio, v.stack, base, t, m);
    }
  }

  lemma SoundAnchored(v: View, base: map<ThreadId, nat>)
    requires Sound(v) && Anchored(v.mutex, v.prio, v.stack, base)
    ensures Unboosted(v.mutex, v.prio, base)
  {
    hide AllSane, Stacked, Anchored, Unboosted;
    AnchoredUnboosted(v.mutex, v.prio, v.stack, base);
  }

  /** A kernel starts anchored, with all owners as urgent as their waiters. */
  lemma StartsKept(v: View, base: map<ThreadId, nat>)
    requires v.prio == base && v.stack == (map t | t in base :: [])
    requires forall m | m in v.mutex :: v.mutex[m].owner == NOBODY
    ensures AllRespected(v.mutex, v.prio) && Anchored(v.mutex, v.prio, v.stack, base)
  {
  }

  // ---------------------------------------------------------------- what can go wrong

  lemma QueuedAlone(after: seq<ThreadId>, t: ThreadId, prio: map<ThreadId, nat>)
    requires Queued([], after, t, Prio, prio)
    ensures after == [t]
  {
  }

  /** Two mutexes, with whoever owns and waits for each. */
  function Two(a: Mutex, b: Mutex): (mutex: map<MutexId, Mutex>)
    ensures a.waiters == [] && b.waiters == [] ==> forall t :: !Waits(mutex, t)
  {
    map[0 := a, 1 := b]
  }

  const Free: Mutex := Mutex(1, NOBODY, NO_PRIORITY, 0, [], false)

  function Owned(t: ThreadId, original: nat, waiters: seq<ThreadId>): Mutex {
    Mutex(0, t, original, 1, waiters, false)
  }

  /** Thread `a` takes mutex 0, then thread `b` takes mutex 1. */
  method Owners(prio: map<ThreadId, nat>, a: ThreadId, b: ThreadId) returns (k: Kernel)
    requires NOBODY !in prio && a in prio && b in prio
    ensures fresh(k) && k.Valid() && k.prio == prio && k.mutex == Two(Owned(a, prio[a], []), Owned(b, prio[b], []))
  {
    hide Stacked, Disciplined, AllSane, Restacked, Queued;
    k := new Kernel(prio, {0, 1});
    assert k.mutex == Two(Free, Free);
    var r := k.Take(a, 0, -1);
    assert k.mutex == Two(Owned(a, prio[a], []), Free);
    r := k.Take(b, 1, -1);
  }

  /**
   A release that is not safe: a thread that owns two mutexes can run less urgently than a thread
   that waits for it.
   */
  method NestingInverts() returns (k: Kernel)
    ensures 0 in k.mutex && k.mutex[0].owner == 1 && k.mutex[0].waiters == [2]
    ensures 1 in k.prio && 2 in k.prio && k.prio[1] > k.prio[2]
  {
    hide Stacked, Disciplined, AllSane, Restacked, Queued;
    k := Owners(map[1 := 10, 2 := 5], 1, 1);
    var r := k.Take(2, 0, -1);      // thread 1 inherits priority 5
    QueuedAlone(k.mutex[0].waiters, 2, k.prio);
    assert k.mutex == Two(Owned(1, 10, [2]), Owned(1, 10, [])) && k.prio == map[1 := 5, 2 := 5];
    r := k.Release(1, 1);           // and loses it here
  }

  /** A wait that is not safe: what an owner inherits while it waits itself is not passed on. */
  method WaitingInverts() returns (k: Kernel)
    ensures 0 in k.mutex && k.mutex[0].owner == 1 && k.mutex[0].waiters == [2]
    ensures 1 in k.prio && 2 in k.prio && k.prio[1] > k.prio[2]
  {
    hide Stacked, Disciplined, AllSane, Restacked, Queued;
    k := Owners(map[1 := 10, 2 := 8, 3 := 2], 1, 2);
    var r := k.Take(2, 0, -1);      // thread 1 inherits priority 8
    QueuedAlone(k.mutex[0].waiters, 2, k.prio);
    assert k.mutex == Two(Owned(1, 10, [2]), Owned(2, 8, [])) && k.prio == map[1 := 8, 2 := 8, 3 := 2];
    r := k.Take(3, 1, -1);          // thread 2 inherits priority 2, thread 1 does not
  }

  lemma HandOver()
    ensures Passed(Owned(1, 10, [2]), map[1 := 10, 2 := 5]) == Owned(2, 5, [])
  {
    assert [2][1..] == [];
  }

  /** Thread 1 owns mutex 0 and inherits priority 5 from thread 2. */
  method Inherit() returns (k: Kernel)
    ensures fresh(k) && k.Valid() && k.mutex == Two(Owned(1, 10, [2]), Free) && k.prio == map[1 := 5, 2 := 5]
    ensures k.base == map[1 := 10, 2 := 5]
  {
    hide Stacked, Disciplined, AllSane, Restacked, Queued;
    k := new Kernel(map[1 := 10, 2 := 5], {0, 1});
    assert k.mutex == Two(Free, Free);
    var r := k.Take(1, 0, -1);
    assert k.mutex == Two(Owned(1, 10, []), Free);
    r := k.Take(2, 0, -1);
    QueuedAlone(k.mutex[0].waiters, 2, k.prio);
    assert k.mutex == Two(Owned(1, 10, [2]), Free);
  }

  /** A release that is not anchored: a thread can keep a priority it inherited after it has released everything. */
  method NestingSticks() returns (k: Kernel)
    ensures 1 in k.prio && 1 in k.base && k.prio[1] < k.base[1] && !Owns(k.mutex, 1)
  {
    hide Stacked, Disciplined, AllSane, Restacked, Queued, Passed;
    k := Inherit();
    var r := k.Take(1, 1, -1);      // the inherited priority is saved as its own
    assert k.mutex == Two(Owned(1, 10, [2]), Owned(1, 5, []));
    r := k.Release(1, 0);
    assert k.prio == map[1 := 10, 2 := 5];
    HandOver();
    assert k.mutex == Two(Owned(2, 5, []), Owned(1, 5, []));
    GiveBack(k);
  }

  /** Thread 1 gives mutex 1 back, with the priority saved for it. */
  method GiveBack(k: Kernel)
    requires k.Valid() && k.mutex == Two(Owned(2, 5, []), Owned(1, 5, [])) && k.prio == map[1 := 10, 2 := 5]
    modifies k`mutex, k`prio, k`stack
    ensures k.prio == map[1 := 5, 2 := 5] && !Owns(k.mutex, 1)
  {
    hide Stacked, Disciplined, AllSane, Restacked;
    LastReleaseExact(k.mutex, k.prio, k.prio, 1);
    var r := k.Release(1, 1);
  }
}
