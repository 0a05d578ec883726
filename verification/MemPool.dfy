/** Memory pools of mempool.c: equal blocks on a free list, and allocators that wait for one. */
module MemPool {
  import opened Sequences
  import opened Machine
  import opened WaitList
  import opened WaitStates
  import opened QueueStore
  import opened Traces

  const OWNED: int := -2   // the header of a block in use points back to its pool

  /** Callers of a pool only receive. */
  type Threads = Stands<(), (), ()>

  datatype Outcome = Pending | Ok(block: Block) | TimedOut

  /** The free list and its count; every other block is in use and says so. */
  ghost predicate Shelf(link: map<Block, int>, blockList: int, count: nat, freeList: seq<Block>, total: nat) {
    && (forall b: int :: b in link <==> 0 <= b < total)
    && Chain(link, blockList, freeList) && NoRepeats(freeList)
    && count == |freeList|
    && (forall b | b in link && b !in freeList :: link[b] == OWNED)
  }

  lemma ShelfTake(link: map<Block, int>, blockList: int, count: nat, freeList: seq<Block>, total: nat)
    requires Shelf(link, blockList, count, freeList, total) && count > 0
    ensures blockList != NIL && blockList in link && freeList[0] == blockList
    ensures Shelf(link[blockList := OWNED], link[blockList], count - 1, freeList[1..], total)
    ensures forall b :: b in freeList[1..] <==> b in freeList && b != blockList
  {
    ChainPop(link, blockList, freeList);
    HeadRemoved(freeList);
    var r := freeList[1..];
    forall i | 0 <= i < |r| ensures r[i] != blockList {
      assert r[i] in r;
    }
    ChainFrame(link, link[blockList := OWNED], link[blockList], r);
  }

  lemma ShelfGive(link: map<Block, int>, blockList: int, count: nat, freeList: seq<Block>, total: nat, b: Block)
    requires Shelf(link, blockList, count, freeList, total) && b in link && b !in freeList
    ensures Shelf(link[b := blockList], b, count + 1, [b] + freeList, total)
  {
    ChainPush(link, blockList, freeList, b);
  }

  /** Every block is on the shelf or out. */
  lemma ShelfCount(link: map<Block, int>, blockList: int, count: nat, freeList: seq<Block>, total: nat)
    requires Shelf(link, blockList, count, freeList, total)
    ensures count + |set b | b in link && b !in freeList| == total
  {
    hide Chain;
    var out, home := set b | b in link && b !in freeList, set b | b in freeList;
    MembersCount(freeList);
    ChainMembers(link, blockList, freeList);
    assert link.Keys == out + home && out !! home;
    PoolSize(link.Keys, total);
  }

  /** The loop of rt_mp_init. */
  method LinkBlocks(total: nat) returns (l: map<Block, int>, ghost list: seq<Block>)
    requires total > 0
    ensures forall b: int :: b in l <==> 0 <= b < total
    ensures forall b: int | 0 <= b < total :: l[b] == if b == total - 1 then NIL else b + 1
    ensures |list| == total && forall i | 0 <= i < total :: list[i] == i
  {
    l, list := map[], [];
    for offset := 0 to total
      invariant forall b: int :: b in l <==> 0 <= b < offset
      invariant forall b: int | 0 <= b < offset :: l[b] == b + 1
      invariant |list| == offset && forall i | 0 <= i < offset :: list[i] == i
    {
      l := l[offset := offset + 1];
      list := list + [offset];
    }
    l := l[total - 1 := NIL];
  }

  lemma FreshShelf(link: map<Block, int>, list: seq<Block>, total: nat)
    requires total > 0 && forall b: int :: b in link <==> 0 <= b < total
    requires forall b: int | 0 <= b < total :: link[b] == if b == total - 1 then NIL else b + 1
    requires |list| == total && forall i | 0 <= i < total :: list[i] == i
    ensures Shelf(link, 0, total, list, total) && forall b | b in link :: b in list
  {
    forall b | b in link ensures b in list {
      assert list[b] == b;
    }
  }

  class Pool {
    const total: nat
    const prio: map<ThreadId, nat>
    var link: map<Block, int>
    var blockList: int
    var freeCount: nat
    var waiters: seq<ThreadId>
    var pc: Threads
    ghost var freeList: seq<Block>

    ghost predicate Stocked()
      reads this
    {
      Shelf(link, blockList, freeCount, freeList, total)
    }

    ghost predicate Valid()
      reads this
    {
      Stocked() && Orderly(pc, prio, waiters, freeCount, [], 0)
    }

    /** `b` is out with a caller. */
    ghost predicate InUse(b: Block)
      reads this
    {
      b in link && b !in freeList
    }

    ghost function Seen(): View
      reads this
    {
      View((set b | b in link && InUse(b)), freeCount, waiters, pc)
    }

    lemma SeenSound()
      requires Valid()
      ensures Sound(Seen(), prio, total)
    {
      hide Orderly, Chain;
      ShelfCount(link, blockList, freeCount, freeList, total);
      assert Seen().out == set b | b in link && b !in freeList;
    }

    /** rt_mp_init: the blocks are chained in address order. */
    constructor (total: nat, prio: map<ThreadId, nat>)
      requires total > 0
      ensures Valid() && this.total == total && freeCount == total
      ensures forall b :: !InUse(b)
      ensures pc.Keys == prio.Keys && forall t | t in pc :: pc[t] == Idle
    {
      hide Shelf, Orderly;
      this.total, this.prio, pc := total, prio, map t | t in prio :: Idle;
      freeCount, waiters := total, [];
      var links, list := LinkBlocks(total);
      link, freeList, blockList := links, list, 0;
      new;
      FreshShelf(link, freeList, total);
      NobodyYet(pc, prio, total, 0);
    }

    /** Take the first free block. */
    method PopBlock() returns (b: Block)
      requires Stocked() && freeCount > 0
      modifies this`link, this`blockList, this`freeCount, this`freeList
      ensures Stocked() && freeCount == old(freeCount) - 1
      ensures b == old(blockList) && !old(InUse(b)) && forall x :: InUse(x) <==> old(InUse(x)) || x == b
    {
      hide Chain;
      ShelfTake(link, blockList, freeCount, freeList, total);
      freeCount := freeCount - 1;
      b := blockList;
      assert b in freeList;
      blockList := link[b];
      link := link[b := OWNED];
      freeList := freeList[1..];
    }

    /** The waiting loop of rt_mp_alloc and what follows it; waiters queue up last come, first served. */
    method TryAlloc(t: ThreadId, time: int) returns (r: Outcome)
      requires Valid() && t in pc && (pc[t].Idle? || pc[t].RecvWoken?)
      modifies this
      ensures Valid()
      ensures r.Ok? <==> old(freeCount) > 0
      ensures r.TimedOut? <==> old(freeCount) == 0 && time == 0
      ensures r.Ok? ==> r.block == old(blockList) && !old(InUse(r.block)) && forall x ::
                InUse(x)
                <==> old(InUse(x)) || x == r.block
      ensures r.Ok? ==> freeCount == old(freeCount) - 1
      ensures !r.Ok? ==> freeCount == 0 && forall x :: InUse(x) <==> old(InUse(x))
      ensures pc == old(pc)[t := if r.Pending? then RecvWait((), time) else Idle]
      ensures waiters == if r.Pending? then [t] + old(waiters) else old(waiters)
    {
      hide Shelf, Orderly;
      if freeCount == 0 {
        if time == 0 {
          ReceiverDone(pc, prio, waiters, 0, [], 0, t, Idle);
          pc := pc[t := Idle];
          return TimedOut;
        }
        assert Inserted(waiters, [t] + waiters, t, 0);
        ReceiverWaits(pc, prio, waiters, [t] + waiters, [], 0, t, (), time, 0);
        waiters, pc := [t] + waiters, pc[t := RecvWait((), time)];
        return Pending;
      }
      ReceiverDone(pc, prio, waiters, freeCount, [], 0, t, Idle);
      var b := PopBlock();
      pc := pc[t := Idle];
      return Ok(b);
    }

    /** A resumed allocator looks again, after `elapsed` ticks. */
    method AllocResume(t: ThreadId, elapsed: nat) returns (r: Outcome)
      requires Valid() && t in pc && pc[t].RecvWoken?
      modifies this
      ensures Valid()
      ensures r.Ok? <==> old(freeCount) > 0
      ensures r.TimedOut? <==> old(freeCount) == 0 && Left(old(pc)[t].timeout, elapsed) == 0
      ensures r.Ok? ==> r.block == old(blockList) && !old(InUse(r.block)) && forall x ::
                InUse(x)
                <==> old(InUse(x)) || x == r.block
      ensures r.Ok? ==> freeCount == old(freeCount) - 1
      ensures !r.Ok? ==> freeCount == 0 && forall x :: InUse(x) <==> old(InUse(x))
      ensures waiters == if r.Pending? then [t] + old(waiters) else old(waiters)
      ensures pc == old(pc)[t := if r.Pending? then RecvWait((), Left(old(pc)[t].timeout, elapsed)) else Idle]
    {
      hide Shelf, Orderly;
      r := TryAlloc(t, Left(pc[t].timeout, elapsed));
    }

    /** rt_mp_free: the block goes to the front of the free list, and the first waiter is resumed. */
    method Free(b: Block)
      requires Valid() && InUse(b)
      modifies this
      ensures Valid() && freeCount == old(freeCount) + 1 && blockList == b
      ensures forall x :: InUse(x) <==> old(InUse(x)) && x != b
      ensures waiters == Tail(old(waiters))
      ensures old(waiters) != [] ==> old(waiters)[0] in old(pc) && old(pc)[old(waiters)[0]].RecvWait?
      ensures pc == WakeReceiver(old(pc), old(waiters))
    {
      hide Shelf, Orderly;
      ShelfGive(link, blockList, freeCount, freeList, total, b);
      ItemIn(pc, prio, waiters, freeCount, [], 0);
      freeCount := freeCount + 1;
      link := link[b := blockList];
      blockList := b;
      freeList := [b] + freeList;
      pc := WakeReceiver(pc, waiters);
      waiters := Tail(waiters);
    }

    /** The timer of a waiting allocator fires. */
    method Expire(t: ThreadId)
      requires Valid() && t in pc && pc[t].RecvWait?
      modifies this`pc, this`waiters
      ensures Valid() && pc == old(pc)[t := Idle] && Dropped(old(waiters), waiters, t)
      ensures forall x :: InUse(x) <==> old(InUse(x))
    {
      hide Shelf, Dropped;
      ghost var waiters0 := waiters;
      waiters := Remove(waiters, t);
      GivesUp(pc, prio, waiters0, waiters, freeCount, [], [], 0, t);
      pc := pc[t := Idle];
    }
  }

  // ---------------------------------------------------------------- runs

  datatype Step =
    | Allocs(t: ThreadId, time: int)
    | AllocResumes(t: ThreadId, elapsed: nat)
    | Frees(b: Block)
    | Expires(t: ThreadId)

  /** What a step answered; a step that is not the next one of its thread is skipped. */
  datatype Reply = Skipped | Freed | Expired | Answer(r: Outcome)

  /** A pool as its callers see it: `out` are the blocks in use. */
  datatype View = View(out: set<Block>, free: nat, waiters: seq<ThreadId>, pc: Threads)

  type Record = Entry<View, Step, Reply>

  ghost predicate Enabled(step: Step, v: View) {
    match step
    case Allocs(t, _) => t in v.pc && v.pc[t].Idle?
    case AllocResumes(t, _) => t in v.pc && v.pc[t].RecvWoken?
    case Frees(b) => b in v.out
    case Expires(t) => t in v.pc && v.pc[t].RecvWait? && v.pc[t].timeout > 0
  }

  /** A look for a free block, with `time` ticks left. */
  ghost predicate Looked(v: View, v': View, t: ThreadId, time: int, reply: Reply) {
    && reply.Answer?
    && if v.free > 0 then
         && reply.r.Ok? && reply.r.block !in v.out
         && v' == View(v.out + {reply.r.block}, v.free - 1, v.waiters, v.pc[t := Idle])
       else if time == 0 then
         reply.r.TimedOut? && v' == v.(pc := v.pc[t := Idle])
       else
         reply.r.Pending? && v' == v.(waiters := [t] + v.waiters, pc := v.pc[t := RecvWait((), time)])
  }

  /** What each step does and answers. */
  ghost predicate Happened(e: Record) {
    var v, v' := e.before, e.after;
    if !Enabled(e.event, v) then v' == v && e.result.Skipped?
    else match e.event
      case Allocs(t, time) => Looked(v, v', t, time, e.result)
      case AllocResumes(t, elapsed) => Looked(v, v', t, Left(v.pc[t].timeout, elapsed), e.result)
      case Frees(b) => e.result.Freed? && v' == View(v.out - {b}, v.free + 1, Tail(v.waiters),
                                                     WakeReceiver(v.pc, v.waiters))
      case Expires(t) =>
        e.result.Expired? && Dropped(v.waiters, v'.waiters, t) && v' == v.(waiters := v'.waiters, pc := v.pc[t := Idle])
  }

  /** Every block is free or out, and no wake-up is lost. */
  ghost predicate Sound(v: View, prio: map<ThreadId, nat>, total: nat) {
    && v.free + |v.out| == total && (forall b | b in v.out :: 0 <= b < total)
    && Orderly(v.pc, prio, v.waiters, v.free, [], 0)
  }

  /** The record of a run. */
  ghost predicate History(trace: seq<Record>, first: View, last: View) {
    Joined(trace, first, last) && forall i | 0 <= i < |trace| :: Happened(trace[i])
  }

  /** One step of one thread, if it is that thread's next. */
  method Take(pool: Pool, step: Step) returns (reply: Reply)
    requires pool.Valid()
    modifies pool
    ensures pool.Valid() && Happened(Entry(old(pool.Seen()), step, reply, pool.Seen()))
  {
    hide Shelf, Orderly, Dropped;
    match step {
      case Allocs(t, time) =>
        if t in pool.pc && pool.pc[t].Idle? {
          var r := pool.TryAlloc(t, time);
          return Answer(r);
        }
      case AllocResumes(t, elapsed) =>
        if t in pool.pc && pool.pc[t].RecvWoken? {
          var r := pool.AllocResume(t, elapsed);
          return Answer(r);
        }
      case Frees(b) =>
        if b in pool.link && pool.link[b] == OWNED {
          StillOut(pool.link, pool.blockList, pool.freeCount, pool.freeList, pool.total, b);
          pool.Free(b);
          return Freed;
        }
        if b in pool.link {
          StillOut(pool.link, pool.blockList, pool.freeCount, pool.freeList, pool.total, b);
        }
      case Expires(t) =>
        if t in pool.pc && pool.pc[t].RecvWait? && pool.pc[t].timeout > 0 {
          pool.Expire(t);
          return Expired;
        }
    }
    return Skipped;
  }

  /** Any interleaving of any calls: what each step answered, and the record of what it did. */
  method Run(pool: Pool, steps: seq<Step>) returns (replies: seq<Reply>, ghost trace: seq<Record>)
    requires pool.Valid()
    modifies pool
    ensures pool.Valid()
    ensures Recorded(trace, steps, replies) && History(trace, old(pool.Seen()), pool.Seen())
    ensures forall i | 0 <= i < |trace| ::
              Sound(trace[i].before, pool.prio, pool.total)
              && Sound(trace[i].after, pool.prio, pool.total)
  {
    hide Joined, Happened, Sound;
    replies, trace := [], [];
    JoinedEmpty<View, Step, Reply>(pool.Seen());
    for i := 0 to |steps|
      invariant pool.Valid() && Recorded(trace, steps[..i], replies) && Joined(trace, old(pool.Seen()), pool.Seen())
      invariant forall k | 0 <= k < i ::
                  Happened(trace[k]) && Sound(trace[k].before, pool.prio, pool.total)
                  && Sound(trace[k].after, pool.prio, pool.total)
    {
      ghost var before := pool.Seen();
      pool.SeenSound();
      var reply := Take(pool, steps[i]);
      pool.SeenSound();
      ghost var e := Entry(before, steps[i], reply, pool.Seen());
      JoinedNext(trace, old(pool.Seen()), e);
      replies, trace := replies + [reply], trace + [e];
    }
    assert steps[..|steps|] == steps;
  }

  lemma HandOut(e: Record, b: Block)
    requires Happened(e)
    ensures e.result == Answer(Ok(b)) ==> b !in e.before.out && b in e.after.out
    ensures b in e.before.out && !(e.event == Frees(b) && e.result == Freed) ==> b in e.after.out
  {
    hide Dropped;
  }

  /** No block is handed out twice without being freed in between. */
  lemma {:induction false} HandedOutOnce(trace: seq<Record>, first: View, last: View, i: nat, j: nat, b: Block)
    requires History(trace, first, last) && i < j < |trace|
    requires trace[i].result == Answer(Ok(b)) == trace[j].result
    ensures exists k :: i < k < j && trace[k].event == Frees(b) && trace[k].result == Freed
  {
    hide Happened;
    if forall k | i < k < j :: !(trace[k].event == Frees(b) && trace[k].result == Freed) {
      StaysOut(trace, first, last, i, j, b);
      assert trace[j - 1].after == trace[j].before;
      HandOut(trace[j], b);
      assert false;
    }
  }

  /** A block handed out at step `i` stays out until it is freed. */
  lemma {:induction false} StaysOut(trace: seq<Record>, first: View, last: View, i: nat, j: nat, b: Block)
    requires History(trace, first, last) && i < j <= |trace| && trace[i].result == Answer(Ok(b))
    requires forall k | i < k < j :: !(trace[k].event == Frees(b) && trace[k].result == Freed)
    ensures b in trace[j - 1].after.out
  {
    hide Happened;
    HandOut(trace[j - 1], b);
    if j - 1 > i {
      StaysOut(trace, first, last, i, j - 1, b);
      assert trace[j - 2].after == trace[j - 1].before;
    }
  }

  /** A header that points to the pool marks a block in use. */
  lemma StillOut(link: map<Block, int>, blockList: int, count: nat, freeList: seq<Block>, total: nat, b: Block)
    requires Shelf(link, blockList, count, freeList, total) && b in link
    ensures link[b] == OWNED <==> b !in freeList
  {
    if b in freeList {
      var i :| 0 <= i < |freeList| && freeList[i] == b;
      assert i + 1 < |freeList| ==> freeList[i + 1] in link;
    }
  }

  // ---------------------------------------------------------------- waiting comes to an end

  /** The ticks that `t` has waited when it looks again. */
  function Waited(e: Record, t: ThreadId): nat {
    if e.event.AllocResumes? && e.event.t == t && t in e.before.pc && e.before.pc[t].RecvWoken?
      then e.event.elapsed else 0
  }

  /** A thread that waits on after a step has the time it had, less what it waited; one that begins has its call's. */
  lemma TimeStep(e: Record, t: ThreadId)
    requires Happened(e) && InWait(e.after.pc, t)
    ensures InWait(e.before.pc, t) && TimeLeft(e.before.pc, t) > 0 ==>
              TimeLeft(e.after.pc, t) > 0 && TimeLeft(e.after.pc, t) + Waited(e, t) == TimeLeft(e.before.pc, t)
    ensures InWait(e.before.pc, t) && TimeLeft(e.before.pc, t) < 0 ==>
              TimeLeft(e.after.pc, t) == TimeLeft(e.before.pc, t)
    ensures !InWait(e.before.pc, t) ==>
              e.event.Allocs? && e.event.t == t && e.event.time == TimeLeft(e.after.pc, t)
  {
    hide Dropped, WakeReceiver;
    WakingKeepsTime(e.before.pc, e.before.waiters, t);
  }

  /** A woken allocator that finds nothing gives up if its time is over, and waits again if not. */
  lemma LookAgain(e: Record, t: ThreadId)
    requires Happened(e) && e.event.AllocResumes? && e.event.t == t && Enabled(e.event, e.before) && e.before.free == 0
    ensures 0 < TimeLeft(e.before.pc, t) <= e.event.elapsed ==> e.result == Answer(TimedOut) && e.after.pc[t] == Idle
    ensures TimeLeft(e.before.pc, t) < 0 || TimeLeft(e.before.pc, t) > e.event.elapsed ==>
              e.result == Answer(Pending) && InWait(e.after.pc, t)
  {
  }

  /**
   An allocation with a timeout that waits and is woken in vain, any number of times: when the ticks it has waited
   reach its timeout, it answers that it timed out, and not before.
   */
  lemma WaitsItsTime(trace: seq<Record>, first: View, last: View, t: ThreadId, n: nat, timeout: int)
    requires History(trace, first, last) && 0 < n < |trace| && timeout > 0
    requires trace[0].event == Allocs(t, timeout)
    requires !InWait(trace[0].before.pc, t) && forall k | 0 < k <= n :: InWait(trace[k].before.pc, t)
    requires trace[n].event.AllocResumes? && trace[n].event.t == t && Enabled(trace[n].event, trace[n].before)
             && trace[n].before.free == 0
    ensures var waited := Summed(trace[..n], e => Waited(e, t)) + trace[n].event.elapsed;
            if waited >= timeout then
              trace[n].result == Answer(TimedOut) && trace[n].after.pc[t] == Idle
            else
              && trace[n].result == Answer(Pending)
              && InWait(trace[n].after.pc, t) && TimeLeft(trace[n].after.pc, t) == timeout - waited
  {
    hide Happened, Joined, InWait, TimeLeft;
    TimeAddsUp(trace, first, last, t, n, timeout);
    LookAgain(trace[n], t);
    if InWait(trace[n].after.pc, t) {
      TimeStep(trace[n], t);
    }
  }

  lemma {:induction false} TimeAddsUp(trace: seq<Record>, first: View, last: View, t: ThreadId, n: nat, timeout: int)
    requires History(trace, first, last) && 0 < n < |trace| && timeout > 0
    requires trace[0].event == Allocs(t, timeout)
    requires !InWait(trace[0].before.pc, t) && forall k | 0 < k <= n :: InWait(trace[k].before.pc, t)
    ensures TimeLeft(trace[n].before.pc, t) > 0
    ensures TimeLeft(trace[n].before.pc, t) + Summed(trace[..n], e => Waited(e, t)) == timeout
  {
    hide Happened, Joined, InWait, TimeLeft;
    assert trace[..n][..n - 1] == trace[..n - 1];
    JoinedPrefix(trace, first, last, n);
    JoinedEnds(trace[..n], first, trace[n].before);
    if n > 1 {
      TimeAddsUp(trace, first, last, t, n - 1, timeout);
      TimeStep(trace[n - 1], t);
    } else {
      TimeStep(trace[0], t);
    }
  }
}
