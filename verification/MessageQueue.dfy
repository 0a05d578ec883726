/**
 Message queues of ipc.c under every interleaving: each locked region, and each
 copy between two of them, is one step.
 */
module MessageQueue {
  import opened Sequences
  import opened Machine
  import opened WaitList
  import opened WaitStates
  import opened QueueStore
  import opened QueueThreads

  /** How a step leaves its call: still going, or finished with a status. */
  datatype Outcome = Pending | Ok | Failed | Full | TimedOut

  const FIELD: int := 65536   // msg_size and max_msgs are 16 bits
  const LINK: int := 8        // sizeof(struct rt_mq_message)

  /** `msg_size` of the queue, for the `size` asked for. */
  function MessageSize(size: nat): nat
    requires size < SIZE_LIMIT
  {
    AlignUp(size) % FIELD
  }

  /** `max_msgs` of the queue. */
  function PoolBlocks(poolSize: nat, msgSize: nat): nat {
    poolSize / (msgSize + LINK) % FIELD
  }

  /** `msg_size` holds the size asked for exactly up to its width; above that, messages of this size are refused. */
  lemma SizeFieldExact(size: nat)
    requires size < SIZE_LIMIT
    ensures size <= MessageSize(size) <==> size <= FIELD - ALIGN
    ensures size <= FIELD - ALIGN ==> MessageSize(size) == AlignUp(size)
    ensures MessageSize(size) < FIELD && exists k: nat :: AlignUp(size) == MessageSize(size) + k * FIELD
  {
    AlignUpExact(size);
    RoundUp(size);
    hide AlignUp;
    assert AlignUp(size) == MessageSize(size) + (AlignUp(size) / FIELD) * FIELD;
    if FIELD - ALIGN < size < FIELD {
      assert AlignUp(size) == FIELD;
    }
  }

  lemma RoundUp(size: nat)
    requires size < SIZE_LIMIT
    ensures size <= FIELD - ALIGN ==> AlignUp(size) <= FIELD - ALIGN
    ensures FIELD - ALIGN < size < FIELD ==> AlignUp(size) == FIELD
  {
  }

  /** `max_msgs` counts the blocks that fit exactly for pools below 65536 blocks. */
  lemma PoolFieldExact(poolSize: nat, msgSize: nat)
    ensures PoolBlocks(poolSize, msgSize) == poolSize / (msgSize + LINK) <==> poolSize < FIELD * (msgSize + LINK)
    ensures PoolBlocks(poolSize, msgSize) < FIELD
    ensures exists k: nat :: poolSize / (msgSize + LINK) == PoolBlocks(poolSize, msgSize) + k * FIELD
  {
    var fit := poolSize / (msgSize + LINK);
    assert fit == fit % FIELD + fit / FIELD * FIELD;
    DivBelow(poolSize, msgSize + LINK, FIELD);
  }

  lemma DivBelow(a: nat, unit: nat, n: nat)
    requires unit > 0
    ensures a / unit < n <==> a < n * unit
  {
    var q := a / unit;
    assert a == q * unit + a % unit;
    assert (n - q) * unit == n * unit - q * unit;
    Scale(n - q, unit);
  }

  class Queue {
    ghost const blocks: set<Block>   // of the pool
    const msgSize: nat
    const flag: Discipline
    const prio: map<ThreadId, nat>
    var next: map<Block, int>
    var data: map<Block, seq<byte>>
    var head: int
    var tail: int
    var free: int
    var entry: nat
    var recvWait: seq<ThreadId>
    var sendWait: seq<ThreadId>
    var pc: Threads

    ghost var queue: seq<Block>
    ghost var freeList: seq<Block>
    ghost var place: map<Block, Place>
    ghost var sent: seq<seq<byte>>              // the messages in the queue, in order
    ghost var taken: map<ThreadId, seq<byte>>   // the message a draining receiver took

    ghost predicate Pool()
      reads this
    {
      && Stored(blocks, next, data, place, msgSize, head, tail, entry, queue, free, freeList, sent)
      && |blocks| <= ENTRY_MAX
    }

    ghost predicate Holding()
      reads this
    {
      Holders(pc, next, data, place, taken, msgSize)
    }

    ghost predicate Valid()
      reads this
    {
      && Pool() && Holding()
      && Orderly(pc, prio, recvWait, entry, sendWait, |freeList|)
    }

    /** rt_mq_init over a pool of `poolSize` bytes, which hold whatever memory held. */
    constructor (poolSize: nat, size: nat, flag: Discipline, prio: map<ThreadId, nat>, garbage: map<Block, seq<byte>>)
      requires size < SIZE_LIMIT
      requires forall b: int :: b in garbage <==> 0 <= b < PoolBlocks(poolSize, MessageSize(size))
      requires forall b | b in garbage :: |garbage[b]| == MessageSize(size)
      ensures Valid() && sent == [] && msgSize == MessageSize(size) && |freeList| == PoolBlocks(poolSize, msgSize)
      ensures prio.Keys == pc.Keys && forall t | t in pc :: pc[t] == Idle
      ensures recvWait == [] && sendWait == [] && taken == map[]
    {
      hide Stored, Holders, Chain, NoRepeats, Orderly, AlignUp;
      blocks, msgSize, this.flag, this.prio := garbage.Keys, MessageSize(size), flag, prio;
      data, head, tail, entry, recvWait, sendWait := garbage, NIL, NIL, 0, [], [];
      pc := map t | t in prio :: Idle;
      queue, sent, taken := [], [], map[];
      place := map b | b in garbage :: InFree;
      var maxMsgs := PoolBlocks(poolSize, MessageSize(size));
      var links, first, list := LinkPool(maxMsgs);
      next, free, freeList := links, first, list;
      new;
      FreshPool(blocks, next, data, place, msgSize, free, freeList, maxMsgs);
      FreshThreads(pc, next, data, place, msgSize);
      NobodyYet(pc, prio, 0, |freeList|);
    }

    /** Leave a send without a block. */
    method SendIdle(t: ThreadId)
      requires Valid() && t in pc && (pc[t].Idle? || pc[t].SendWoken?) && freeList == []
      modifies this`pc
      ensures Valid() && pc == old(pc)[t := Idle]
    {
      hide Stored, Holders, Orderly;
      HoldersMove(pc, next, data, place, taken, msgSize, t, Idle);
      SenderDone(pc, prio, recvWait, entry, sendWait, 0, t, Idle);
      pc := pc[t := Idle];
    }

    /** Join the suspended senders. */
    method WaitToSend(t: ThreadId, m: seq<byte>, timeout: int)
      requires Valid() && t in pc && (pc[t].Idle? || pc[t].SendWoken?) && freeList == []
      requires 0 < |m| <= msgSize
      modifies this`sendWait, this`pc
      ensures Valid() && pc == old(pc)[t := SendWait(m, timeout)] && Queued(old(sendWait), sendWait, t, flag, prio)
    {
      hide Stored, Holders, Inserted, LastOfEquals, Orderly, Queued;
      WaitersKnown(pc, prio, recvWait, entry, sendWait, 0);
      var list, pos := Suspend(sendWait, t, flag, prio);
      HoldersMove(pc, next, data, place, taken, msgSize, t, SendWait(m, timeout));
      SenderWaits(pc, prio, recvWait, entry, sendWait, list, t, m, timeout, pos);
      sendWait, pc := list, pc[t := SendWait(m, timeout)];
    }

    /** Unlink the first free block for thread `t`. */
    method PopFree(ghost t: ThreadId) returns (b: Block)
      requires Pool() && freeList != []
      modifies this`free, this`freeList, this`place
      ensures Pool() && b == old(freeList)[0] && freeList == old(freeList)[1..]
      ensures b in old(place) && old(place)[b] == InFree && place == old(place)[b := Held(t)] && b in next && b in data
    {
      hide Stored;
      EmptyFree(blocks, next, data, place, msgSize, head, tail, entry, queue, free, freeList, sent);
      TakeFree(blocks, next, data, place, msgSize, head, tail, entry, queue, free, freeList, sent, t);
      b := free;
      free, freeList, place := next[b], freeList[1..], place[b := Held(t)];
    }

    /** Take the first free block, to fill it outside the lock. */
    method TakeBlock(t: ThreadId, m: seq<byte>, urgent: bool)
      requires Valid() && t in pc && (pc[t].Idle? || pc[t].SendWoken?) && freeList != []
      requires 0 < |m| <= msgSize
      modifies this`free, this`pc, this`freeList, this`place
      ensures Valid() && pc == old(pc)[t := Busy(Filling(m, urgent, old(freeList)[0]))]
              && freeList == old(freeList)[1..]
    {
      hide Stored, Holders, Orderly;
      ghost var spaces := |freeList|;
      var b := PopFree(t);
      var p := Busy(Filling(m, urgent, b));
      HoldersTake(pc, next, data, old(place), taken, taken, msgSize, t, b, p);
      SenderDone(pc, prio, recvWait, entry, sendWait, spaces, t, p);
      pc := pc[t := p];
    }

    /** The head of the waiting loop of rt_mq_send_wait. */
    method TrySend(t: ThreadId, m: seq<byte>, timeout: int) returns (r: Outcome)
      requires Valid() && t in pc && (pc[t].Idle? || pc[t].SendWoken?)
      requires 0 < |m| <= msgSize
      modifies this`free, this`sendWait, this`pc, this`freeList, this`place
      ensures Valid()
      ensures r == if old(freeList) == [] && timeout == 0 then Full else Pending
      ensures old(freeList) != [] ==>
                && pc == old(pc)[t := Busy(Filling(m, false, old(freeList)[0]))]
                && freeList == old(freeList)[1..] && sendWait == old(sendWait)
      ensures old(freeList) == [] ==>
                && freeList == []
                && pc == old(pc)[t := if timeout == 0 then Idle else SendWait(m, timeout)]
                && if timeout == 0 then sendWait == old(sendWait) else Queued(old(sendWait), sendWait, t, flag, prio)
    {
      hide Stored, Holding, Orderly, Queued;
      EmptyFree(blocks, next, data, place, msgSize, head, tail, entry, queue, free, freeList, sent);
      if free == NIL {
        if timeout == 0 {
          SendIdle(t);
          return Full;
        }
        WaitToSend(t, m, timeout);
        return Pending;
      }
      TakeBlock(t, m, false);
      return Pending;
    }

    /** rt_mq_send_wait, up to taking a block or waiting for one. */
    method SendStart(t: ThreadId, m: seq<byte>, timeout: int) returns (r: Outcome)
      requires Valid() && t in pc && pc[t].Idle? && m != []
      modifies this`free, this`sendWait, this`pc, this`freeList, this`place
      ensures Valid()
      ensures r == if |m| > msgSize then Failed else if old(freeList) == [] && timeout == 0 then Full else Pending
      ensures r.Failed? || r.Full? ==> pc == old(pc) && freeList == old(freeList) && sendWait == old(sendWait)
      ensures r.Pending? && old(freeList) != [] ==>
                && pc == old(pc)[t := Busy(Filling(m, false, old(freeList)[0]))]
                && freeList == old(freeList)[1..] && sendWait == old(sendWait)
      ensures r.Pending? && old(freeList) == [] ==>
                && freeList == [] && pc == old(pc)[t := SendWait(m, timeout)]
                && Queued(old(sendWait), sendWait, t, flag, prio)
    {
      hide Stored, Holding, Orderly, Queued;
      if |m| > msgSize {
        return Failed;
      }
      EmptyFree(blocks, next, data, place, msgSize, head, tail, entry, queue, free, freeList, sent);
      if free == NIL && timeout == 0 {
        return Full;
      }
      r := TrySend(t, m, timeout);
    }

    /** A resumed sender looks again, after `elapsed` ticks. */
    method SendResume(t: ThreadId, elapsed: nat) returns (r: Outcome)
      requires Valid() && t in pc && pc[t].SendWoken?
      modifies this`free, this`sendWait, this`pc, this`freeList, this`place
      ensures Valid()
      ensures var m, timeout := old(pc)[t].m, Left(old(pc)[t].timeout, elapsed);
              && r == (if old(freeList) == [] && timeout == 0 then Full else Pending)
              && (old(freeList) != [] ==>
                    && pc == old(pc)[t := Busy(Filling(m, false, old(freeList)[0]))]
                    && freeList == old(freeList)[1..] && sendWait == old(sendWait))
              && (old(freeList) == [] ==>
                    && freeList == [] && pc == old(pc)[t := if timeout == 0 then Idle else SendWait(m, timeout)]
                    && if timeout == 0 then sendWait == old(sendWait)
                        else Queued(old(sendWait), sendWait, t, flag, prio))
    {
      hide Stored, Orderly, Queued, Holders;
      WaiterMessage(pc, next, data, place, taken, msgSize, t);
      r := TrySend(t, pc[t].m, Left(pc[t].timeout, elapsed));
    }

    /** rt_mq_urgent, up to taking a block. */
    method UrgentStart(t: ThreadId, m: seq<byte>) returns (r: Outcome)
      requires Valid() && t in pc && pc[t].Idle? && m != []
      modifies this`free, this`pc, this`freeList, this`place
      ensures Valid()
      ensures r == if |m| > msgSize then Failed else if old(freeList) == [] then Full else Pending
      ensures !r.Pending? ==> pc == old(pc) && freeList == old(freeList)
      ensures r.Pending? ==>
                && pc == old(pc)[t := Busy(Filling(m, true, old(freeList)[0]))] && freeList == old(freeList)[1..]
    {
      hide Stored, Holding, Orderly;
      if |m| > msgSize {
        return Failed;
      }
      EmptyFree(blocks, next, data, place, msgSize, head, tail, entry, queue, free, freeList, sent);
      if free == NIL {
        return Full;
      }
      TakeBlock(t, m, true);
      return Pending;
    }

    /** The unlocked part of a send: write the message into the block held. */
    method Fill(t: ThreadId)
      requires Valid() && t in pc && IsFilling(pc[t])
      modifies this`next, this`data, this`pc
      ensures Valid()
      ensures var w := old(pc)[t].work; pc == old(pc)[t := Busy(Filled(w.m, w.urgent, w.b))]
    {
      hide Stored, Orderly;
      var m, urgent, b := pc[t].work.m, pc[t].work.urgent, pc[t].work.b;
      assert HolderOk(pc[t], t, next, data, place, taken, msgSize);
      BlockSize(blocks, next, data, place, msgSize, head, tail, entry, queue, free, freeList, sent, b);
      var link := if urgent then next[b] else NIL;
      var d := m + data[b][|m|..];
      var p := Busy(Filled(m, urgent, b));
      WriteHeld(blocks, next, data, place, msgSize, head, tail, entry, queue, free, freeList, sent, b, link, d);
      HoldersWork(pc, next, data, place, taken, msgSize, t, link, d, p);
      WorkDone(pc, prio, recvWait, entry, sendWait, |freeList|, t, p);
      next, data, pc := next[b := link], data[b := d], pc[t := p];
    }

    /** Link a filled block behind the tail. */
    method LinkLast(b: Block, ghost m: seq<byte>)
      requires Pool() && b in place && place[b].Held? && b in next && next[b] == NIL && b in data && m <= data[b]
      modifies this`next, this`head, this`tail, this`entry, this`queue, this`place, this`sent
      ensures Pool() && place == old(place)[b := InQueue] && entry == old(entry) + 1
      ensures sent == old(sent) + [m] && queue == old(queue) + [b]
      ensures LinksKept(old(next), next, old(place), b)
    {
      hide Stored;
      EntryBelowMax(blocks, next, data, place, msgSize, head, tail, entry, queue, free, freeList, sent, b);
      LinkTail(blocks, next, data, place, msgSize, head, tail, entry, queue, free, freeList, sent, b, m);
      TailPlace(blocks, next, data, place, msgSize, head, tail, entry, queue, free, freeList, sent);
      if tail != NIL {
        next := next[tail := b];
      }
      tail := b;
      if head == NIL {
        head := b;
      }
      var overflow := entry >= ENTRY_MAX;   // the source would return -RT_EFULL here, without waking anyone
      assert !overflow;
      entry := entry + 1;
      queue, sent, place := queue + [b], sent + [m], place[b := InQueue];
    }

    /** Link an urgent block before the head. */
    method LinkFirst(b: Block, ghost m: seq<byte>)
      requires Pool() && b in place && place[b].Held? && b in next && b in data && m <= data[b]
      modifies this`next, this`head, this`tail, this`entry, this`queue, this`place, this`sent
      ensures Pool() && place == old(place)[b := InQueue] && entry == old(entry) + 1
      ensures sent == [m] + old(sent) && queue == [b] + old(queue)
      ensures LinksKept(old(next), next, old(place), b)
    {
      hide Stored;
      EntryBelowMax(blocks, next, data, place, msgSize, head, tail, entry, queue, free, freeList, sent, b);
      LinkHead(blocks, next, data, place, msgSize, head, tail, entry, queue, free, freeList, sent, b, m);
      next := next[b := head];
      head := b;
      if tail == NIL {
        tail := b;
      }
      var overflow := entry >= ENTRY_MAX;   // as above
      assert !overflow;
      entry := entry + 1;
      queue, sent, place := [b] + queue, [m] + sent, place[b := InQueue];
    }

    /** Link the filled block into the queue, behind the others or before them. */
    method Link(t: ThreadId)
      requires Valid() && t in pc && IsFilled(pc[t])
      modifies this`next, this`head, this`tail, this`entry, this`pc, this`queue, this`place, this`sent
      ensures Pool() && Holding() && Orderly(pc, prio, recvWait, entry - 1, sendWait, |freeList|)
      ensures pc == old(pc)[t := Idle] && entry == old(entry) + 1
      ensures var w := old(pc)[t].work;
              if w.urgent then sent == [w.m] + old(sent) && queue == [w.b] + old(queue)
              else sent == old(sent) + [w.m] && queue == old(queue) + [w.b]
    {
      hide Stored, Orderly, LinksKept;
      var w := pc[t].work;
      assert HolderOk(pc[t], t, next, data, place, taken, msgSize);
      WorkDone(pc, prio, recvWait, entry, sendWait, |freeList|, t, Idle);
      if w.urgent {
        LinkFirst(w.b, w.m);
      } else {
        LinkLast(w.b, w.m);
      }
      HoldersDrop(pc, old(next), next, data, old(place), taken, msgSize, t, InQueue);
      pc := pc[t := Idle];
    }

    /** Resume the first suspended receiver, if any: it is on its way to the message just linked. */
    method ResumeReceiver()
      requires Pool() && Holding() && Orderly(pc, prio, recvWait, entry - 1, sendWait, |freeList|)
      modifies this`pc, this`recvWait
      ensures Valid() && recvWait == Tail(old(recvWait)) && pc == WakeReceiver(old(pc), old(recvWait))
    {
      hide Stored, Orderly, Holders;
      ItemIn(pc, prio, recvWait, entry - 1, sendWait, |freeList|);
      if recvWait == [] {
        return;
      }
      var w := recvWait[0];
      HoldersMove(pc, next, data, place, taken, msgSize, w, RecvWoken(pc[w].want, pc[w].timeout));
      recvWait, pc := recvWait[1..], pc[w := RecvWoken(pc[w].want, pc[w].timeout)];
    }

    /** The second locked region of a send: link the message and resume a receiver. */
    method Commit(t: ThreadId) returns (r: Outcome)
      requires Valid() && t in pc && IsFilled(pc[t])
      modifies this`next, this`head, this`tail, this`entry, this`pc, this`recvWait, this`queue, this`place, this`sent
      ensures Valid() && r.Ok?
      ensures var w := old(pc)[t].work;
              if w.urgent then sent == [w.m] + old(sent) && queue == [w.b] + old(queue)
              else sent == old(sent) + [w.m] && queue == old(queue) + [w.b]
      ensures recvWait == Tail(old(recvWait)) && pc == WakeReceiver(old(pc)[t := Idle], old(recvWait))
    {
      hide Pool, Holding, Orderly, Queued;
      Link(t);
      ResumeReceiver();
      return Ok;
    }

    // ---------------------------------------------------------------- receiving

    method RecvIdle(t: ThreadId)
      requires Valid() && t in pc && (pc[t].Idle? || pc[t].RecvWoken?) && entry == 0
      modifies this`pc
      ensures Valid() && pc == old(pc)[t := Idle]
    {
      hide Stored, Holders, Orderly;
      HoldersMove(pc, next, data, place, taken, msgSize, t, Idle);
      ReceiverDone(pc, prio, recvWait, 0, sendWait, |freeList|, t, Idle);
      pc := pc[t := Idle];
    }

    method WaitToRecv(t: ThreadId, size: nat, timeout: int)
      requires Valid() && t in pc && (pc[t].Idle? || pc[t].RecvWoken?) && entry == 0
      modifies this`recvWait, this`pc
      ensures Valid() && pc == old(pc)[t := RecvWait(size, timeout)] && Queued(old(recvWait), recvWait, t, flag, prio)
    {
      hide Stored, Holders, Inserted, LastOfEquals, Orderly, Queued;
      WaitersKnown(pc, prio, recvWait, 0, sendWait, |freeList|);
      var list, pos := Suspend(recvWait, t, flag, prio);
      HoldersMove(pc, next, data, place, taken, msgSize, t, RecvWait(size, timeout));
      ReceiverWaits(pc, prio, recvWait, list, sendWait, |freeList|, t, size, timeout, pos);
      recvWait, pc := list, pc[t := RecvWait(size, timeout)];
    }

    /** Unlink the head block for thread `t`. */
    method PopHead(ghost t: ThreadId) returns (b: Block, ghost m: seq<byte>)
      requires Pool() && entry > 0
      modifies this`head, this`tail, this`entry, this`queue, this`place, this`sent
      ensures Pool() && old(queue) != [] && b == old(queue)[0] && queue == old(queue)[1..] && entry == old(entry) - 1
      ensures old(sent) != [] && m == old(sent)[0] && sent == old(sent)[1..]
      ensures b in old(place) && old(place)[b] == InQueue && place == old(place)[b := Held(t)]
      ensures b in next && b in data && m <= data[b]
    {
      hide Stored;
      TakeHead(blocks, next, data, place, msgSize, head, tail, entry, queue, free, freeList, sent, t);
      b, m := head, sent[0];
      head := next[b];
      if tail == b {
        tail := NIL;
      }
      entry := entry - 1;
      queue, place, sent := queue[1..], place[b := Held(t)], sent[1..];
    }

    /** Take the first message's block, to drain it outside the lock. */
    method TakeMessage(t: ThreadId, size: nat)
      requires Valid() && t in pc && (pc[t].Idle? || pc[t].RecvWoken?) && entry > 0
      modifies this`head, this`tail, this`entry, this`pc, this`queue, this`place, this`sent, this`taken
      ensures Valid() && old(queue) != [] && old(sent) != []
      ensures pc == old(pc)[t := Busy(Draining(size, old(queue)[0]))]
      ensures taken == old(taken)[t := old(sent)[0]] && sent == old(sent)[1..] && queue == old(queue)[1..]
    {
      hide Stored, Holders, Orderly;
      ghost var items := entry;
      ghost var m;
      var b;
      b, m := PopHead(t);
      var p := Busy(Draining(size, b));
      HoldersTake(pc, next, data, old(place), taken, taken[t := m], msgSize, t, b, p);
      ReceiverDone(pc, prio, recvWait, items, sendWait, |freeList|, t, p);
      pc, taken := pc[t := p], taken[t := m];
    }

    /** The waiting loop of rt_mq_recv. */
    method TryRecv(t: ThreadId, size: nat, timeout: int) returns (r: Outcome)
      requires Valid() && t in pc && (pc[t].Idle? || pc[t].RecvWoken?)
      modifies this`head, this`tail, this`entry, this`recvWait, this`pc, this`queue, this`place, this`sent, this`taken
      ensures Valid() && |old(queue)| == |old(sent)|
      ensures r == if old(queue) == [] && timeout == 0 then TimedOut else Pending
      ensures old(queue) == [] ==>
                && queue == [] && sent == [] && taken == old(taken)
                && pc == old(pc)[t := if timeout == 0 then Idle else RecvWait(size, timeout)]
                && if timeout == 0 then recvWait == old(recvWait) else Queued(old(recvWait), recvWait, t, flag, prio)
      ensures old(queue) != [] ==>
                && pc == old(pc)[t := Busy(Draining(size, old(queue)[0]))] && queue == old(queue)[1..]
                && taken == old(taken)[t := old(sent)[0]] && sent == old(sent)[1..] && recvWait == old(recvWait)
    {
      hide Stored, Holding, Orderly, Queued;
      EmptyFree(blocks, next, data, place, msgSize, head, tail, entry, queue, free, freeList, sent);
      if entry == 0 {
        if timeout == 0 {
          RecvIdle(t);
          return TimedOut;
        }
        WaitToRecv(t, size, timeout);
        return Pending;
      }
      TakeMessage(t, size);
      return Pending;
    }

    /** rt_mq_recv, up to taking a message or waiting for one. */
    method RecvStart(t: ThreadId, size: nat, timeout: int) returns (r: Outcome)
      requires Valid() && t in pc && pc[t].Idle?
      modifies this`head, this`tail, this`entry, this`recvWait, this`pc, this`queue, this`place, this`sent, this`taken
      ensures Valid() && |old(queue)| == |old(sent)|
      ensures r == if old(queue) == [] && timeout == 0 then TimedOut else Pending
      ensures old(queue) == [] ==>
                && queue == [] && sent == [] && taken == old(taken)
                && pc == (if timeout == 0 then old(pc) else old(pc)[t := RecvWait(size, timeout)])
                && if timeout == 0 then recvWait == old(recvWait) else Queued(old(recvWait), recvWait, t, flag, prio)
      ensures old(queue) != [] ==>
                && pc == old(pc)[t := Busy(Draining(size, old(queue)[0]))] && queue == old(queue)[1..]
                && taken == old(taken)[t := old(sent)[0]] && sent == old(sent)[1..] && recvWait == old(recvWait)
    {
      hide Stored, Holding, Orderly, Queued;
      EmptyFree(blocks, next, data, place, msgSize, head, tail, entry, queue, free, freeList, sent);
      if entry == 0 && timeout == 0 {
        return TimedOut;
      }
      r := TryRecv(t, size, timeout);
    }

    /** A resumed receiver looks again, after `elapsed` ticks. */
    method RecvResume(t: ThreadId, elapsed: nat) returns (r: Outcome)
      requires Valid() && t in pc && pc[t].RecvWoken?
      modifies this`head, this`tail, this`entry, this`recvWait, this`pc, this`queue, this`place, this`sent, this`taken
      ensures Valid() && |old(queue)| == |old(sent)|
      ensures var size, timeout := old(pc)[t].want, Left(old(pc)[t].timeout, elapsed);
              && r == (if old(queue) == [] && timeout == 0 then TimedOut else Pending)
              && (old(queue) == [] ==>
                    && queue == [] && sent == [] && taken == old(taken)
                    && pc == old(pc)[t := if timeout == 0 then Idle else RecvWait(size, timeout)]
                    && if timeout == 0 then recvWait == old(recvWait)
                        else Queued(old(recvWait), recvWait, t, flag, prio))
              && (old(queue) != [] ==>
                    && pc == old(pc)[t := Busy(Draining(size, old(queue)[0]))] && queue == old(queue)[1..]
                    && taken == old(taken)[t := old(sent)[0]] && sent == old(sent)[1..] && recvWait == old(recvWait))
    {
      hide Pool, Holding, Orderly, Queued;
      r := TryRecv(t, pc[t].want, Left(pc[t].timeout, elapsed));
    }

    /** The unlocked part of a receive: what is copied out is the message that was taken. */
    method Drain(t: ThreadId) returns (out: seq<byte>)
      requires Valid() && t in pc && IsDraining(pc[t])
      modifies this`pc
      ensures Valid() && pc == old(pc)[t := Busy(Drained(old(pc)[t].work.b))]
      ensures |out| == Min(old(pc)[t].work.size, msgSize) && t in taken && Agree(out, taken[t])
    {
      hide Stored, Orderly;
      var size, b := pc[t].work.size, pc[t].work.b;
      assert HolderOk(pc[t], t, next, data, place, taken, msgSize);
      BlockSize(blocks, next, data, place, msgSize, head, tail, entry, queue, free, freeList, sent, b);
      out := data[b][..if size > msgSize then msgSize else size];
      HoldersSee(pc, next, data, place, taken, msgSize, t);
      WorkDone(pc, prio, recvWait, entry, sendWait, |freeList|, t, Busy(Drained(b)));
      pc := pc[t := Busy(Drained(b))];
    }

    /** Link a block into the free list. */
    method PushFree(b: Block)
      requires Pool() && b in place && place[b].Held? && b in next
      modifies this`next, this`free, this`freeList, this`place
      ensures Pool() && freeList == [b] + old(freeList) && place == old(place)[b := InFree]
      ensures LinksKept(old(next), next, old(place), b)
    {
      hide Stored;
      GiveBack(blocks, next, data, place, msgSize, head, tail, entry, queue, free, freeList, sent, b);
      next := next[b := free];
      free, freeList, place := b, [b] + freeList, place[b := InFree];
    }

    /** Put the drained block on the free list. */
    method PutBack(t: ThreadId)
      requires Valid() && t in pc && IsDrained(pc[t])
      modifies this`next, this`free, this`pc, this`freeList, this`place
      ensures Pool() && Holding() && Orderly(pc, prio, recvWait, entry, sendWait, |freeList| - 1)
      ensures pc == old(pc)[t := Idle] && freeList == [old(pc)[t].work.b] + old(freeList)
    {
      hide Stored, Orderly, Holders, LinksKept;
      var b := pc[t].work.b;
      DrainedBlock(pc, next, data, place, taken, msgSize, t);
      WorkDone(pc, prio, recvWait, entry, sendWait, |freeList|, t, Idle);
      PushFree(b);
      HoldersDrop(pc, old(next), next, data, old(place), taken, msgSize, t, InFree);
      pc := pc[t := Idle];
    }

    /** Resume the first suspended sender, if any: it is on its way to the block just freed. */
    method ResumeSender()
      requires Pool() && Holding() && Orderly(pc, prio, recvWait, entry, sendWait, |freeList| - 1)
      modifies this`pc, this`sendWait
      ensures Valid() && sendWait == Tail(old(sendWait)) && pc == WakeSender(old(pc), old(sendWait))
    {
      hide Stored, Orderly, Holders;
      SpaceIn(pc, prio, recvWait, entry, sendWait, |freeList| - 1);
      if sendWait == [] {
        return;
      }
      var w := sendWait[0];
      WaiterMessage(pc, next, data, place, taken, msgSize, w);
      HoldersMove(pc, next, data, place, taken, msgSize, w, SendWoken(pc[w].m, pc[w].timeout));
      sendWait, pc := sendWait[1..], pc[w := SendWoken(pc[w].m, pc[w].timeout)];
    }

    /** The second locked region of rt_mq_recv: give the block back and resume a sender. */
    method Finish(t: ThreadId) returns (r: Outcome)
      requires Valid() && t in pc && IsDrained(pc[t])
      modifies this`next, this`free, this`pc, this`sendWait, this`freeList, this`place
      ensures Valid() && r.Ok?
      ensures freeList == [old(pc)[t].work.b] + old(freeList)
      ensures sendWait == Tail(old(sendWait)) && pc == WakeSender(old(pc)[t := Idle], old(sendWait))
    {
      hide Pool, Holding, Orderly, Queued;
      PutBack(t);
      ResumeSender();
      return Ok;
    }

    // ---------------------------------------------------------------- timers and reset

    /** A suspended thread is resumed with an error, by its timer or by a reset: its call will return that. */
    method GiveUp(t: ThreadId)
      requires Valid() && t in pc && (pc[t].SendWait? || pc[t].RecvWait?)
      modifies this`pc, this`sendWait, this`recvWait
      ensures Valid() && pc == old(pc)[t := Idle]
      ensures if old(pc)[t].SendWait? then Dropped(old(sendWait), sendWait, t) && recvWait == old(recvWait)
              else Dropped(old(recvWait), recvWait, t) && sendWait == old(sendWait)
      ensures |sendWait| + |recvWait| < |old(sendWait)| + |old(recvWait)|
    {
      hide Stored, Holders, Dropped, Orderly;
      HoldersMove(pc, next, data, place, taken, msgSize, t, Idle);
      WhoWaits(pc, prio, recvWait, entry, sendWait, |freeList|, t);
      ghost var recvWait0, sendWait0 := recvWait, sendWait;
      if pc[t].SendWait? {
        sendWait := Remove(sendWait, t);
      } else {
        recvWait := Remove(recvWait, t);
      }
      GivesUp(pc, prio, recvWait0, recvWait, entry, sendWait0, sendWait, |freeList|, t);
      pc := pc[t := Idle];
    }

    /** _ipc_list_resume_all on both lists. */
    method ResumeAll()
      requires Valid()
      modifies this`pc, this`sendWait, this`recvWait
      ensures Valid() && recvWait == [] && sendWait == [] && AllResumed(old(pc), pc)
    {
      hide Stored, Holders, Orderly;
      while recvWait != [] || sendWait != []
        invariant Valid() && pc.Keys == old(pc.Keys)
        invariant forall t | t in pc ::
                    pc[t] == old(pc)[t]
                    || ((old(pc)[t].SendWait? || old(pc)[t].RecvWait?) && pc[t] == Idle)
        decreases |sendWait| + |recvWait|
      {
        WaitersKnown(pc, prio, recvWait, entry, sendWait, |freeList|);
        GiveUp(if recvWait != [] then recvWait[0] else sendWait[0]);
      }
      NobodyWaits(pc, prio, entry, |freeList|, entry, |freeList|);
    }

    /** rt_mq_control with RT_IPC_CMD_RESET: resume everybody, and empty the queue into the free list. */
    method Reset()
      requires Valid()
      modifies this`next, this`head, this`tail, this`entry, this`queue, this`place, this`sent, this`free, this`freeList,
               this`pc, this`sendWait, this`recvWait
      ensures Valid() && recvWait == [] && sendWait == [] && sent == [] && queue == []
      ensures AllResumed(old(pc), pc)
      ensures freeList == Reversed(old(queue)) + old(freeList)
    {
      hide Stored, Holders, LinksKept, Orderly, AllResumed;
      ResumeAll();
      Drop();
    }

    /** Move the first queued block to the free list, dropping its message. */
    method MoveFirst()
      requires Valid() && recvWait == [] && sendWait == [] && entry > 0
      modifies this`next, this`head, this`tail, this`entry, this`queue, this`place, this`sent, this`free, this`freeList
      ensures Valid() && entry == old(entry) - 1
      ensures old(queue) != [] && queue == old(queue)[1..] && freeList == [old(queue)[0]] + old(freeList)
    {
      hide Stored, Holders, Orderly;
      NobodyWaits(pc, prio, entry, |freeList|, entry - 1, |freeList| + 1);
      ghost var m;
      var b;
      b, m := PopHead(0);
      PushFree(b);
      assert place == old(place)[b := InFree];
      HoldersShift(pc, old(next), next, data, old(place), taken, msgSize, b, InFree);
    }

    /** Move the whole queue to the free list, while nobody waits. */
    method Drop()
      requires Valid() && recvWait == [] && sendWait == []
      modifies this`next, this`head, this`tail, this`entry, this`queue, this`place, this`sent, this`free, this`freeList
      ensures Valid() && sent == [] && queue == []
      ensures freeList == Reversed(old(queue)) + old(freeList)
    {
      hide Stored, LinksKept, Holders, Orderly;
      EmptyFree(blocks, next, data, place, msgSize, head, tail, entry, queue, free, freeList, sent);
      while head != NIL
        invariant Valid() && recvWait == [] && sendWait == [] && pc == old(pc)
        invariant Reversed(queue) + freeList == Reversed(old(queue)) + old(freeList)
        decreases entry
      {
        EmptyFree(blocks, next, data, place, msgSize, head, tail, entry, queue, free, freeList, sent);
        ghost var queue1, freeList1 := queue, freeList;
        MoveFirst();
        assert Reversed(queue1) + freeList1 == Reversed(queue) + ([queue1[0]] + freeList1);
      }
      EmptyFree(blocks, next, data, place, msgSize, head, tail, entry, queue, free, freeList, sent);
    }
  }

  /** What was copied out is the message, as far as both go. */
  predicate Agree(out: seq<byte>, m: seq<byte>) {
    var n := Min(|m|, |out|); out[..n] == m[..n]
  }

  function Reversed(s: seq<Block>): seq<Block> {
    if s == [] then [] else Reversed(s[1..]) + [s[0]]
  }

  /** The loop of rt_mq_init: each block is put before the ones already free. */
  method LinkPool(maxMsgs: nat) returns (links: map<Block, int>, first: int, ghost list: seq<Block>)
    ensures Chain(links, first, list) && NoRepeats(list) && |list| == maxMsgs
    ensures forall b: int :: b in list <==> 0 <= b < maxMsgs
    ensures forall b: int :: b in links <==> 0 <= b < maxMsgs
  {
    hide Chain, NoRepeats;
    links, first, list := map[], NIL, [];
    NoBlocks();
    for temp := 0 to maxMsgs
      invariant Chain(links, first, list) && NoRepeats(list) && |list| == temp
      invariant forall b: int :: b in list <==> 0 <= b < temp
      invariant forall b: int :: b in links <==> 0 <= b < temp
    {
      PushBlock(links, first, list, temp);
      links := links[temp := first];
      first := temp;
      list := [temp] + list;
    }
  }

  lemma NoBlocks()
    ensures Chain(map[], NIL, []) && NoRepeats([])
  {
  }

  lemma PushBlock(links: map<Block, int>, first: int, list: seq<Block>, b: Block)
    requires Chain(links, first, list) && NoRepeats(list) && b !in list && b != NIL
    ensures Chain(links[b := first], b, [b] + list) && NoRepeats([b] + list)
    ensures forall x :: x in [b] + list <==> x == b || x in list
  {
    hide Chain;
    ChainPush(links, first, list, b);
  }

  /** A fresh pool: every block is free. */
  lemma FreshPool(blocks: set<Block>, next: map<Block, int>, data: map<Block, seq<byte>>, place: map<Block, Place>,
                  msgSize: nat,
                  free: int, freeList: seq<Block>, maxMsgs: nat)
    requires forall b: int :: b in data <==> 0 <= b < maxMsgs
    requires forall b: int :: b in next <==> 0 <= b < maxMsgs
    requires forall b: int :: b in freeList <==> 0 <= b < maxMsgs
    requires blocks == data.Keys && place.Keys == data.Keys
    requires forall b | b in data :: |data[b]| == msgSize
    requires forall b | b in place :: place[b] == InFree
    requires Chain(next, free, freeList) && NoRepeats(freeList)
    ensures Stored(blocks, next, data, place, msgSize, NIL, NIL, 0, [], free, freeList, []) && |blocks| == maxMsgs
  {
    hide Chain, NoRepeats;
    PoolSize(blocks, maxMsgs);
    assert next.Keys == blocks;
    EmptyQueue(next);
  }

  lemma EmptyQueue(next: map<Block, int>)
    ensures Chain(next, NIL, []) && NoRepeats([])
  {
  }

  lemma FreshThreads(pc: Threads, next: map<Block, int>, data: map<Block, seq<byte>>, place: map<Block, Place>,
                     msgSize: nat)
    requires forall t | t in pc :: pc[t].Idle?
    requires forall b | b in place :: place[b] == InFree
    ensures Holders(pc, next, data, place, map[], msgSize)
  {
  }

  lemma EmptyFree(blocks: set<Block>, next: map<Block, int>, data: map<Block, seq<byte>>, place: map<Block, Place>,
                  msgSize: nat,
                  head: int, tail: int, entry: nat, queue: seq<Block>, free: int, freeList: seq<Block>,
                  sent: seq<seq<byte>>)
    requires Stored(blocks, next, data, place, msgSize, head, tail, entry, queue, free, freeList, sent)
    ensures free == NIL <==> freeList == []
    ensures freeList != [] ==> freeList[0] == free
    ensures head == NIL <==> queue == []
    ensures entry == |queue| == |sent|
  {
  }

  lemma BlockSize(blocks: set<Block>, next: map<Block, int>, data: map<Block, seq<byte>>, place: map<Block, Place>,
                  msgSize: nat,
                  head: int, tail: int, entry: nat, queue: seq<Block>, free: int, freeList: seq<Block>,
                  sent: seq<seq<byte>>, b: Block)
    requires Stored(blocks, next, data, place, msgSize, head, tail, entry, queue, free, freeList, sent) && b in data
    ensures |data[b]| == msgSize
  {
  }

  lemma TailPlace(blocks: set<Block>, next: map<Block, int>, data: map<Block, seq<byte>>, place: map<Block, Place>,
                  msgSize: nat,
                  head: int, tail: int, entry: nat, queue: seq<Block>, free: int, freeList: seq<Block>,
                  sent: seq<seq<byte>>)
    requires Stored(blocks, next, data, place, msgSize, head, tail, entry, queue, free, freeList, sent)
    ensures tail != NIL ==> tail in place && place[tail] == InQueue
  {
    if queue != [] {
      assert tail in queue;
    }
  }

  lemma DrainedBlock(pc: Threads, next: map<Block, int>, data: map<Block, seq<byte>>, place: map<Block, Place>,
                     taken: map<ThreadId, seq<byte>>, msgSize: nat, t: ThreadId)
    requires Holders(pc, next, data, place, taken, msgSize) && t in pc && pc[t].Busy?
    ensures pc[t].work.b in place && place[pc[t].work.b] == Held(t) && pc[t].work.b in next
  {
    assert HolderOk(pc[t], t, next, data, place, taken, msgSize);
  }

  lemma WaiterMessage(pc: Threads, next: map<Block, int>, data: map<Block, seq<byte>>, place: map<Block, Place>,
                      taken: map<ThreadId, seq<byte>>, msgSize: nat, t: ThreadId)
    requires Holders(pc, next, data, place, taken, msgSize) && t in pc && (pc[t].SendWait? || pc[t].SendWoken?)
    ensures 0 < |pc[t].m| <= msgSize
  {
    assert HolderOk(pc[t], t, next, data, place, taken, msgSize);
  }
}
