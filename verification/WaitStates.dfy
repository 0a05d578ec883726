/** Where the threads calling a blocking object stand between its locked regions. */
module WaitStates {
  import opened Sequences
  import opened Machine
  import opened WaitList

  /**
   A sender has item `m` to leave, a receiver wants an item and says how with `want`;
   a negative timeout waits forever.  A busy thread has unlocked work to do.
   */
  datatype Stand<M, N, W> =
    | Idle
    | SendWait(m: M, timeout: int)      // on the sender list
    | SendWoken(m: M, timeout: int)     // resumed, about to look again
    | RecvWait(want: N, timeout: int)
    | RecvWoken(want: N, timeout: int)
    | Busy(work: W)

  type Stands<M, N, W> = map<ThreadId, Stand<M, N, W>>

  /** The lists are exactly the waiting threads. */
  ghost predicate Waiting<M, N, W>(pc: Stands<M, N, W>, recvWait: seq<ThreadId>, sendWait: seq<ThreadId>) {
    && NoRepeats(recvWait) && NoRepeats(sendWait)
    && (forall t {:trigger t in recvWait} {:trigger pc[t]} :: t in recvWait <==> t in pc && pc[t].RecvWait?)
    && (forall t {:trigger t in sendWait} {:trigger pc[t]} :: t in sendWait <==> t in pc && pc[t].SendWait?)
  }

  /** The receivers that were resumed and have not looked again yet. */
  ghost function WokenReceivers<M, N, W>(pc: Stands<M, N, W>): set<ThreadId> {
    set t | t in pc && pc[t].RecvWoken?
  }

  ghost function WokenSenders<M, N, W>(pc: Stands<M, N, W>): set<ThreadId> {
    set t | t in pc && pc[t].SendWoken?
  }

  /**
   No wake-up is lost: while receivers wait, every item has a woken receiver on its
   way to it, and the same for senders and free places.
   */
  ghost predicate NoneLost<M, N, W>(pc: Stands<M, N, W>, recvWait: seq<ThreadId>, items: int,
                                    sendWait: seq<ThreadId>, spaces: int) {
    && (recvWait != [] ==> items <= |WokenReceivers(pc)|)
    && (sendWait != [] ==> spaces <= |WokenSenders(pc)|)
  }

  /** Everything about the threads. */
  ghost predicate Orderly<M, N, W>(pc: Stands<M, N, W>, prio: map<ThreadId, nat>, recvWait: seq<ThreadId>, items: int,
                                   sendWait: seq<ThreadId>, spaces: int) {
    && (forall t | t in pc :: t in prio)
    && Waiting(pc, recvWait, sendWait) && NoneLost(pc, recvWait, items, sendWait, spaces)
  }

  lemma WaitersKnown<M, N, W>(pc: Stands<M, N, W>, prio: map<ThreadId, nat>, recvWait: seq<ThreadId>, items: int,
                              sendWait: seq<ThreadId>, spaces: int)
    requires Orderly(pc, prio, recvWait, items, sendWait, spaces)
    ensures forall t | t in pc :: t in prio
    ensures forall k | 0 <= k < |recvWait| :: recvWait[k] in prio
    ensures forall k | 0 <= k < |sendWait| :: sendWait[k] in prio
    ensures recvWait != [] ==> recvWait[0] in pc && pc[recvWait[0]].RecvWait?
    ensures sendWait != [] ==> sendWait[0] in pc && pc[sendWait[0]].SendWait?
    ensures NoRepeats(recvWait) && NoRepeats(sendWait)
  {
    forall k | 0 <= k < |recvWait| ensures recvWait[k] in prio {
      var t := recvWait[k];
      assert t in recvWait;
    }
    forall k | 0 <= k < |sendWait| ensures sendWait[k] in prio {
      var t := sendWait[k];
      assert t in sendWait;
    }
    if recvWait != [] {
      var t := recvWait[0];
      assert t in recvWait;
    }
    if sendWait != [] {
      var t := sendWait[0];
      assert t in sendWait;
    }
  }

  /** The waiting threads are those on the lists. */
  lemma WhoWaits<M, N, W>(pc: Stands<M, N, W>, prio: map<ThreadId, nat>, recvWait: seq<ThreadId>, items: int,
                          sendWait: seq<ThreadId>, spaces: int, t: ThreadId)
    requires Orderly(pc, prio, recvWait, items, sendWait, spaces) && t in pc
    ensures t in recvWait <==> pc[t].RecvWait?
    ensures t in sendWait <==> pc[t].SendWait?
    ensures NoRepeats(recvWait) && NoRepeats(sendWait)
  {
  }

  lemma WokenCounts<M, N, W>(pc: Stands<M, N, W>, t: ThreadId, p: Stand<M, N, W>)
    requires t in pc
    ensures |WokenReceivers(pc[t := p])|
         == |WokenReceivers(pc)| + (if p.RecvWoken? then 1 else 0) - (if pc[t].RecvWoken? then 1 else 0)
    ensures |WokenSenders(pc[t := p])|
         == |WokenSenders(pc)| + (if p.SendWoken? then 1 else 0) - (if pc[t].SendWoken? then 1 else 0)
  {
    SetSwap(WokenReceivers(pc), WokenReceivers(pc[t := p]), t);
    SetSwap(WokenSenders(pc), WokenSenders(pc[t := p]), t);
  }

  /** A receiver that may look takes an item, or finds none and gives up. */
  lemma ReceiverDone<M, N, W>(pc: Stands<M, N, W>, prio: map<ThreadId, nat>, recvWait: seq<ThreadId>, items: nat,
                              sendWait: seq<ThreadId>, spaces: int, t: ThreadId, p: Stand<M, N, W>)
    requires Orderly(pc, prio, recvWait, items, sendWait, spaces)
    requires t in pc && (pc[t].Idle? || pc[t].RecvWoken?) && (p.Idle? || p.Busy?)
    ensures Orderly(pc[t := p], prio, recvWait, Max(items - 1, 0), sendWait, spaces)
  {
    WokenCounts(pc, t, p);
  }

  lemma SenderDone<M, N, W>(pc: Stands<M, N, W>, prio: map<ThreadId, nat>, recvWait: seq<ThreadId>, items: int,
                            sendWait: seq<ThreadId>, spaces: nat, t: ThreadId, p: Stand<M, N, W>)
    requires Orderly(pc, prio, recvWait, items, sendWait, spaces)
    requires t in pc && (pc[t].Idle? || pc[t].SendWoken?) && (p.Idle? || p.Busy?)
    ensures Orderly(pc[t := p], prio, recvWait, items, sendWait, Max(spaces - 1, 0))
  {
    WokenCounts(pc, t, p);
  }

  /** A thread goes on with its unlocked work, or ends it. */
  lemma WorkDone<M, N, W>(pc: Stands<M, N, W>, prio: map<ThreadId, nat>, recvWait: seq<ThreadId>, items: int,
                          sendWait: seq<ThreadId>, spaces: int, t: ThreadId, p: Stand<M, N, W>)
    requires Orderly(pc, prio, recvWait, items, sendWait, spaces)
    requires t in pc && pc[t].Busy? && (p.Idle? || p.Busy?)
    ensures Orderly(pc[t := p], prio, recvWait, items, sendWait, spaces)
  {
    WokenCounts(pc, t, p);
  }

  /** A receiver that finds nothing joins the list. */
  lemma ReceiverWaits<M, N, W>(pc: Stands<M, N, W>, prio: map<ThreadId, nat>,
                               recvWait: seq<ThreadId>, recvWait': seq<ThreadId>,
                               sendWait: seq<ThreadId>, spaces: int, t: ThreadId, want: N, timeout: int, i: nat)
    requires Orderly(pc, prio, recvWait, 0, sendWait, spaces) && t in pc && (pc[t].Idle? || pc[t].RecvWoken?)
    requires Inserted(recvWait, recvWait', t, i)
    ensures Orderly(pc[t := RecvWait(want, timeout)], prio, recvWait', 0, sendWait, spaces)
  {
    InsertedMembers(recvWait, recvWait', t, i);
    WokenCounts(pc, t, RecvWait(want, timeout));
  }

  lemma SenderWaits<M, N, W>(pc: Stands<M, N, W>, prio: map<ThreadId, nat>, recvWait: seq<ThreadId>, items: int,
                             sendWait: seq<ThreadId>, sendWait': seq<ThreadId>, t: ThreadId, m: M, timeout: int, i: nat)
    requires Orderly(pc, prio, recvWait, items, sendWait, 0) && t in pc && (pc[t].Idle? || pc[t].SendWoken?)
    requires Inserted(sendWait, sendWait', t, i)
    ensures Orderly(pc[t := SendWait(m, timeout)], prio, recvWait, items, sendWait', 0)
  {
    InsertedMembers(sendWait, sendWait', t, i);
    WokenCounts(pc, t, SendWait(m, timeout));
  }

  /** The threads after one more item came in: the first waiting receiver is woken. */
  function WakeReceiver<M, N, W>(pc: Stands<M, N, W>, recvWait: seq<ThreadId>): Stands<M, N, W> {
    if recvWait != [] && recvWait[0] in pc && pc[recvWait[0]].RecvWait? then
      pc[recvWait[0] := RecvWoken(pc[recvWait[0]].want, pc[recvWait[0]].timeout)]
    else pc
  }

  function WakeSender<M, N, W>(pc: Stands<M, N, W>, sendWait: seq<ThreadId>): Stands<M, N, W> {
    if sendWait != [] && sendWait[0] in pc && pc[sendWait[0]].SendWait? then
      pc[sendWait[0] := SendWoken(pc[sendWait[0]].m, pc[sendWait[0]].timeout)]
    else pc
  }

  function Tail(s: seq<ThreadId>): seq<ThreadId> {
    if s == [] then [] else s[1..]
  }

  // ---------------------------------------------------------------- the time left

  /** Thread `t` stands in a call that waits, or has been woken from it. */
  predicate InWait<M, N, W>(pc: Stands<M, N, W>, t: ThreadId) {
    t in pc && (pc[t].SendWait? || pc[t].SendWoken? || pc[t].RecvWait? || pc[t].RecvWoken?)
  }

  /** The time that such a thread still has; negative is for ever. */
  function TimeLeft<M, N, W>(pc: Stands<M, N, W>, t: ThreadId): int {
    if InWait(pc, t) then pc[t].timeout else 0
  }

  /** Thread `t` waits on as it did, or was not waiting. */
  ghost predicate WaitsOn<M, N, W>(pc: Stands<M, N, W>, pc': Stands<M, N, W>, t: ThreadId) {
    (InWait(pc, t) <==> InWait(pc', t)) && TimeLeft(pc', t) == TimeLeft(pc, t)
  }

  /** A wake-up leaves every thread the time it has. */
  lemma WakingKeepsTime<M, N, W>(pc: Stands<M, N, W>, list: seq<ThreadId>, t: ThreadId)
    ensures WaitsOn(pc, WakeReceiver(pc, list), t) && WaitsOn(pc, WakeSender(pc, list), t)
  {
  }

  /** Only a thread that waits is woken, and what it was about stays. */
  lemma WakingKeeps<M, N, W>(pc: Stands<M, N, W>, list: seq<ThreadId>, t: ThreadId)
    ensures var pc' := WakeReceiver(pc, list);
            && (t in pc' <==> t in pc)
            && (t in pc ==> pc'[t] == pc[t] || (pc[t].RecvWait? && pc'[t] == RecvWoken(pc[t].want, pc[t].timeout)))
    ensures var pc' := WakeSender(pc, list);
            && (t in pc' <==> t in pc)
            && (t in pc ==> pc'[t] == pc[t] || (pc[t].SendWait? && pc'[t] == SendWoken(pc[t].m, pc[t].timeout)))
  {
  }

  lemma ItemIn<M, N, W>(pc: Stands<M, N, W>, prio: map<ThreadId, nat>, recvWait: seq<ThreadId>, items: int,
                        sendWait: seq<ThreadId>, spaces: int)
    requires Orderly(pc, prio, recvWait, items, sendWait, spaces)
    ensures recvWait != [] ==> recvWait[0] in pc && pc[recvWait[0]].RecvWait?
    ensures Orderly(WakeReceiver(pc, recvWait), prio, Tail(recvWait), items + 1, sendWait, spaces)
  {
    WaitersKnown(pc, prio, recvWait, items, sendWait, spaces);
    if recvWait != [] {
      HeadRemoved(recvWait);
      WokenCounts(pc, recvWait[0], RecvWoken(pc[recvWait[0]].want, pc[recvWait[0]].timeout));
    }
  }

  lemma SpaceIn<M, N, W>(pc: Stands<M, N, W>, prio: map<ThreadId, nat>, recvWait: seq<ThreadId>, items: int,
                         sendWait: seq<ThreadId>, spaces: int)
    requires Orderly(pc, prio, recvWait, items, sendWait, spaces)
    ensures sendWait != [] ==> sendWait[0] in pc && pc[sendWait[0]].SendWait?
    ensures Orderly(WakeSender(pc, sendWait), prio, recvWait, items, Tail(sendWait), spaces + 1)
  {
    WaitersKnown(pc, prio, recvWait, items, sendWait, spaces);
    if sendWait != [] {
      HeadRemoved(sendWait);
      WokenCounts(pc, sendWait[0], SendWoken(pc[sendWait[0]].m, pc[sendWait[0]].timeout));
    }
  }

  /** A waiting thread leaves its list with an error. */
  lemma GivesUp<M, N, W>(pc: Stands<M, N, W>, prio: map<ThreadId, nat>, recvWait: seq<ThreadId>,
                         recvWait': seq<ThreadId>,
                         items: int, sendWait: seq<ThreadId>, sendWait': seq<ThreadId>, spaces: int, t: ThreadId)
    requires Orderly(pc, prio, recvWait, items, sendWait, spaces) && t in pc && (pc[t].RecvWait? || pc[t].SendWait?)
    requires NoRepeats(recvWait') && NoRepeats(sendWait')
    requires forall x :: x in recvWait' <==> x in recvWait && x != t
    requires forall x :: x in sendWait' <==> x in sendWait && x != t
    ensures Orderly(pc[t := Idle], prio, recvWait', items, sendWait', spaces)
  {
    WokenCounts(pc, t, Idle);
    if recvWait' != [] {
      var x := recvWait'[0];
      assert x in recvWait' && x in recvWait;
    }
    if sendWait' != [] {
      var x := sendWait'[0];
      assert x in sendWait' && x in sendWait;
    }
  }

  /** Every thread that waited returns. */
  ghost predicate AllResumed<M, N, W>(pc: Stands<M, N, W>, pc': Stands<M, N, W>) {
    && pc'.Keys == pc.Keys
    && (forall t | t in pc :: pc'[t] == if pc[t].SendWait? || pc[t].RecvWait? then Idle else pc[t])
  }

  /** With nobody waiting, the numbers do not matter. */
  lemma NobodyWaits<M, N, W>(pc: Stands<M, N, W>, prio: map<ThreadId, nat>, items: int, spaces: int, items': int,
                             spaces': int)
    requires Orderly(pc, prio, [], items, [], spaces)
    ensures Orderly(pc, prio, [], items', [], spaces')
    ensures forall t | t in pc :: !pc[t].RecvWait? && !pc[t].SendWait?
  {
    forall t | t in pc ensures !pc[t].RecvWait? && !pc[t].SendWait? {
      assert t !in [];
    }
  }

  lemma NobodyYet<M, N, W>(pc: Stands<M, N, W>, prio: map<ThreadId, nat>, items: int, spaces: int)
    requires forall t | t in pc :: t in prio && pc[t].Idle?
    ensures Orderly(pc, prio, [], items, [], spaces)
  {
  }
}
