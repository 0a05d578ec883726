/** Mailboxes of ipc.c: a ring of words between senders and receivers that may both wait. */
module Mailbox {
  import opened Sequences
  import opened Machine
  import opened WaitList
  import opened WaitStates
  import opened Traces

  const ENTRY_MAX: int := 65535   // RT_MB_ENTRY_MAX

  /** Senders bring a word. */
  type Threads = Stands<nat, (), ()>

  datatype Outcome = Pending | Ok | Full | TimedOut

  /** Position `i` places behind `o` in a ring of `n`. */
  function Slot(o: nat, i: nat, n: nat): int {
    if o + i >= n then o + i - n else o + i
  }

  /** The ring holds the mails `mails`, starting at `o`. */
  ghost predicate Ring(pool: seq<nat>, o: nat, i: nat, entry: nat, mails: seq<nat>) {
    && (|pool| > 0 ==> o < |pool| && i == Slot(o, entry, |pool|))
    && entry == |mails| <= |pool|
    && (forall k | 0 <= k < |mails| :: 0 <= Slot(o, k, |pool|) < |pool| && pool[Slot(o, k, |pool|)] == mails[k])
  }

  /** rt_mb_send_wait stores at `i` and steps forward. */
  lemma RingAppend(pool: seq<nat>, o: nat, i: nat, entry: nat, mails: seq<nat>, v: nat)
    requires Ring(pool, o, i, entry, mails) && entry < |pool|
    ensures i < |pool|
    ensures Ring(pool[i := v], o, if i + 1 >= |pool| then 0 else i + 1, entry + 1, mails + [v])
  {
  }

  /** rt_mb_urgent steps back from `o` and stores there. */
  lemma RingPrepend(pool: seq<nat>, o: nat, i: nat, entry: nat, mails: seq<nat>, v: nat)
    requires Ring(pool, o, i, entry, mails) && entry < |pool|
    ensures var o' := if o > 0 then o - 1 else |pool| - 1;
            Ring(pool[o' := v], o', i, entry + 1, [v] + mails)
  {
    var n := |pool|;
    var o' := if o > 0 then o - 1 else n - 1;
    forall k | 0 <= k < entry ensures Slot(o', k + 1, n) == Slot(o, k, n) != o' {
    }
  }

  /** rt_mb_recv reads at `o` and steps forward. */
  lemma RingPop(pool: seq<nat>, o: nat, i: nat, entry: nat, mails: seq<nat>)
    requires Ring(pool, o, i, entry, mails) && entry > 0
    ensures o < |pool| && pool[o] == mails[0]
    ensures Ring(pool, if o + 1 >= |pool| then 0 else o + 1, i, entry - 1, mails[1..])
  {
    var n := |pool|;
    var o' := if o + 1 >= n then 0 else o + 1;
    assert Slot(o, 0, n) == o;
    forall k | 0 <= k < entry - 1 ensures 0 <= Slot(o', k, n) < n && pool[Slot(o', k, n)] == mails[1..][k] {
      assert Slot(o', k, n) == Slot(o, k + 1, n);
    }
  }

  class Box {
    const msgPool: array<nat>
    const flag: Discipline
    const prio: map<ThreadId, nat>
    var inOffset: nat
    var outOffset: nat
    var entry: nat
    var recvWait: seq<ThreadId>
    var sendWait: seq<ThreadId>
    var pc: Threads
    ghost var mails: seq<nat>

    ghost predicate Held()
      reads this, msgPool
    {
      && msgPool.Length <= ENTRY_MAX      // `size` is 16 bits
      && Ring(msgPool[..], outOffset, inOffset, entry, mails)
    }

    ghost predicate Valid()
      reads this, msgPool
    {
      Held() && Orderly(pc, prio, recvWait, entry, sendWait, msgPool.Length - entry)
    }

    ghost function Seen(): View
      reads this
    {
      View(mails, recvWait, sendWait, pc)
    }

    lemma SeenSound()
      requires Valid()
      ensures Sound(this, Seen())
    {
      hide Orderly;
    }

    /** rt_mb_init; `size` is kept in 16 bits. */
    constructor (size: nat, flag: Discipline, prio: map<ThreadId, nat>)
      ensures Valid() && fresh(msgPool) && msgPool.Length == size % (ENTRY_MAX + 1) && mails == []
      ensures pc.Keys == prio.Keys && forall t | t in pc :: pc[t] == Idle
    {
      msgPool := new nat[size % (ENTRY_MAX + 1)];
      this.flag, this.prio, pc := flag, prio, map t | t in prio :: Idle;
      inOffset, outOffset, entry, recvWait, sendWait, mails := 0, 0, 0, [], [], [];
    }

    // ---------------------------------------------------------------- the ring

    /** Store a mail behind the others. */
    method Append(v: nat)
      requires Held() && entry < msgPool.Length
      modifies this`inOffset, this`entry, this`mails, msgPool
      ensures Held() && mails == old(mails) + [v] && entry == old(entry) + 1
    {
      RingAppend(msgPool[..], outOffset, inOffset, entry, mails, v);
      msgPool[inOffset] := v;
      assert msgPool[..] == old(msgPool[..])[inOffset := v];
      inOffset := inOffset + 1;
      if inOffset >= msgPool.Length {
        inOffset := 0;
      }
      var overflow := entry >= ENTRY_MAX;   // the source would return -RT_EFULL here, after the store
      assert !overflow;
      entry := entry + 1;
      mails := mails + [v];
    }

    /** Store a mail before the others. */
    method Prepend(v: nat)
      requires Held() && entry < msgPool.Length
      modifies this`outOffset, this`entry, this`mails, msgPool
      ensures Held() && mails == [v] + old(mails) && entry == old(entry) + 1
    {
      RingPrepend(msgPool[..], outOffset, inOffset, entry, mails, v);
      if outOffset > 0 {
        outOffset := outOffset - 1;
      } else {
        outOffset := msgPool.Length - 1;
      }
      msgPool[outOffset] := v;
      assert msgPool[..] == old(msgPool[..])[outOffset := v];
      entry := entry + 1;
      mails := [v] + mails;
    }

    /** Read the first mail. */
    method Pop() returns (v: nat)
      requires Held() && entry > 0
      modifies this`outOffset, this`entry, this`mails
      ensures Held() && old(mails) != [] && v == old(mails)[0] && mails == old(mails)[1..] && entry == old(entry) - 1
    {
      RingPop(msgPool[..], outOffset, inOffset, entry, mails);
      v := msgPool[outOffset];
      outOffset := outOffset + 1;
      if outOffset >= msgPool.Length {
        outOffset := 0;
      }
      entry := entry - 1;
      mails := mails[1..];
    }

    // ---------------------------------------------------------------- sending

    /** The store and the wake-up that end a send. */
    method Deliver(t: ThreadId, v: nat, urgent: bool)
      requires Valid() && t in pc && (pc[t].Idle? || pc[t].SendWoken?) && entry < msgPool.Length
      modifies this`inOffset, this`outOffset, this`entry, this`mails, this`pc, this`recvWait, msgPool
      ensures Valid()
      ensures mails == if urgent then [v] + old(mails) else old(mails) + [v]
      ensures recvWait == Tail(old(recvWait))
      ensures pc == WakeReceiver(old(pc)[t := Idle], old(recvWait))
    {
      hide Ring, Orderly, Queued, Dropped;
      SenderDone(pc, prio, recvWait, entry, sendWait, msgPool.Length - entry, t, Idle);
      ItemIn(pc[t := Idle], prio, recvWait, entry, sendWait, msgPool.Length - entry - 1);
      if urgent {
        Prepend(v);
      } else {
        Append(v);
      }
      pc := WakeReceiver(pc[t := Idle], recvWait);
      recvWait := Tail(recvWait);
    }

    /** The waiting loop of rt_mb_send_wait and what follows it. */
    method TrySend(t: ThreadId, v: nat, timeout: int) returns (r: Outcome)
      requires Valid() && t in pc && (pc[t].Idle? || pc[t].SendWoken?)
      modifies this, msgPool
      ensures Valid()
      ensures r == if |old(mails)| < msgPool.Length then Ok else if timeout == 0 then Full else Pending
      ensures mails == if r.Ok? then old(mails) + [v] else old(mails)
      ensures !r.Ok? ==> pc == old(pc)[t := if r.Full? then Idle else SendWait(v, timeout)]
      ensures r.Ok? ==>
                recvWait == Tail(old(recvWait)) && sendWait == old(sendWait)
                && pc == WakeReceiver(old(pc)[t := Idle], old(recvWait))
      ensures !r.Ok? ==> recvWait == old(recvWait)
      ensures if r.Pending? then Queued(old(sendWait), sendWait, t, flag, prio) else sendWait == old(sendWait)
    {
      hide Orderly, Slot, Queued;
      if entry == msgPool.Length {
        if timeout == 0 {
          SenderDone(pc, prio, recvWait, entry, sendWait, 0, t, Idle);
          pc := pc[t := Idle];
          return Full;
        }
        WaitersKnown(pc, prio, recvWait, entry, sendWait, 0);
        InPrio(pc, prio, recvWait, entry, sendWait, 0, t);
        var list, i := Suspend(sendWait, t, flag, prio);
        SenderWaits(pc, prio, recvWait, entry, sendWait, list, t, v, timeout, i);
        sendWait, pc := list, pc[t := SendWait(v, timeout)];
        return Pending;
      }
      Deliver(t, v, false);
      return Ok;
    }

    /** rt_mb_send_wait */
    method Send(t: ThreadId, v: nat, timeout: int) returns (r: Outcome)
      requires Valid() && t in pc && pc[t].Idle?
      modifies this, msgPool
      ensures Valid()
      ensures r == if |old(mails)| < msgPool.Length then Ok else if timeout == 0 then Full else Pending
      ensures mails == if r.Ok? then old(mails) + [v] else old(mails)
      ensures r.Pending? ==> pc == old(pc)[t := SendWait(v, timeout)]
      ensures r.Full? ==> pc == old(pc)
      ensures r.Ok? ==>
                recvWait == Tail(old(recvWait)) && sendWait == old(sendWait)
                && pc == WakeReceiver(old(pc)[t := Idle], old(recvWait))
      ensures !r.Ok? ==> recvWait == old(recvWait)
      ensures if r.Pending? then Queued(old(sendWait), sendWait, t, flag, prio) else sendWait == old(sendWait)
    {
      hide Orderly, Slot, Queued;
      if entry == msgPool.Length && timeout == 0 {
        return Full;
      }
      r := TrySend(t, v, timeout);
    }

    /** A resumed sender looks again, after `elapsed` ticks. */
    method SendResume(t: ThreadId, elapsed: nat) returns (r: Outcome)
      requires Valid() && t in pc && pc[t].SendWoken?
      modifies this, msgPool
      ensures Valid()
      ensures var timeout := Left(old(pc)[t].timeout, elapsed);
              r == if |old(mails)| < msgPool.Length then Ok else if timeout == 0 then Full else Pending
      ensures mails == if r.Ok? then old(mails) + [old(pc)[t].m] else old(mails)
      ensures !r.Ok? ==> pc == old(pc)[t := if r.Full? then Idle
                                       else SendWait(old(pc)[t].m, Left(old(pc)[t].timeout, elapsed))]
      ensures r.Ok? ==>
                recvWait == Tail(old(recvWait)) && sendWait == old(sendWait)
                && pc == WakeReceiver(old(pc)[t := Idle], old(recvWait))
      ensures !r.Ok? ==> recvWait == old(recvWait)
      ensures if r.Pending? then Queued(old(sendWait), sendWait, t, flag, prio) else sendWait == old(sendWait)
    {
      hide Orderly, Slot, Queued;
      r := TrySend(t, pc[t].m, Left(pc[t].timeout, elapsed));
    }

    /** rt_mb_urgent */
    method Urgent(t: ThreadId, v: nat) returns (r: Outcome)
      requires Valid() && t in pc && pc[t].Idle?
      modifies this, msgPool
      ensures Valid()
      ensures r == if |old(mails)| < msgPool.Length then Ok else Full
      ensures mails == if r.Ok? then [v] + old(mails) else old(mails)
      ensures r.Ok? ==> recvWait == Tail(old(recvWait)) && pc == WakeReceiver(old(pc)[t := Idle], old(recvWait))
      ensures !r.Ok? ==> recvWait == old(recvWait) && pc == old(pc)
      ensures sendWait == old(sendWait)
    {
      hide Orderly, Slot, Queued;
      if entry == msgPool.Length {
        return Full;
      }
      Deliver(t, v, true);
      return Ok;
    }

    // ---------------------------------------------------------------- receiving

    /** The waiting loop of rt_mb_recv and what follows it. */
    method TryRecv(t: ThreadId, timeout: int) returns (r: Outcome, v: nat)
      requires Valid() && t in pc && (pc[t].Idle? || pc[t].RecvWoken?)
      modifies this
      ensures Valid()
      ensures r == if old(mails) != [] then Ok else if timeout == 0 then TimedOut else Pending
      ensures r.Ok? ==> v == old(mails)[0] && mails == old(mails)[1..]
      ensures r.Ok? ==>
                sendWait == Tail(old(sendWait)) && recvWait == old(recvWait)
                && pc == WakeSender(old(pc)[t := Idle], old(sendWait))
      ensures !r.Ok? ==> sendWait == old(sendWait)
      ensures if r.Pending? then Queued(old(recvWait), recvWait, t, flag, prio) else recvWait == old(recvWait)
      ensures !r.Ok? ==> mails == old(mails) && pc == old(pc)[t := if r.TimedOut? then Idle else RecvWait((), timeout)]
    {
      hide Orderly, Slot, Queued;
      v := 0;
      if entry == 0 {
        if timeout == 0 {
          ReceiverDone(pc, prio, recvWait, 0, sendWait, msgPool.Length, t, Idle);
          pc := pc[t := Idle];
          return TimedOut, v;
        }
        WaitersKnown(pc, prio, recvWait, 0, sendWait, msgPool.Length);
        InPrio(pc, prio, recvWait, 0, sendWait, msgPool.Length, t);
        var list, i := Suspend(recvWait, t, flag, prio);
        ReceiverWaits(pc, prio, recvWait, list, sendWait, msgPool.Length, t, (), timeout, i);
        recvWait, pc := list, pc[t := RecvWait((), timeout)];
        return Pending, v;
      }
      v := Collect(t);
      return Ok, v;
    }

    /** The read and the wake-up that end a receive. */
    method Collect(t: ThreadId) returns (v: nat)
      requires Valid() && t in pc && (pc[t].Idle? || pc[t].RecvWoken?) && entry > 0
      modifies this`outOffset, this`entry, this`mails, this`pc, this`sendWait
      ensures Valid() && old(mails) != [] && v == old(mails)[0] && mails == old(mails)[1..]
      ensures sendWait == Tail(old(sendWait))
      ensures pc == WakeSender(old(pc)[t := Idle], old(sendWait))
    {
      hide Ring, Orderly, Queued, Dropped;
      ReceiverDone(pc, prio, recvWait, entry, sendWait, msgPool.Length - entry, t, Idle);
      SpaceIn(pc[t := Idle], prio, recvWait, entry - 1, sendWait, msgPool.Length - entry);
      v := Pop();
      pc := WakeSender(pc[t := Idle], sendWait);
      sendWait := Tail(sendWait);
    }

    /** rt_mb_recv */
    method Recv(t: ThreadId, timeout: int) returns (r: Outcome, v: nat)
      requires Valid() && t in pc && pc[t].Idle?
      modifies this
      ensures Valid()
      ensures r == if old(mails) != [] then Ok else if timeout == 0 then TimedOut else Pending
      ensures r.Ok? ==> v == old(mails)[0] && mails == old(mails)[1..]
      ensures r.Ok? ==>
                sendWait == Tail(old(sendWait)) && recvWait == old(recvWait)
                && pc == WakeSender(old(pc)[t := Idle], old(sendWait))
      ensures !r.Ok? ==> sendWait == old(sendWait)
      ensures if r.Pending? then Queued(old(recvWait), recvWait, t, flag, prio) else recvWait == old(recvWait)
      ensures !r.Ok? ==> mails == old(mails) && pc == if r.TimedOut? then old(pc)
              else old(pc)[t := RecvWait((), timeout)]
    {
      hide Orderly, Slot, Queued;
      if entry == 0 && timeout == 0 {
        return TimedOut, 0;
      }
      r, v := TryRecv(t, timeout);
    }

    /** A resumed receiver looks again, after `elapsed` ticks. */
    method RecvResume(t: ThreadId, elapsed: nat) returns (r: Outcome, v: nat)
      requires Valid() && t in pc && pc[t].RecvWoken?
      modifies this
      ensures Valid()
      ensures var timeout := Left(old(pc)[t].timeout, elapsed);
              r == if old(mails) != [] then Ok else if timeout == 0 then TimedOut else Pending
      ensures r.Ok? ==> v == old(mails)[0] && mails == old(mails)[1..]
      ensures !r.Ok? ==> mails == old(mails)
      ensures !r.Ok? ==> pc == old(pc)[t := if r.TimedOut? then Idle
                                       else RecvWait((), Left(old(pc)[t].timeout, elapsed))]
      ensures r.Ok? ==>
                sendWait == Tail(old(sendWait)) && recvWait == old(recvWait)
                && pc == WakeSender(old(pc)[t := Idle], old(sendWait))
      ensures !r.Ok? ==> sendWait == old(sendWait)
      ensures if r.Pending? then Queued(old(recvWait), recvWait, t, flag, prio) else recvWait == old(recvWait)
    {
      hide Orderly, Slot, Queued;
      r, v := TryRecv(t, Left(pc[t].timeout, elapsed));
    }

    // ---------------------------------------------------------------- timers and reset

    /** A suspended thread is resumed with an error, by its timer or by a reset. */
    method GiveUp(t: ThreadId)
      requires Valid() && t in pc && (pc[t].SendWait? || pc[t].RecvWait?)
      modifies this`pc, this`recvWait, this`sendWait
      ensures Valid() && pc == old(pc)[t := Idle]
      ensures if old(pc)[t].SendWait? then Dropped(old(sendWait), sendWait, t) && recvWait == old(recvWait)
              else Dropped(old(recvWait), recvWait, t) && sendWait == old(sendWait)
      ensures |recvWait| + |sendWait| < |old(recvWait)| + |old(sendWait)|
    {
      hide Ring, Dropped;
      ghost var recvWait0, sendWait0 := recvWait, sendWait;
      if pc[t].SendWait? {
        sendWait := Remove(sendWait, t);
      } else {
        recvWait := Remove(recvWait, t);
      }
      GivesUp(pc, prio, recvWait0, recvWait, entry, sendWait0, sendWait, msgPool.Length - entry, t);
      pc := pc[t := Idle];
    }

    /** rt_mb_control with RT_IPC_CMD_RESET */
    method Reset()
      requires Valid()
      modifies this
      ensures Valid() && mails == [] && recvWait == [] && sendWait == []
      ensures AllResumed(old(pc), pc)
    {
      hide Ring, Orderly, Queued, Dropped;
      while recvWait != [] || sendWait != []
        invariant Valid() && pc.Keys == old(pc.Keys)
        invariant forall t | t in old(pc) ::
                    pc[t] == old(pc)[t]
                    || ((old(pc)[t].SendWait? || old(pc)[t].RecvWait?) && pc[t] == Idle)
        decreases |recvWait| + |sendWait|
      {
        WaitersKnown(pc, prio, recvWait, entry, sendWait, msgPool.Length - entry);
        GiveUp(if recvWait != [] then recvWait[0] else sendWait[0]);
      }
      NobodyWaits(pc, prio, entry, msgPool.Length - entry, 0, msgPool.Length);
      EmptyRing(msgPool[..]);
      entry, inOffset, outOffset, mails := 0, 0, 0, [];
    }
  }

  lemma InPrio(pc: Threads, prio: map<ThreadId, nat>, recvWait: seq<ThreadId>, items: int, sendWait: seq<ThreadId>,
               spaces: int, t: ThreadId)
    requires Orderly(pc, prio, recvWait, items, sendWait, spaces) && t in pc
    ensures t in prio
  {
  }

  lemma EmptyRing(pool: seq<nat>)
    ensures Ring(pool, 0, 0, 0, [])
  {
  }

  // ---------------------------------------------------------------- runs

  datatype Step =
    | Sends(t: ThreadId, v: nat, timeout: int)
    | SendResumes(t: ThreadId, elapsed: nat)
    | Urgents(t: ThreadId, v: nat)
    | Recvs(t: ThreadId, timeout: int)
    | RecvResumes(t: ThreadId, elapsed: nat)
    | Expires(t: ThreadId)
    | Resets

  /** The step is the next one of its thread. */
  predicate Enabled(step: Step, pc: Threads) {
    match step
    case Sends(t, _, _) => t in pc && pc[t].Idle?
    case SendResumes(t, _) => t in pc && pc[t].SendWoken?
    case Urgents(t, _) => t in pc && pc[t].Idle?
    case Recvs(t, _) => t in pc && pc[t].Idle?
    case RecvResumes(t, _) => t in pc && pc[t].RecvWoken?
    case Expires(t) => t in pc && ((pc[t].SendWait? && pc[t].timeout > 0) || (pc[t].RecvWait? && pc[t].timeout > 0))
    case Resets => true
  }

  /** What a step answered; a step that is not the next one of its thread is skipped. */
  datatype Reply = Skipped | Done | Sent(r: Outcome) | Received(r: Outcome, v: nat)

  /** A mailbox as its callers see it. */
  datatype View = View(mails: seq<nat>, recvWait: seq<ThreadId>, sendWait: seq<ThreadId>, pc: Threads)

  type Record = Entry<View, Step, Reply>

  /** A look for room, with `timeout` ticks left. */
  ghost predicate Offered(box: Box, v: View, v': View, t: ThreadId, mail: nat, timeout: int, reply: Reply) {
    && reply.Sent?
    && if |v.mails| < box.msgPool.Length then
         reply.r.Ok? && v' == View(v.mails + [mail], Tail(v.recvWait), v.sendWait,
                                   WakeReceiver(v.pc[t := Idle], v.recvWait))
       else if timeout == 0 then
         reply.r.Full? && v' == v.(pc := v.pc[t := Idle])
       else
         && reply.r.Pending? && Queued(v.sendWait, v'.sendWait, t, box.flag, box.prio)
         && v' == v.(sendWait := v'.sendWait, pc := v.pc[t := SendWait(mail, timeout)])
  }

  ghost predicate Urged(box: Box, v: View, v': View, t: ThreadId, mail: nat, reply: Reply) {
    && reply.Sent?
    && if |v.mails| < box.msgPool.Length then
         reply.r.Ok? && v' == View([mail] + v.mails, Tail(v.recvWait), v.sendWait,
                                   WakeReceiver(v.pc[t := Idle], v.recvWait))
       else
         reply.r.Full? && v' == v
  }

  /** A look for a mail, with `timeout` ticks left. */
  ghost predicate Fetched(box: Box, v: View, v': View, t: ThreadId, timeout: int, reply: Reply) {
    && reply.Received?
    && if v.mails != [] then
         && reply.r.Ok? && reply.v == v.mails[0]
         && v' == View(v.mails[1..], v.recvWait, Tail(v.sendWait), WakeSender(v.pc[t := Idle], v.sendWait))
       else if timeout == 0 then
         reply.r.TimedOut? && v' == v.(pc := v.pc[t := Idle])
       else
         && reply.r.Pending? && Queued(v.recvWait, v'.recvWait, t, box.flag, box.prio)
         && v' == v.(recvWait := v'.recvWait, pc := v.pc[t := RecvWait((), timeout)])
  }

  ghost predicate TimedOutOf(v: View, v': View, t: ThreadId)
    requires t in v.pc
  {
    && v' == v.(recvWait := v'.recvWait, sendWait := v'.sendWait, pc := v.pc[t := Idle])
    && if v.pc[t].SendWait? then Dropped(v.sendWait, v'.sendWait, t) && v'.recvWait == v.recvWait
       else Dropped(v.recvWait, v'.recvWait, t) && v'.sendWait == v.sendWait
  }

  /** What each step does and answers. */
  ghost predicate Happened(box: Box, e: Record) {
    var v, v' := e.before, e.after;
    if !Enabled(e.event, v.pc) then v' == v && e.result.Skipped?
    else match e.event
      case Sends(t, mail, timeout) => Offered(box, v, v', t, mail, timeout, e.result)
      case SendResumes(t, elapsed) => Offered(box, v, v', t, v.pc[t].m, Left(v.pc[t].timeout, elapsed), e.result)
      case Urgents(t, mail) => Urged(box, v, v', t, mail, e.result)
      case Recvs(t, timeout) => Fetched(box, v, v', t, timeout, e.result)
      case RecvResumes(t, elapsed) => Fetched(box, v, v', t, Left(v.pc[t].timeout, elapsed), e.result)
      case Expires(t) => e.result.Done? && TimedOutOf(v, v', t)
      case Resets =>
          e.result.Done? && v'.mails == [] && v'.recvWait == [] && v'.sendWait == []
          && AllResumed(v.pc, v'.pc)
  }

  /** The record of a run. */
  ghost predicate History(box: Box, trace: seq<Record>, first: View, last: View) {
    Joined(trace, first, last) && forall i | 0 <= i < |trace| :: Happened(box, trace[i])
  }

  /** One step of one thread, if it is that thread's next. */
  method Take(box: Box, step: Step) returns (reply: Reply)
    requires box.Valid()
    modifies box, box.msgPool
    ensures box.Valid() && Happened(box, Entry(old(box.Seen()), step, reply, box.Seen()))
  {
    hide Ring, Orderly, Queued, Dropped, AllResumed;
    if !Enabled(step, box.pc) {
      return Skipped;
    }
    match step {
      case Sends(t, v, timeout) =>
        var r := box.Send(t, v, timeout);
        reply := Sent(r);
      case SendResumes(t, elapsed) =>
        var r := box.SendResume(t, elapsed);
        reply := Sent(r);
      case Urgents(t, v) =>
        var r := box.Urgent(t, v);
        reply := Sent(r);
      case Recvs(t, timeout) =>
        var r, v := box.Recv(t, timeout);
        reply := Received(r, v);
      case RecvResumes(t, elapsed) =>
        var r, v := box.RecvResume(t, elapsed);
        reply := Received(r, v);
      case Expires(t) =>
        box.GiveUp(t);
        reply := Done;
      case Resets =>
        box.Reset();
        reply := Done;
    }
  }

  /** No wake-up is lost, and no more mails are in than the ring holds. */
  ghost predicate Sound(box: Box, v: View) {
    |v.mails| <= box.msgPool.Length && Orderly(v.pc, box.prio, v.recvWait, |v.mails|, v.sendWait,
                                               box.msgPool.Length - |v.mails|)
  }

  /** Any interleaving of any calls: what each step answered, and the record of what it did. */
  method Run(box: Box, steps: seq<Step>) returns (replies: seq<Reply>, ghost trace: seq<Record>)
    requires box.Valid()
    modifies box, box.msgPool
    ensures box.Valid()
    ensures Recorded(trace, steps, replies) && History(box, trace, old(box.Seen()), box.Seen())
    ensures forall i | 0 <= i < |trace| :: Sound(box, trace[i].before) && Sound(box, trace[i].after)
  {
    hide Ring, Orderly, Joined, Happened, Sound;
    replies, trace := [], [];
    JoinedEmpty<View, Step, Reply>(box.Seen());
    for i := 0 to |steps|
      invariant box.Valid() && Recorded(trace, steps[..i], replies) && Joined(trace, old(box.Seen()), box.Seen())
      invariant forall k | 0 <= k < i ::
                  Happened(box, trace[k]) && Sound(box, trace[k].before)
                  && Sound(box, trace[k].after)
    {
      ghost var before := box.Seen();
      box.SeenSound();
      var reply := Take(box, steps[i]);
      box.SeenSound();
      ghost var e := Entry(before, steps[i], reply, box.Seen());
      JoinedNext(trace, old(box.Seen()), e);
      replies, trace := replies + [reply], trace + [e];
    }
    assert steps[..|steps|] == steps;
  }

  // ---------------------------------------------------------------- what went in comes out

  /** The mail that a step put in: that of its call, or of the call that its thread waits in. */
  function MailIn(e: Record): seq<nat> {
    if !e.result.Sent? || !e.result.r.Ok? then []
    else match e.event
      case Sends(_, v, _) => [v]
      case Urgents(_, v) => [v]
      case SendResumes(t, _) => if t in e.before.pc && e.before.pc[t].SendWoken? then [e.before.pc[t].m] else []
      case _ => []
  }

  function MailOut(e: Record): seq<nat> {
    if e.result.Received? && e.result.r.Ok? then [e.result.v] else []
  }

  /** What a reset throws away. */
  function MailLost(e: Record): seq<nat> {
    if e.event.Resets? then e.before.mails else []
  }

  lemma StepInOrder(box: Box, e: Record)
    requires Happened(box, e) && !e.event.Urgents? && !e.event.Resets?
    ensures e.before.mails + MailIn(e) == MailOut(e) + e.after.mails
  {
    hide Queued, Dropped, WakeReceiver, WakeSender;
  }

  /** Without urgent mails and resets, the mails that steps received are those that steps sent, in the same order. */
  lemma FirstInFirstOut(box: Box, trace: seq<Record>, first: View, last: View)
    requires History(box, trace, first, last)
    requires forall i | 0 <= i < |trace| :: !trace[i].event.Urgents? && !trace[i].event.Resets?
    ensures first.mails + Gathered(trace, MailIn) == Gathered(trace, MailOut) + last.mails
  {
    hide Happened, Joined, MailIn, MailOut;
    var held := (v: View) => v.mails;
    forall i | 0 <= i < |trace|
      ensures held(trace[i].before) + MailIn(trace[i]) == MailOut(trace[i]) + held(trace[i].after)
    {
      StepInOrder(box, trace[i]);
    }
    GatheredInOrder(trace, first, last, held, MailIn, MailOut);
  }

  lemma UrgentOrReset(box: Box, e: Record)
    requires Happened(box, e) && (e.event.Urgents? || e.event.Resets?)
    ensures MailOut(e) == []
    ensures e.event.Urgents? ==> MailLost(e) == [] && e.after.mails == MailIn(e) + e.before.mails
    ensures e.event.Resets? ==> MailIn(e) == [] && MailLost(e) == e.before.mails && e.after.mails == []
  {
    hide Queued, Dropped, WakeReceiver, AllResumed;
  }

  /** Whatever the calls, no mail is lost but to a reset, and none comes out twice. */
  lemma NothingLost(box: Box, trace: seq<Record>, first: View, last: View)
    requires History(box, trace, first, last)
    ensures Conserved(first.mails, Gathered(trace, MailIn), Gathered(trace, MailOut), Gathered(trace, MailLost),
                      last.mails)
  {
    hide Happened, Joined, Conserved, MailIn, MailOut;
    var held := (v: View) => v.mails;
    forall i | 0 <= i < |trace|
      ensures Conserved(held(trace[i].before), MailIn(trace[i]), MailOut(trace[i]), MailLost(trace[i]),
                        held(trace[i].after))
    {
      var e := trace[i];
      if e.event.Urgents? || e.event.Resets? {
        UrgentOrReset(box, e);
      } else {
        StepInOrder(box, e);
      }
      StepConserved(e.before.mails, MailIn(e), MailOut(e), MailLost(e), e.after.mails);
    }
    GatheredConserved(trace, first, last, held, MailIn, MailOut, MailLost);
  }

  /** Thread `t` stands in a send of `m`. */
  predicate Carries(v: View, t: ThreadId, m: nat) {
    t in v.pc && (v.pc[t].SendWait? || v.pc[t].SendWoken?) && v.pc[t].m == m
  }

  /** Thread `t` starts to wait in a send of `m`. */
  predicate Begins(e: Record, t: ThreadId, m: nat) {
    e.event.Sends? && e.event.t == t && e.event.v == m && e.result == Sent(Pending)
  }

  lemma CarryStep(box: Box, e: Record, t: ThreadId, m: nat)
    requires Happened(box, e) && Carries(e.after, t, m)
    ensures Carries(e.before, t, m) || Begins(e, t, m)
  {
    hide Queued, Dropped;
  }

  /** A mail that a resumed sender puts in is the one that its call brought. */
  lemma MailOfItsCall(box: Box, trace: seq<Record>, first: View, last: View, t: ThreadId, m: nat)
    requires History(box, trace, first, last) && Carries(last, t, m) && !Carries(first, t, m)
    ensures exists i ::
              0 <= i < |trace| && Begins(trace[i], t, m)
              && forall k | i < k < |trace| :: Carries(trace[k].before, t, m)
  {
    hide Happened, Joined, Carries, Begins;
    var holds, begins := v => Carries(v, t, m), e => Begins(e, t, m);
    forall i | 0 <= i < |trace| && holds(trace[i].after) ensures holds(trace[i].before) || begins(trace[i]) {
      CarryStep(box, trace[i], t, m);
    }
    BegunBy(trace, first, last, holds, begins);
  }

  // ---------------------------------------------------------------- waiting comes to an end

  /** The ticks that `t` has waited when it looks again. */
  function Waited(e: Record, t: ThreadId): nat {
    if (e.event.SendResumes? || e.event.RecvResumes?) && e.event.t == t && Enabled(e.event, e.before.pc)
      then e.event.elapsed else 0
  }

  /** A thread that waits on after a step has the time it had, less what it waited; one that begins has its call's. */
  lemma TimeStep(box: Box, e: Record, t: ThreadId)
    requires Happened(box, e) && InWait(e.after.pc, t)
    ensures InWait(e.before.pc, t) && TimeLeft(e.before.pc, t) > 0 ==>
              TimeLeft(e.after.pc, t) > 0 && TimeLeft(e.after.pc, t) + Waited(e, t) == TimeLeft(e.before.pc, t)
    ensures InWait(e.before.pc, t) && TimeLeft(e.before.pc, t) < 0 ==>
              TimeLeft(e.after.pc, t) == TimeLeft(e.before.pc, t)
    ensures !InWait(e.before.pc, t) ==>
              (e.event.Sends? || e.event.Recvs?) && e.event.t == t && e.event.timeout == TimeLeft(e.after.pc, t)
  {
    hide Queued, Dropped, WakeReceiver, WakeSender;
    if Enabled(e.event, e.before.pc) && !e.event.Expires? && !e.event.Resets? {
      var u := e.event.t;
      WakingKeepsTime(e.before.pc[u := Idle], e.before.recvWait, t);
      WakingKeepsTime(e.before.pc[u := Idle], e.before.sendWait, t);
      WakingKeepsTime(e.before.pc, e.before.recvWait, t);
      assert e.event.Urgents? ==> e.before.pc[u := Idle] == e.before.pc;
    }
  }

  /** What thread `t` looks for is not there. */
  ghost predicate NothingFor(box: Box, v: View, t: ThreadId) {
    t in v.pc && (if v.pc[t].SendWoken? then |v.mails| >= box.msgPool.Length else v.mails == [])
  }

  /** A woken thread that finds nothing gives up if its time is over, and waits again if not. */
  lemma LookAgain(box: Box, e: Record, t: ThreadId)
    requires Happened(box, e) && (e.event.SendResumes? || e.event.RecvResumes?) && e.event.t == t
    requires Enabled(e.event, e.before.pc) && NothingFor(box, e.before, t)
    ensures if e.event.SendResumes? then e.result.Sent? else e.result.Received?
    ensures 0 < TimeLeft(e.before.pc, t) <= e.event.elapsed ==>
              e.result.r == (if e.event.SendResumes? then Full else TimedOut) && e.after.pc[t] == Idle
    ensures TimeLeft(e.before.pc, t) < 0 || TimeLeft(e.before.pc, t) > e.event.elapsed ==>
              e.result.r == Pending && InWait(e.after.pc, t)
  {
    hide Queued;
  }

  /**
   A call with a timeout that waits and is woken in vain, any number of times: when the ticks it has waited reach its
   timeout, it answers that the mailbox is full or that it timed out, and not before.
   */
  lemma WaitsItsTime(box: Box, trace: seq<Record>, first: View, last: View, t: ThreadId, n: nat, timeout: int)
    requires History(box, trace, first, last) && 0 < n < |trace| && timeout > 0
    requires trace[0].event.Sends? || trace[0].event.Recvs?
    requires trace[0].event.t == t && trace[0].event.timeout == timeout
    requires !InWait(trace[0].before.pc, t) && forall k | 0 < k <= n :: InWait(trace[k].before.pc, t)
    requires trace[n].event.SendResumes? || trace[n].event.RecvResumes?
    requires trace[n].event.t == t && Enabled(trace[n].event, trace[n].before.pc) && NothingFor(box, trace[n].before, t)
    ensures var waited := Summed(trace[..n], e => Waited(e, t)) + trace[n].event.elapsed;
            && (if trace[n].event.SendResumes? then trace[n].result.Sent? else trace[n].result.Received?)
            && if waited >= timeout then
                 && trace[n].result.r == (if trace[n].event.SendResumes? then Full else TimedOut)
                 && trace[n].after.pc[t] == Idle
               else
                 && trace[n].result.r == Pending
                 && InWait(trace[n].after.pc, t) && TimeLeft(trace[n].after.pc, t) == timeout - waited
  {
    hide Happened, Joined, InWait, TimeLeft, Enabled;
    TimeAddsUp(box, trace, first, last, t, n, timeout);
    LookAgain(box, trace[n], t);
    if InWait(trace[n].after.pc, t) {
      TimeStep(box, trace[n], t);
    }
  }

  lemma {:induction false} TimeAddsUp(box: Box, trace: seq<Record>, first: View, last: View, t: ThreadId, n: nat,
                                      timeout: int)
    requires History(box, trace, first, last) && 0 < n < |trace| && timeout > 0
    requires (trace[0].event.Sends? || trace[0].event.Recvs?) && trace[0].event.timeout == timeout
    requires !InWait(trace[0].before.pc, t) && forall k | 0 < k <= n :: InWait(trace[k].before.pc, t)
    ensures TimeLeft(trace[n].before.pc, t) > 0
    ensures TimeLeft(trace[n].before.pc, t) + Summed(trace[..n], e => Waited(e, t)) == timeout
  {
    hide Happened, Joined, InWait, TimeLeft, Enabled;
    assert trace[..n][..n - 1] == trace[..n - 1];
    JoinedPrefix(trace, first, last, n);
    JoinedEnds(trace[..n], first, trace[n].before);
    if n > 1 {
      TimeAddsUp(box, trace, first, last, t, n - 1, timeout);
      TimeStep(box, trace[n - 1], t);
    } else {
      TimeStep(box, trace[0], t);
    }
  }
}
