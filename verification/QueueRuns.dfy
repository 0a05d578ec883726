/** Whole runs of a message queue: any number of threads, in any interleaving. */
module QueueRuns {
  import opened Sequences
  import opened Machine
  import opened WaitList
  import opened WaitStates
  import opened QueueStore
  import opened QueueThreads
  import opened MessageQueue
  import opened Traces

  datatype Step =
    | SendStarts(t: ThreadId, m: seq<byte>, timeout: int)
    | SendResumes(t: ThreadId, elapsed: nat)
    | UrgentStarts(t: ThreadId, m: seq<byte>)
    | Fills(t: ThreadId)
    | Commits(t: ThreadId)
    | RecvStarts(t: ThreadId, size: nat, timeout: int)
    | RecvResumes(t: ThreadId, elapsed: nat)
    | Drains(t: ThreadId)
    | Finishes(t: ThreadId)
    | Expires(t: ThreadId)
    | Resets

  /** The step is the next one of its thread. */
  predicate Enabled(step: Step, pc: Threads) {
    match step
    case SendStarts(t, m, _) => t in pc && pc[t].Idle? && m != []
    case SendResumes(t, _) => t in pc && pc[t].SendWoken?
    case UrgentStarts(t, m) => t in pc && pc[t].Idle? && m != []
    case Fills(t) => t in pc && IsFilling(pc[t])
    case Commits(t) => t in pc && IsFilled(pc[t])
    case RecvStarts(t, _, _) => t in pc && pc[t].Idle?
    case RecvResumes(t, _) => t in pc && pc[t].RecvWoken?
    case Drains(t) => t in pc && IsDraining(pc[t])
    case Finishes(t) => t in pc && IsDrained(pc[t])
    case Expires(t) => t in pc && ((pc[t].SendWait? && pc[t].timeout > 0) || (pc[t].RecvWait? && pc[t].timeout > 0))
    case Resets => true
  }

  /** What a step answered; a step that is not the next one of its thread is skipped. */
  datatype Reply = Skipped | Done | Answer(r: Outcome) | Copied(out: seq<byte>)

  /** A queue as its callers see it: `sent` are the messages in it, and `taken` what each receiver took last. */
  datatype View = View(free: seq<Block>, queue: seq<Block>, sent: seq<seq<byte>>, taken: map<ThreadId, seq<byte>>,
                       recvWait: seq<ThreadId>, sendWait: seq<ThreadId>, pc: Threads)

  type Record = Entry<View, Step, Reply>

  ghost function Seen(q: Queue): View
    reads q
  {
    View(q.freeList, q.queue, q.sent, q.taken, q.recvWait, q.sendWait, q.pc)
  }

  // ---------------------------------------------------------------- what each step does and answers

  /** A look for a free block, with `timeout` ticks left. */
  ghost predicate Claimed(q: Queue, v: View, v': View, t: ThreadId, m: seq<byte>, timeout: int, reply: Reply) {
    if v.free != [] then
      reply == Answer(Pending) && v' == v.(free := v.free[1..], pc := v.pc[t := Busy(Filling(m, false, v.free[0]))])
    else if timeout == 0 then
      reply == Answer(Full) && v' == v.(pc := v.pc[t := Idle])
    else
      && reply == Answer(Pending) && Queued(v.sendWait, v'.sendWait, t, q.flag, q.prio)
      && v' == v.(sendWait := v'.sendWait, pc := v.pc[t := SendWait(m, timeout)])
  }

  /** The same without waiting, for an urgent message. */
  ghost predicate Urged(v: View, v': View, t: ThreadId, m: seq<byte>, reply: Reply) {
    if v.free != [] then
      reply == Answer(Pending) && v' == v.(free := v.free[1..], pc := v.pc[t := Busy(Filling(m, true, v.free[0]))])
    else
      reply == Answer(Full) && v' == v
  }

  /** The filled block is linked, and a receiver is woken. */
  ghost predicate Linked(v: View, v': View, t: ThreadId, w: Work, reply: Reply)
    requires w.Filled?
  {
    && reply == Answer(Ok)
    && v' == v.(sent := if w.urgent then [w.m] + v.sent else v.sent + [w.m],
                queue := if w.urgent then [w.b] + v.queue else v.queue + [w.b],
                recvWait := Tail(v.recvWait), pc := WakeReceiver(v.pc[t := Idle], v.recvWait))
  }

  /** A look for a message, with `timeout` ticks left. */
  ghost predicate Fetched(q: Queue, v: View, v': View, t: ThreadId, size: nat, timeout: int, reply: Reply) {
    if v.queue != [] then
      && reply == Answer(Pending) && v.sent != []
      && v' == v.(queue := v.queue[1..], sent := v.sent[1..], taken := v.taken[t := v.sent[0]],
                  pc := v.pc[t := Busy(Draining(size, v.queue[0]))])
    else if timeout == 0 then
      reply == Answer(TimedOut) && v' == v.(pc := v.pc[t := Idle])
    else
      && reply == Answer(Pending) && Queued(v.recvWait, v'.recvWait, t, q.flag, q.prio)
      && v' == v.(recvWait := v'.recvWait, pc := v.pc[t := RecvWait(size, timeout)])
  }

  /** What was taken is copied out, as far as the buffer goes. */
  ghost predicate CopiedOut(q: Queue, v: View, v': View, t: ThreadId, w: Work, reply: Reply)
    requires w.Draining?
  {
    && reply.Copied? && |reply.out| == Min(w.size, q.msgSize) && t in v.taken && Agree(reply.out, v.taken[t])
    && v' == v.(pc := v.pc[t := Busy(Drained(w.b))])
  }

  ghost predicate GaveUp(v: View, v': View, t: ThreadId)
    requires t in v.pc
  {
    && v' == v.(recvWait := v'.recvWait, sendWait := v'.sendWait, pc := v.pc[t := Idle])
    && if v.pc[t].SendWait? then Dropped(v.sendWait, v'.sendWait, t) && v'.recvWait == v.recvWait
       else Dropped(v.recvWait, v'.recvWait, t) && v'.sendWait == v.sendWait
  }

  ghost predicate WasReset(v: View, v': View) {
    && AllResumed(v.pc, v'.pc)
    && v' == View(Reversed(v.queue) + v.free, [], [], v.taken, [], [], v'.pc)
  }

  ghost predicate Happened(q: Queue, e: Record) {
    var v, v' := e.before, e.after;
    if !Enabled(e.event, v.pc) then v' == v && e.result.Skipped?
    else match e.event
      case SendStarts(t, m, timeout) =>
        if |m| > q.msgSize then e.result == Answer(Failed) && v' == v else Claimed(q, v, v', t, m, timeout, e.result)
      case SendResumes(t, elapsed) => Claimed(q, v, v', t, v.pc[t].m, Left(v.pc[t].timeout, elapsed), e.result)
      case UrgentStarts(t, m) =>
        if |m| > q.msgSize then e.result == Answer(Failed) && v' == v else Urged(v, v', t, m, e.result)
      case Fills(t) =>
        && e.result.Done?
        && var w := v.pc[t].work; v' == v.(pc := v.pc[t := Busy(Filled(w.m, w.urgent, w.b))])
      case Commits(t) => Linked(v, v', t, v.pc[t].work, e.result)
      case RecvStarts(t, size, timeout) => Fetched(q, v, v', t, size, timeout, e.result)
      case RecvResumes(t, elapsed) => Fetched(q, v, v', t, v.pc[t].want, Left(v.pc[t].timeout, elapsed), e.result)
      case Drains(t) => CopiedOut(q, v, v', t, v.pc[t].work, e.result)
      case Finishes(t) =>
        && e.result == Answer(Ok)
        && v' == v.(free := [v.pc[t].work.b] + v.free,
                    sendWait := Tail(v.sendWait), pc := WakeSender(v.pc[t := Idle], v.sendWait))
      case Expires(t) => e.result.Done? && GaveUp(v, v', t)
      case Resets => e.result.Done? && WasReset(v, v')
  }

  /** The record of a run. */
  ghost predicate History(q: Queue, trace: seq<Record>, first: View, last: View) {
    Joined(trace, first, last) && forall i | 0 <= i < |trace| :: Happened(q, trace[i])
  }

  // ---------------------------------------------------------------- what holds between the steps

  /** Thread `t` holds block `b`. */
  predicate Holds(pc: Threads, t: ThreadId, b: Block) {
    t in pc && pc[t].Busy? && pc[t].work.b == b
  }

  /** Every block is in exactly one place: free, queued, or held by one thread. */
  ghost predicate EachInOnePlace(blocks: set<Block>, v: View) {
    && NoRepeats(v.free) && NoRepeats(v.queue)
    && (forall b | b in blocks :: b in v.free || b in v.queue || exists t :: Holds(v.pc, t, b))
    && (forall b | b in v.free :: b in blocks && b !in v.queue)
    && (forall b | b in v.queue :: b in blocks)
    && (forall t, b | Holds(v.pc, t, b) :: b in blocks && b !in v.free && b !in v.queue)
    && (forall t, u, b | Holds(v.pc, t, b) && Holds(v.pc, u, b) :: t == u)
  }

  /** Blocks are in one place each, and no wake-up is lost. */
  ghost predicate Sound(q: Queue, v: View) {
    && EachInOnePlace(q.blocks, v) && |v.queue| == |v.sent| <= ENTRY_MAX
    && Orderly(v.pc, q.prio, v.recvWait, |v.queue|, v.sendWait, |v.free|)
  }

  lemma SeenSound(q: Queue)
    requires q.Valid()
    ensures Sound(q, Seen(q))
  {
    hide Orderly, Chain, NoRepeats, Located, EachInOnePlace, Holders;
    BlocksPlaced(q.blocks, q.next, q.data, q.place, q.taken, q.msgSize, Seen(q));
    QueueFits(q.blocks, q.queue);
  }

  lemma BlocksPlaced(blocks: set<Block>, next: map<Block, int>, data: map<Block, seq<byte>>, place: map<Block, Place>,
                     taken: map<ThreadId, seq<byte>>, msgSize: nat, v: View)
    requires place.Keys == blocks && Located(v.free, place, InFree) && Located(v.queue, place, InQueue)
    requires Holders(v.pc, next, data, place, taken, msgSize)
    ensures EachInOnePlace(blocks, v) && NoRepeats(v.queue) && forall b | b in v.queue :: b in blocks
  {
    forall b | b in blocks ensures b in v.free || b in v.queue || exists t :: Holds(v.pc, t, b) {
      if place[b].Held? {
        assert Holds(v.pc, place[b].t, b);
      }
    }
    forall t, b | Holds(v.pc, t, b) ensures b in place && place[b] == Held(t) {
      assert HolderOk(v.pc[t], t, next, data, place, taken, msgSize);
    }
  }

  lemma QueueFits(blocks: set<Block>, queue: seq<Block>)
    requires NoRepeats(queue) && (forall b | b in queue :: b in blocks) && |blocks| <= ENTRY_MAX
    ensures |queue| <= ENTRY_MAX
  {
    MembersCount(queue);
    SubsetSize((set b | b in queue), blocks);
  }

  lemma SubsetSize(a: set<Block>, b: set<Block>)
    requires a <= b
    ensures |a| <= |b|
  {
    assert b == a + (b - a);
  }

  // ---------------------------------------------------------------- runs

  /** One step of one thread, if it is that thread's next. */
  method Take(q: Queue, step: Step) returns (reply: Reply)
    requires q.Valid()
    modifies q
    ensures q.Valid() && Happened(q, Entry(old(Seen(q)), step, reply, Seen(q)))
  {
    hide Stored, Holders, Orderly, Queued, Dropped, AllResumed, WakeSender, WakeReceiver;
    if !Enabled(step, q.pc) {
      return Skipped;
    }
    if step.SendStarts? || step.SendResumes? || step.UrgentStarts? || step.Fills? || step.Commits? {
      reply := TakeSend(q, step);
    } else {
      reply := TakeOther(q, step);
    }
  }

  /** The steps of senders. */
  method TakeSend(q: Queue, step: Step) returns (reply: Reply)
    requires q.Valid() && Enabled(step, q.pc)
    requires step.SendStarts? || step.SendResumes? || step.UrgentStarts? || step.Fills? || step.Commits?
    modifies q
    ensures q.Valid() && Happened(q, Entry(old(Seen(q)), step, reply, Seen(q)))
  {
    hide Stored, Holders, Orderly, Queued, WakeReceiver;
    match step {
      case SendStarts(t, m, timeout) =>
        var r := q.SendStart(t, m, timeout);
        reply := Answer(r);
      case SendResumes(t, elapsed) =>
        var r := q.SendResume(t, elapsed);
        reply := Answer(r);
      case UrgentStarts(t, m) =>
        var r := q.UrgentStart(t, m);
        reply := Answer(r);
      case Fills(t) =>
        q.Fill(t);
        reply := Done;
      case Commits(t) =>
        var r := q.Commit(t);
        reply := Answer(r);
    }
  }

  /** The steps of receivers, timers and resets. */
  method TakeOther(q: Queue, step: Step) returns (reply: Reply)
    requires q.Valid() && Enabled(step, q.pc)
    requires !step.SendStarts? && !step.SendResumes? && !step.UrgentStarts? && !step.Fills? && !step.Commits?
    modifies q
    ensures q.Valid() && Happened(q, Entry(old(Seen(q)), step, reply, Seen(q)))
  {
    hide Stored, Holders, Orderly, Queued, Dropped, AllResumed, WakeSender;
    match step {
      case RecvStarts(t, size, timeout) =>
        var r := q.RecvStart(t, size, timeout);
        reply := Answer(r);
      case RecvResumes(t, elapsed) =>
        var r := q.RecvResume(t, elapsed);
        reply := Answer(r);
      case Drains(t) =>
        var out := q.Drain(t);
        reply := Copied(out);
      case Finishes(t) =>
        var r := q.Finish(t);
        reply := Answer(r);
      case Expires(t) =>
        q.GiveUp(t);
        reply := Done;
      case Resets =>
        q.Reset();
        reply := Done;
    }
  }

  /** Any interleaving of any calls: what each step answered, and the record of what it did. */
  method Run(q: Queue, steps: seq<Step>) returns (replies: seq<Reply>, ghost trace: seq<Record>)
    requires q.Valid()
    modifies q
    ensures q.Valid()
    ensures Recorded(trace, steps, replies) && History(q, trace, old(Seen(q)), Seen(q))
    ensures forall i | 0 <= i < |trace| :: Sound(q, trace[i].before) && Sound(q, trace[i].after)
  {
    hide Stored, Holders, Orderly, Joined, Happened, Sound;
    replies, trace := [], [];
    JoinedEmpty<View, Step, Reply>(Seen(q));
    for i := 0 to |steps|
      invariant q.Valid() && Recorded(trace, steps[..i], replies) && Joined(trace, old(Seen(q)), Seen(q))
      invariant forall k | 0 <= k < i :: Happened(q, trace[k]) && Sound(q, trace[k].before) && Sound(q, trace[k].after)
    {
      ghost var before := Seen(q);
      SeenSound(q);
      var reply := Take(q, steps[i]);
      SeenSound(q);
      ghost var e := Entry(before, steps[i], reply, Seen(q));
      JoinedNext(trace, old(Seen(q)), e);
      replies, trace := replies + [reply], trace + [e];
    }
    assert steps[..|steps|] == steps;
  }

  // ---------------------------------------------------------------- what went in comes out

  /** The message that a step linked into the queue. */
  function MessageIn(e: Record): seq<seq<byte>> {
    if e.event.Commits? && Enabled(e.event, e.before.pc) then [e.before.pc[e.event.t].work.m] else []
  }

  /** The message that a step took from the queue. */
  function MessageOut(e: Record): seq<seq<byte>> {
    if (e.event.RecvStarts? || e.event.RecvResumes?) && Enabled(e.event, e.before.pc) && e.before.queue != []
        && e.before.sent != [] then
      [e.before.sent[0]]
    else []
  }

  /** What a reset throws away. */
  function MessagesLost(e: Record): seq<seq<byte>> {
    if e.event.Resets? then e.before.sent else []
  }

  predicate LinksUrgent(e: Record) {
    e.event.Commits? && Enabled(e.event, e.before.pc) && e.before.pc[e.event.t].work.urgent
  }

  lemma StepMoves(q: Queue, e: Record)
    requires Happened(q, e)
    ensures if e.event.Resets? then
              MessageIn(e) == [] && MessageOut(e) == [] && MessagesLost(e) == e.before.sent && e.after.sent == []
            else if LinksUrgent(e) then
              MessageOut(e) == [] && MessagesLost(e) == [] && e.after.sent == MessageIn(e) + e.before.sent
            else
              MessagesLost(e) == [] && e.before.sent + MessageIn(e) == MessageOut(e) + e.after.sent
  {
    hide Queued, Dropped, WakeReceiver, WakeSender, AllResumed;
  }

  /** Without urgent messages and resets, the messages taken are those linked, in the same order. */
  lemma FirstInFirstOut(q: Queue, trace: seq<Record>, first: View, last: View)
    requires History(q, trace, first, last)
    requires forall i | 0 <= i < |trace| :: !LinksUrgent(trace[i]) && !trace[i].event.Resets?
    ensures first.sent + Gathered(trace, MessageIn) == Gathered(trace, MessageOut) + last.sent
  {
    hide Happened, Joined, MessageIn, MessageOut;
    var held := (v: View) => v.sent;
    forall i | 0 <= i < |trace|
      ensures held(trace[i].before) + MessageIn(trace[i]) == MessageOut(trace[i]) + held(trace[i].after)
    {
      StepMoves(q, trace[i]);
    }
    GatheredInOrder(trace, first, last, held, MessageIn, MessageOut);
  }

  /** Whatever the calls, no message is lost but to a reset, and none is taken twice. */
  lemma NothingLost(q: Queue, trace: seq<Record>, first: View, last: View)
    requires History(q, trace, first, last)
    ensures Conserved(first.sent, Gathered(trace, MessageIn), Gathered(trace, MessageOut),
                      Gathered(trace, MessagesLost), last.sent)
  {
    hide Happened, Joined, Conserved, MessageIn, MessageOut;
    var held := (v: View) => v.sent;
    forall i | 0 <= i < |trace|
      ensures Conserved(held(trace[i].before), MessageIn(trace[i]), MessageOut(trace[i]), MessagesLost(trace[i]),
                        held(trace[i].after))
    {
      var e := trace[i];
      StepMoves(q, e);
      StepConserved(e.before.sent, MessageIn(e), MessageOut(e), MessagesLost(e), e.after.sent);
    }
    GatheredConserved(trace, first, last, held, MessageIn, MessageOut, MessagesLost);
  }

  // ---------------------------------------------------------------- each message from its call to its buffer

  /** Thread `t` stands in a send of `m`. */
  predicate Sending(v: View, t: ThreadId, m: seq<byte>) {
    && t in v.pc
    && (((v.pc[t].SendWait? || v.pc[t].SendWoken?) && v.pc[t].m == m)
        || (v.pc[t].Busy? && (v.pc[t].work.Filling? || v.pc[t].work.Filled?) && v.pc[t].work.m == m))
  }

  /** The call of `t` that sends `m`. */
  predicate SendsHere(e: Record, t: ThreadId, m: seq<byte>) {
    (e.event.SendStarts? || e.event.UrgentStarts?) && e.event.t == t && e.event.m == m && e.result == Answer(Pending)
  }

  lemma SendingStep(q: Queue, e: Record, t: ThreadId, m: seq<byte>)
    requires Happened(q, e) && Sending(e.after, t, m)
    ensures Sending(e.before, t, m) || SendsHere(e, t, m)
  {
    hide Queued, Dropped, WakeReceiver, WakeSender;
    match e.event {
      case Commits(u) => WakingKeeps(e.before.pc[u := Idle], e.before.recvWait, t);
      case Finishes(u) => WakingKeeps(e.before.pc[u := Idle], e.before.sendWait, t);
      case _ =>
    }
  }

  /** A message that is linked is the one its sender's call brought. */
  lemma MessageOfItsCall(q: Queue, trace: seq<Record>, first: View, last: View, t: ThreadId, m: seq<byte>)
    requires History(q, trace, first, last) && Sending(last, t, m) && !Sending(first, t, m)
    ensures exists i ::
              0 <= i < |trace| && SendsHere(trace[i], t, m)
              && forall k | i < k < |trace| :: Sending(trace[k].before, t, m)
  {
    hide Happened, Joined, Sending, SendsHere;
    var holds, begins := v => Sending(v, t, m), e => SendsHere(e, t, m);
    forall i | 0 <= i < |trace| && holds(trace[i].after) ensures holds(trace[i].before) || begins(trace[i]) {
      SendingStep(q, trace[i], t, m);
    }
    BegunBy(trace, first, last, holds, begins);
  }

  /** Thread `t` is draining the message `m`. */
  predicate DrainingOf(v: View, t: ThreadId, m: seq<byte>) {
    t in v.pc && IsDraining(v.pc[t]) && t in v.taken && v.taken[t] == m
  }

  /** Thread `t` takes `m` from the queue. */
  predicate TakesHere(e: Record, t: ThreadId, m: seq<byte>) {
    (e.event.RecvStarts? || e.event.RecvResumes?) && e.event.t == t && MessageOut(e) == [m]
  }

  lemma DrainingStep(q: Queue, e: Record, t: ThreadId, m: seq<byte>)
    requires Happened(q, e) && DrainingOf(e.after, t, m)
    ensures DrainingOf(e.before, t, m) || TakesHere(e, t, m)
  {
    hide Queued, Dropped;
  }

  lemma DrainAnswers(q: Queue, e: Record)
    requires Happened(q, e) && e.event.Drains? && e.result.Copied?
    ensures e.event.t in e.before.taken && DrainingOf(e.before, e.event.t, e.before.taken[e.event.t])
    ensures Agree(e.result.out, e.before.taken[e.event.t])
  {
  }

  /** What a drain copies out is the message that its own thread took last, as far as the buffer goes. */
  lemma DrainsWhatItTook(q: Queue, trace: seq<Record>, first: View, last: View, j: nat)
    requires History(q, trace, first, last) && j < |trace| && trace[j].event.Drains? && trace[j].result.Copied?
    requires forall t | t in first.pc :: !IsDraining(first.pc[t])
    ensures exists i, m ::
              && 0 <= i < j && TakesHere(trace[i], trace[j].event.t, m) && Agree(trace[j].result.out, m)
              && forall k | i < k < j :: DrainingOf(trace[k].before, trace[j].event.t, m)
  {
    hide Happened, Joined, TakesHere;
    var t := trace[j].event.t;
    DrainAnswers(q, trace[j]);
    var m := trace[j].before.taken[t];
    JoinedPrefix(trace, first, last, j);
    var before := trace[..j];
    var holds, begins := v => DrainingOf(v, t, m), e => TakesHere(e, t, m);
    forall i | 0 <= i < j && holds(before[i].after) ensures holds(before[i].before) || begins(before[i]) {
      DrainingStep(q, before[i], t, m);
    }
    BegunBy(before, first, trace[j].before, holds, begins);
    var i :| 0 <= i < j && begins(before[i]) && forall k | i < k < j :: holds(before[k].before);
    assert TakesHere(trace[i], t, m);
    forall k | i < k < j ensures DrainingOf(trace[k].before, t, m) {
      assert before[k] == trace[k] && holds(before[k].before);
    }
  }

  // ---------------------------------------------------------------- waiting comes to an end

  /** The ticks that `t` has waited when it looks again. */
  function Waited(e: Record, t: ThreadId): nat {
    if (e.event.SendResumes? || e.event.RecvResumes?) && e.event.t == t && Enabled(e.event, e.before.pc)
      then e.event.elapsed else 0
  }

  /** A thread that waits on after a step has the time it had, less what it waited; one that begins has its call's. */
  lemma TimeStep(q: Queue, e: Record, t: ThreadId)
    requires Happened(q, e) && InWait(e.after.pc, t)
    ensures InWait(e.before.pc, t) && TimeLeft(e.before.pc, t) > 0 ==>
              TimeLeft(e.after.pc, t) > 0 && TimeLeft(e.after.pc, t) + Waited(e, t) == TimeLeft(e.before.pc, t)
    ensures InWait(e.before.pc, t) && TimeLeft(e.before.pc, t) < 0 ==>
              TimeLeft(e.after.pc, t) == TimeLeft(e.before.pc, t)
    ensures !InWait(e.before.pc, t) ==>
              && (e.event.SendStarts? || e.event.RecvStarts?)
              && e.event.t == t && e.event.timeout == TimeLeft(e.after.pc, t)
  {
    hide Queued, Dropped, WakeReceiver, WakeSender;
    match e.event {
      case Commits(u) => WakingKeepsTime(e.before.pc[u := Idle], e.before.recvWait, t);
      case Finishes(u) => WakingKeepsTime(e.before.pc[u := Idle], e.before.sendWait, t);
      case _ =>
    }
  }

  /** What thread `t` looks for is not there. */
  predicate NothingFor(v: View, t: ThreadId) {
    t in v.pc && (if v.pc[t].SendWoken? then v.free == [] else v.queue == [])
  }

  /** A woken thread that finds nothing gives up if its time is over, and waits again if not. */
  lemma LookAgain(q: Queue, e: Record, t: ThreadId)
    requires Happened(q, e) && (e.event.SendResumes? || e.event.RecvResumes?) && e.event.t == t
    requires Enabled(e.event, e.before.pc) && NothingFor(e.before, t)
    ensures 0 < TimeLeft(e.before.pc, t) <= e.event.elapsed ==>
              e.result == Answer(if e.event.SendResumes? then Full else TimedOut) && e.after.pc[t] == Idle
    ensures TimeLeft(e.before.pc, t) < 0 || TimeLeft(e.before.pc, t) > e.event.elapsed ==>
              e.result == Answer(Pending) && InWait(e.after.pc, t)
  {
    hide Queued;
  }

  /**
   A call with a timeout that waits and is woken in vain, any number of times: when the ticks it has waited reach its
   timeout, it answers that the queue is full or that it timed out, and not before.
   */
  lemma WaitsItsTime(q: Queue, trace: seq<Record>, first: View, last: View, t: ThreadId, n: nat, timeout: int)
    requires History(q, trace, first, last) && 0 < n < |trace| && timeout > 0
    requires trace[0].event.SendStarts? || trace[0].event.RecvStarts?
    requires trace[0].event.t == t && trace[0].event.timeout == timeout
    requires !InWait(trace[0].before.pc, t) && forall k | 0 < k <= n :: InWait(trace[k].before.pc, t)
    requires trace[n].event.SendResumes? || trace[n].event.RecvResumes?
    requires trace[n].event.t == t && Enabled(trace[n].event, trace[n].before.pc) && NothingFor(trace[n].before, t)
    ensures var waited := Summed(trace[..n], e => Waited(e, t)) + trace[n].event.elapsed;
            if waited >= timeout then
              && trace[n].result == Answer(if trace[n].event.SendResumes? then Full else TimedOut)
              && trace[n].after.pc[t] == Idle
            else
              && trace[n].result == Answer(Pending)
              && InWait(trace[n].after.pc, t) && TimeLeft(trace[n].after.pc, t) == timeout - waited
  {
    hide Happened, Joined, InWait, TimeLeft, Enabled;
    TimeAddsUp(q, trace, first, last, t, n, timeout);
    LookAgain(q, trace[n], t);
    if InWait(trace[n].after.pc, t) {
      TimeStep(q, trace[n], t);
    }
  }

  lemma {:induction false} TimeAddsUp(q: Queue, trace: seq<Record>, first: View, last: View, t: ThreadId, n: nat,
                                      timeout: int)
    requires History(q, trace, first, last) && 0 < n < |trace| && timeout > 0
    requires (trace[0].event.SendStarts? || trace[0].event.RecvStarts?) && trace[0].event.timeout == timeout
    requires !InWait(trace[0].before.pc, t) && forall k | 0 < k <= n :: InWait(trace[k].before.pc, t)
    ensures TimeLeft(trace[n].before.pc, t) > 0
    ensures TimeLeft(trace[n].before.pc, t) + Summed(trace[..n], e => Waited(e, t)) == timeout
  {
    hide Happened, Joined, InWait, TimeLeft, Enabled;
    assert trace[..n][..n - 1] == trace[..n - 1];
    JoinedPrefix(trace, first, last, n);
    JoinedEnds(trace[..n], first, trace[n].before);
    if n > 1 {
      TimeAddsUp(q, trace, first, last, t, n - 1, timeout);
      TimeStep(q, trace[n - 1], t);
    } else {
      TimeStep(q, trace[0], t);
    }
  }
}
