/** The per-CPU priority scheduler: scheduler.c and the thread states of thread.c. */
module Scheduler {
  import opened Sequences
  import opened WaitList
  import opened FirstSet
  import opened ReadyQueues
  import LockNest

  /** A CPU runs a thread bound to it that knows it runs there, and is in no queue. */
  ghost predicate CurrentOk(current: ThreadId, threads: map<ThreadId, Thread>, c: nat) {
    current != NONE ==>
      current in threads && threads[current].oncpu == c && threads[current].bind == c
      && !threads[current].stat.Ready? && !threads[current].stat.Init?
  }

  /** A thread is on the CPU it names; a ready one is on none, a running one on some. */
  ghost predicate SpotOk(t: ThreadId, threads: map<ThreadId, Thread>, cpus: seq<Cpu>)
    requires t in threads
  {
    && threads[t].oncpu <= DETACHED
    && (threads[t].oncpu != DETACHED ==> threads[t].oncpu < |cpus| && cpus[threads[t].oncpu].current == t)
    && (threads[t].stat.Ready? || threads[t].stat.Init? ==> threads[t].oncpu == DETACHED)
    && (threads[t].stat.Running? ==> threads[t].oncpu != DETACHED)
  }

  ghost predicate Spots(cpus: seq<Cpu>, threads: map<ThreadId, Thread>) {
    && NONE !in threads
    && (forall c: nat {:trigger CurrentOk(cpus[c].current, threads, c)} | c < |cpus| ::
        CurrentOk(cpus[c].current, threads, c))
    && (forall t {:trigger SpotOk(t, threads, cpus)} | t in threads :: SpotOk(t, threads, cpus))
  }

  /** The idle thread of each CPU is bound there and always ready or running. */
  ghost predicate IdleOk(idle: seq<ThreadId>, threads: map<ThreadId, Thread>) {
    && |idle| == CPUS
    && forall c: nat {:trigger idle[c]} | c < CPUS ::
         idle[c] in threads && threads[idle[c]].bind == c
             && (threads[idle[c]].stat.Ready? || threads[idle[c]].stat.Running?)
  }

  /** Every thread is in exactly one place: one queue, one CPU, or neither, as its state says. */
  lemma OnePlace(cpus: seq<Cpu>, threads: map<ThreadId, Thread>, t: ThreadId, c: nat, p: nat)
    requires Queues(cpus, threads) && Spots(cpus, threads) && t in threads && c < CPUS && p < PRIORITIES
    ensures |cpus[c].table| == PRIORITIES
    ensures t in cpus[c].table[p] <==> threads[t].stat.Ready? && c == threads[t].bind && p == threads[t].prio
    ensures cpus[c].current == t <==> threads[t].oncpu == c
    ensures threads[t].stat.Ready? ==> cpus[c].current != t
  {
    assert TableOk(cpus[c], threads, c);
    assert QueueOk(cpus[c].table[p], threads, c, p);
    assert CurrentOk(cpus[c].current, threads, c) && SpotOk(t, threads, cpus);
  }

  /** CPU `c` runs a thread at least as urgent as every thread ready there. */
  ghost predicate MostUrgent(cpus: seq<Cpu>, threads: map<ThreadId, Thread>, c: nat) {
    && c < |cpus| && cpus[c].current in threads && threads[cpus[c].current].stat.Running?
    && forall t | t in threads && threads[t].stat.Ready?
        && threads[t].bind == c :: threads[cpus[c].current].prio <= threads[t].prio
  }

  /** `t` joined the end of its queue. */
  ghost predicate Joined(cpus: seq<Cpu>, cpus': seq<Cpu>, t: ThreadId, th: Thread) {
    && th.bind < |cpus| && th.prio < |cpus[th.bind].table|
    && cpus' == cpus[th.bind := Appended(cpus[th.bind], t, th.prio)]
  }

  /** `t` left its queue, where it was at `i`. */
  ghost predicate Parted(cpus: seq<Cpu>, cpus': seq<Cpu>, t: ThreadId, th: Thread, i: nat) {
    && th.bind < |cpus| && th.prio < |cpus[th.bind].table| && i < |cpus[th.bind].table[th.prio]|
        && cpus[th.bind].table[th.prio][i] == t
    && cpus' == cpus[th.bind := Unlinked(cpus[th.bind], th.prio, i)]
  }

  /** Only the queues of CPU `b` changed, and of those only that of priority `p`. */
  ghost predicate OnlyQueue(cpus: seq<Cpu>, cpus': seq<Cpu>, b: nat, p: nat) {
    && |cpus'| == |cpus| && b < |cpus| && p < |cpus[b].table| == |cpus'[b].table|
    && (forall d | 0 <= d < |cpus| && d != b :: cpus'[d] == cpus[d])
    && cpus'[b] == cpus[b].(group := cpus'[b].group, table := cpus'[b].table)
    && (forall q | 0 <= q < |cpus[b].table| && q != p :: cpus'[b].table[q] == cpus[b].table[q])
  }

  /** A thread that joined its queue is behind all others there. */
  lemma JoinedLast(cpus: seq<Cpu>, cpus': seq<Cpu>, t: ThreadId, th: Thread)
    requires Joined(cpus, cpus', t, th)
    ensures OnlyQueue(cpus, cpus', th.bind, th.prio)
    ensures cpus'[th.bind].table[th.prio] == cpus[th.bind].table[th.prio] + [t]
  {
  }

  /** The others of the queue that a thread left keep their order. */
  lemma PartedInOrder(cpus: seq<Cpu>, cpus': seq<Cpu>, t: ThreadId, th: Thread, i: nat)
    requires Parted(cpus, cpus', t, th, i)
    ensures OnlyQueue(cpus, cpus', th.bind, th.prio)
    ensures Dropped(cpus[th.bind].table[th.prio], cpus'[th.bind].table[th.prio], t)
  {
  }

  /** The thread that a switch takes off its CPU: ready again if it was running. */
  function LeftOff(th: Thread): Thread {
    if th.stat.Running? then th.(stat := Ready, oncpu := DETACHED, yielded := false) else th.(oncpu := DETACHED)
  }

  /** The CPU once `cur` is back in its queue, if it goes there. */
  function PutBack(cpu: Cpu, cur: ThreadId, th: Thread): Cpu
    requires th.prio < |cpu.table|
  {
    if th.stat.Running? then Appended(cpu, cur, th.prio) else cpu
  }

  /** The running thread of a CPU stays: it is more urgent than `h`, or as urgent and has not yielded. */
  predicate Stays(th: Thread, h: int) {
    th.stat.Running? && (th.prio < h || (th.prio == h && !th.yielded))
  }

  /** What rescheduling CPU `c` does. */
  ghost predicate Rescheduled(cpus: seq<Cpu>, threads: map<ThreadId, Thread>, cpus': seq<Cpu>,
                              threads': map<ThreadId, Thread>, c: nat) {
    && c < |cpus| && cpus[c].current in threads && cpus[c].group < 0x1_0000_0000
    && var cur, cpu := cpus[c].current, cpus[c];
       if cpu.group == 0 then
         cpus' == cpus && threads' == threads
       else
         var h := Ffs(cpu.group) - 1;
         && 0 <= h < |cpu.table| && threads[cur].prio < |cpu.table| && cpu.table[h] != [] && cpu.table[h][0] in threads
         && if Stays(threads[cur], h) then
              cpus' == cpus && threads' == threads[cur := threads[cur].(yielded := false)]
            else
              var to := cpu.table[h][0];
              && cpus' == cpus[c := Unlinked(PutBack(cpu, cur, threads[cur]), h, 0).(prioNow := h, current := to)]
              && threads' == threads[cur := LeftOff(threads[cur])][to := threads[to].(stat := Running, oncpu := c)]
  }

  class System {
    var threads: map<ThreadId, Thread>
    var cpus: seq<Cpu>
    const idle: seq<ThreadId>

    ghost predicate Valid()
      reads this
    {
      Queues(cpus, threads) && Spots(cpus, threads) && IdleOk(idle, threads)
    }

    /** rt_system_scheduler_init, and the startup of one idle thread a CPU. */
    constructor (idle: seq<ThreadId>)
      requires |idle| == CPUS && NoRepeats(idle) && NONE !in idle
      ensures Valid() && this.idle == idle
      ensures forall t :: t in threads <==> t in idle
      ensures forall c | 0 <= c < CPUS :: cpus[c].current == NONE
    {
      var empty := Cpu(NONE, PRIORITIES - 1, 0, seq(PRIORITIES, _ => []), 0, false);
      this.idle := idle;
      threads, cpus := map[], seq(CPUS, _ => empty);
      new;
      EmptyQueues(cpus);
      for c := 0 to CPUS
        invariant Queues(cpus, threads) && |cpus| == CPUS
        invariant forall t :: t in threads <==> exists d | 0 <= d < c :: idle[d] == t
        invariant forall d | 0 <= d < c :: threads[idle[d]] == Thread(Ready, PRIORITIES - 1, d, DETACHED, false, 0)
        invariant forall d | 0 <= d < CPUS :: cpus[d].current == NONE
      {
        hide Queues;
        var th := Thread(Ready, PRIORITIES - 1, c, DETACHED, false, 0);
        assert idle[c] !in threads;
        EnqueueOk(cpus, threads, idle[c], th);
        threads := threads[idle[c] := th];
        cpus := cpus[c := Appended(cpus[c], idle[c], PRIORITIES - 1)];
      }
      FirstSpots(cpus, threads, idle);
    }

    /** rt_thread_init: a new thread, bound to a CPU and not started. */
    method NewThread(t: ThreadId, bind: nat, prio: nat)
      requires Valid() && t !in threads && t != NONE && bind < CPUS && prio < PRIORITIES
      modifies this`threads
      ensures Valid() && threads == old(threads)[t := Thread(Init, prio, bind, DETACHED, false, 0)]
    {
      hide Queues;
      var th := Thread(Init, prio, bind, DETACHED, false, 0);
      AddThread(cpus, threads, t, th, idle);
      threads := threads[t := th];
    }

    /** rt_system_scheduler_start on CPU `c`. */
    method Start(c: nat)
      requires Valid() && c < CPUS && |cpus| == CPUS && cpus[c].current == NONE
      modifies this`threads, this`cpus
      ensures Valid() && MostUrgent(cpus, threads, c)
      ensures StartedFirst(old(cpus), old(threads), cpus, threads, c)
    {
      hide Queues, Spots, IdleOk, Ffs, MostUrgent, Unlinked;
      HighestReady(cpus, threads, c);
      ghost var i := IdleReady(cpus, threads, c, idle);
      var h := Ffs(cpus[c].group) - 1;
      var to := cpus[c].table[h][0];
      Arrive(c, to);
      SwitchTo(c, to, h);
      StartSpotsOk(old(cpus), old(threads), cpus, threads, c, to, idle);
      StartTook(old(cpus), old(threads), cpus, threads, c, to);
    }

    /** rt_schedule_insert_thread: a thread still on a CPU just runs on; any other joins its queue. */
    method Insert(t: ThreadId)
      requires Queues(cpus, threads) && t in threads && !threads[t].stat.Ready?
      modifies this`threads, this`cpus
      ensures Queues(cpus, threads)
      ensures old(threads)[t].oncpu != DETACHED ==>
                threads == old(threads)[t := old(threads)[t].(stat := Running)] && cpus == old(cpus)
      ensures old(threads)[t].oncpu == DETACHED ==>
                threads == old(threads)[t := old(threads)[t].(stat := Ready)] && Joined(old(cpus), cpus, t, threads[t])
    {
      hide Queues, Appended;
      ThreadBounds(cpus, threads, t);
      if threads[t].oncpu != DETACHED {
        UpdateOk(cpus, threads, t, threads[t].(stat := Running));
        threads := threads[t := threads[t].(stat := Running)];
        return;
      }
      EnqueueOk(cpus, threads, t, threads[t].(stat := Ready));
      threads := threads[t := threads[t].(stat := Ready)];
      var b, p := threads[t].bind, threads[t].prio;
      cpus := cpus[b := Appended(cpus[b], t, p)];
    }

    /** rt_schedule_remove_thread for a ready thread, which gets the state `stat`. */
    method Remove(t: ThreadId, thread: Thread) returns (ghost i: nat)
      requires Queues(cpus, threads) && t in threads && threads[t].stat.Ready?
      requires !thread.stat.Ready? && thread.prio < PRIORITIES && thread.bind < CPUS
      modifies this`threads, this`cpus
      ensures Queues(cpus, threads) && threads == old(threads)[t := thread]
      ensures Parted(old(cpus), cpus, t, old(threads)[t], i)
    {
      hide Queues, Unlinked;
      var b, p := threads[t].bind, threads[t].prio;
      ReadyQueue(cpus, threads, t);
      var k: nat :| k < |cpus[b].table[p]| && cpus[b].table[p][k] == t;
      DequeueOk(cpus, threads, t, thread, k);
      cpus := cpus[b := Unlinked(cpus[b], p, k)];
      i := k;
      threads := threads[t := thread];
    }

    /** The decision of rt_schedule and rt_scheduler_do_irq_switch, and the switch if there is one. */
    method Reschedule(c: nat)
      requires Valid() && c < CPUS && |cpus| == CPUS && cpus[c].current != NONE
      modifies this`threads, this`cpus
      ensures Valid() && MostUrgent(cpus, threads, c)
      ensures Rescheduled(old(cpus), old(threads), cpus, threads, c)
    {
      hide Queues, Spots, IdleOk, Appended, Unlinked, Ffs, MostUrgent;
      var cur := cpus[c].current;
      CurrentKnown(cpus, threads, c);
      HighestReady(cpus, threads, c);
      if cpus[c].group != 0 {
        var h := Ffs(cpus[c].group) - 1;
        var to := cpus[c].table[h][0];
        Detach(cur);
        var stays := Relinquish(c, cur, h, to);
        if stays {
          to := cur;
        }
        Arrive(c, to);
        if to != cur {
          SwitchTo(c, to, h);
        }
      }
      assert Rescheduled(old(cpus), old(threads), cpus, threads, c);
      RescheduleKeeps(old(cpus), old(threads), cpus, threads, c, idle);
    }

    /** The current thread stays or goes back to its queue; a yield is used up either way. */
    method Relinquish(c: nat, cur: ThreadId, h: nat, ghost to: ThreadId) returns (stays: bool)
      requires Queues(cpus, threads) && c < |cpus| && |cpus[c].table| == PRIORITIES
      requires cur in threads && !threads[cur].stat.Ready? && threads[cur].bind == c && threads[cur].oncpu == DETACHED
      requires h < PRIORITIES && cpus[c].table[h] != [] && cpus[c].table[h][0] == to
      modifies this`threads, this`cpus
      ensures Queues(cpus, threads)
      ensures stays == Stays(old(threads)[cur], h)
      ensures stays ==> cpus == old(cpus) && threads == old(threads)[cur := old(threads)[cur].(yielded := false)]
      ensures !stays ==>
                && old(threads)[cur].prio < PRIORITIES
                && cpus == old(cpus)[c := PutBack(old(cpus)[c], cur, old(threads)[cur])]
                && threads == old(threads)[cur := LeftOff(old(threads)[cur])]
                && |cpus| == |old(cpus)| && h < |cpus[c].table| && cpus[c].table[h] != [] && cpus[c].table[h][0] == to
    {
      hide Queues;
      ThreadBounds(cpus, threads, cur);
      stays := false;
      if threads[cur].stat.Running? {
        if threads[cur].prio < h {
          stays := true;
        } else if threads[cur].prio == h && !threads[cur].yielded {
          stays := true;
        } else {
          Insert(cur);
        }
        ClearYield(cur);
      }
    }

    /** The thread is on no CPU for the moment. */
    method Detach(t: ThreadId)
      requires Queues(cpus, threads) && t in threads
      modifies this`threads
      ensures Queues(cpus, threads) && threads == old(threads)[t := old(threads)[t].(oncpu := DETACHED)]
    {
      SameQueue(cpus, threads, t, threads[t].(oncpu := DETACHED));
      threads := threads[t := threads[t].(oncpu := DETACHED)];
    }

    method ClearYield(t: ThreadId)
      requires Queues(cpus, threads) && t in threads
      modifies this`threads
      ensures Queues(cpus, threads) && threads == old(threads)[t := old(threads)[t].(yielded := false)]
    {
      SameQueue(cpus, threads, t, threads[t].(yielded := false));
      threads := threads[t := threads[t].(yielded := false)];
    }

    method Arrive(c: nat, t: ThreadId)
      requires Queues(cpus, threads) && t in threads
      modifies this`threads
      ensures Queues(cpus, threads) && threads == old(threads)[t := old(threads)[t].(oncpu := c)]
    {
      SameQueue(cpus, threads, t, threads[t].(oncpu := c));
      threads := threads[t := threads[t].(oncpu := c)];
    }

    /** Take `to`, the head of queue `h`, out of its queue and run it. */
    method SwitchTo(c: nat, to: ThreadId, h: nat)
      requires Queues(cpus, threads) && c < |cpus| && h < |cpus[c].table| && cpus[c].table[h] != []
               && cpus[c].table[h][0] == to
      requires to in threads && threads[to].stat.Ready? && threads[to].bind == c && threads[to].prio == h
      modifies this`threads, this`cpus
      ensures Queues(cpus, threads)
      ensures threads == old(threads)[to := old(threads)[to].(stat := Running)]
      ensures cpus == old(cpus)[c := Unlinked(old(cpus)[c], h, 0).(prioNow := h, current := to)]
    {
      hide Queues;
      ThreadBounds(cpus, threads, to);
      ReadyQueue(cpus, threads, to);
      CpuUpdateOk(cpus, threads, c, cpus[c].(prioNow := h));
      cpus := cpus[c := cpus[c].(prioNow := h)];
      ghost var i := Remove(to, threads[to].(stat := Running));
      ThreadBounds(cpus, threads, to);
      CpuUpdateOk(cpus, threads, c, cpus[c].(current := to));
      cpus := cpus[c := cpus[c].(current := to)];
    }

    // ---------------------------------------------------------------- the calls

    /**
     rt_schedule on CPU `c`: postponed inside an interrupt, and held off while the current thread
     has the scheduler locked.
     */
    method Schedule(c: nat)
      requires Valid() && c < CPUS && |cpus| == CPUS && cpus[c].current != NONE
      modifies this`threads, this`cpus
      ensures Valid() && old(cpus)[c].current in old(threads)
      ensures var allowed := old(cpus)[c].irqNest == 0 && old(threads)[old(cpus)[c].current].lockNest == 1;
              && (allowed ==> MostUrgent(cpus, threads, c) && Rescheduled(old(cpus), old(threads), cpus, threads, c))
              && (allowed && Settled(old(threads), c, old(cpus)[c].current) ==>
                    threads == old(threads) && cpus == old(cpus))
              && (!allowed ==>
                    && threads == old(threads)
                    && cpus == if old(cpus)[c].irqNest > 0 then old(cpus)[c := old(cpus)[c].(irqSwitch := true)]
                        else old(cpus))
    {
      hide Queues, Spots, IdleOk, Rescheduled, MostUrgent, Settled;
      CurrentKnown(cpus, threads, c);
      if cpus[c].irqNest > 0 {
        ToggleKeeps(cpus, threads, c, true);
        cpus := cpus[c := cpus[c].(irqSwitch := true)];
        return;
      }
      if threads[cpus[c].current].lockNest == 1 {
        Reschedule(c);
        SettledStays(old(cpus), old(threads), cpus, threads, c);
      }
    }

    /** rt_scheduler_do_irq_switch on CPU `c`: does what an rt_schedule inside the interrupt left undone. */
    method IrqSwitch(c: nat)
      requires Valid() && c < CPUS && |cpus| == CPUS && cpus[c].current != NONE
      modifies this`threads, this`cpus
      ensures Valid() && old(cpus)[c].current in old(threads)
      ensures var cpu := old(cpus)[c];
              var due := cpu.irqSwitch && cpu.irqNest == 0 && old(threads)[cpu.current].lockNest == 1;
              && (due ==>
                    && MostUrgent(cpus, threads, c)
                    && Rescheduled(old(cpus)[c := cpu.(irqSwitch := false)], old(threads), cpus, threads, c))
              && (due && Settled(old(threads), c, cpu.current) ==>
                    threads == old(threads) && cpus == old(cpus)[c := cpu.(irqSwitch := false)])
              && (!due ==> threads == old(threads) && cpus == old(cpus))
    {
      hide Queues, Spots, IdleOk, Rescheduled, MostUrgent, Settled;
      CurrentKnown(cpus, threads, c);
      if !cpus[c].irqSwitch {
        return;
      }
      if threads[cpus[c].current].lockNest == 1 && cpus[c].irqNest == 0 {
        ToggleKeeps(cpus, threads, c, false);
        cpus := cpus[c := cpus[c].(irqSwitch := false)];
        ghost var before := cpus;
        Reschedule(c);
        SettledStays(before, old(threads), cpus, threads, c);
      }
    }

    /** rt_thread_yield by the current thread of CPU `c`. */
    method Yield(c: nat)
      requires Valid() && c < CPUS && |cpus| == CPUS && cpus[c].current in threads
      modifies this`threads, this`cpus
      ensures Valid()
      ensures var cpu := old(cpus)[c];
              var marked := old(threads)[cpu.current := old(threads)[cpu.current].(yielded := true)];
              var allowed := cpu.irqNest == 0 && old(threads)[cpu.current].lockNest == 1;
              && (allowed ==> MostUrgent(cpus, threads, c) && Rescheduled(old(cpus), marked, cpus, threads, c))
              && (!allowed ==>
                    && threads == marked
                    && cpus == if cpu.irqNest > 0 then old(cpus)[c := cpu.(irqSwitch := true)] else old(cpus))
    {
      hide Queues, Rescheduled, MostUrgent;
      var cur := cpus[c].current;
      SameQueue(cpus, threads, cur, threads[cur].(yielded := true));
      SpotsSame(cpus, threads, cur, threads[cur].(yielded := true), idle);
      threads := threads[cur := threads[cur].(yielded := true)];
      Schedule(c);
    }

    /** The counter tested by rt_schedule changes; LockNest says how. */
    method SetLockNest(t: ThreadId, nest: int)
      requires Valid() && t in threads
      modifies this`threads
      ensures Valid() && threads == old(threads)[t := old(threads)[t].(lockNest := nest)]
    {
      hide Queues, Spots;
      ThreadBounds(cpus, threads, t);
      SameQueue(cpus, threads, t, threads[t].(lockNest := nest));
      SpotsSame(cpus, threads, t, threads[t].(lockNest := nest), idle);
      threads := threads[t := threads[t].(lockNest := nest)];
    }

    /** rt_interrupt_enter and rt_interrupt_leave */
    method SetIrqNest(c: nat, nest: nat)
      requires Valid() && c < CPUS && |cpus| == CPUS
      modifies this`cpus
      ensures Valid() && cpus == old(cpus)[c := old(cpus)[c].(irqNest := nest)]
    {
      hide Queues, Spots;
      CpuUpdateOk(cpus, threads, c, cpus[c].(irqNest := nest));
      SpotsFrame(cpus, cpus[c := cpus[c].(irqNest := nest)], threads);
      cpus := cpus[c := cpus[c].(irqNest := nest)];
    }

    /**
     rt_thread_suspend of a ready thread, or of the current thread of its CPU, which stays there
     until it reschedules.
     */
    method Suspend(t: ThreadId) returns (ok: bool, ghost i: nat)
      requires Valid() && t in threads && t !in idle
      modifies this`threads, this`cpus
      ensures Valid() && ok == (old(threads)[t].stat.Ready? || old(threads)[t].stat.Running?)
      ensures threads == if ok then old(threads)[t := old(threads)[t].(stat := Suspended)] else old(threads)
      ensures if old(threads)[t].stat.Ready? then Parted(old(cpus), cpus, t, old(threads)[t], i) else cpus == old(cpus)
    {
      hide Queues, Spots;
      ThreadBounds(cpus, threads, t);
      i := 0;
      if !threads[t].stat.Ready? && !threads[t].stat.Running? {
        return false, i;
      }
      SuspendSpots(cpus, threads, t, idle);
      if threads[t].stat.Ready? {
        i := Remove(t, threads[t].(stat := Suspended));
        SpotsFrame(old(cpus), cpus, threads);
      } else {
        EmptyBit(cpus, threads, t);   // rt_schedule_remove_thread finds nothing to remove and clears no bit in use
        UpdateOk(cpus, threads, t, threads[t].(stat := Suspended));
        threads := threads[t := threads[t].(stat := Suspended)];
      }
      return true, i;
    }

    /** rt_thread_resume, and the end of rt_thread_timeout. */
    method Resume(t: ThreadId) returns (ok: bool)
      requires Valid() && t in threads
      modifies this`threads, this`cpus
      ensures Valid() && ok == old(threads)[t].stat.Suspended?
      ensures !ok ==> threads == old(threads) && cpus == old(cpus)
      ensures ok ==> threads == old(threads)[t := old(threads)[t].(stat := if old(threads)[t].oncpu != DETACHED
                                                                   then Running else Ready)]
      ensures ok ==> if old(threads)[t].oncpu != DETACHED then cpus == old(cpus)
              else Joined(old(cpus), cpus, t, threads[t])
    {
      hide Queues, Spots;
      if !threads[t].stat.Suspended? {
        return false;
      }
      ThreadBounds(cpus, threads, t);
      ResumeSpots(cpus, threads, t, idle);
      Insert(t);
      SpotsFrame(old(cpus), cpus, threads);
      return true;
    }

    /** rt_thread_startup of a new thread, up to its call of rt_schedule. */
    method Startup(t: ThreadId, prio: nat)
      requires Valid() && t in threads && threads[t].stat.Init? && prio < PRIORITIES
      modifies this`threads, this`cpus
      ensures Valid()
      ensures threads == old(threads)[t := old(threads)[t].(prio := prio, stat := Ready)]
              && Joined(old(cpus), cpus, t, threads[t])
    {
      hide Queues, Spots;
      ThreadBounds(cpus, threads, t);
      StartSpots(cpus, threads, t, prio, idle);
      UpdateOk(cpus, threads, t, threads[t].(prio := prio, stat := Suspended));
      threads := threads[t := threads[t].(prio := prio, stat := Suspended)];
      var ok := Resume(t);
    }

    /** RT_THREAD_CTRL_CHANGE_PRIORITY: a ready thread moves to the end of its new queue. */
    method ChangePriority(t: ThreadId, prio: nat) returns (ghost i: nat, ghost between: seq<Cpu>)
      requires Valid() && t in threads && prio < PRIORITIES
      modifies this`threads, this`cpus
      ensures Valid()
      ensures threads == old(threads)[t := old(threads)[t].(prio := prio)]
      ensures if old(threads)[t].stat.Ready?
              then Parted(old(cpus), between, t, old(threads)[t], i)
                  && Joined(between, cpus, t, threads[t]) else cpus == old(cpus)
    {
      hide Queues, Spots;
      i, between := 0, cpus;
      ThreadBounds(cpus, threads, t);
      SpotsSame(cpus, threads, t, threads[t].(prio := prio), idle);
      if threads[t].stat.Ready? {
        ReadyDetached(cpus, threads, t);
        i := Remove(t, threads[t].(prio := prio, stat := Suspended));
        between := cpus;
        Insert(t);
        assert threads == old(threads)[t := old(threads)[t].(prio := prio)];
        assert forall d | 0 <= d < CPUS :: between[d].current == old(cpus)[d].current;
        SpotsFrame(old(cpus), cpus, threads);
      } else {
        UpdateOk(cpus, threads, t, threads[t].(prio := prio));
        threads := threads[t := threads[t].(prio := prio)];
      }
    }
  }

  /**
   rt_schedule on a CPU whose current thread has `o` open, the rt_cpus_lock of
   rt_schedule itself included: outside an interrupt it reschedules exactly if the
   thread is in no critical section.
   */
  method ScheduleInside(s: System, c: nat, ghost o: LockNest.Open)
    requires s.Valid() && c < CPUS && |s.cpus| == CPUS && s.cpus[c].irqNest == 0
    requires s.cpus[c].current != NONE && s.cpus[c].current in s.threads
    requires o.locks > 0 && s.threads[s.cpus[c].current].lockNest == LockNest.Counters(o).scheduler
    modifies s`threads, s`cpus
    ensures s.Valid()
    ensures o.criticals == 0 ==>
              MostUrgent(s.cpus, s.threads, c) && Rescheduled(old(s.cpus), old(s.threads), s.cpus, s.threads, c)
    ensures o.criticals > 0 ==> s.threads == old(s.threads) && s.cpus == old(s.cpus)
  {
    hide Queues, Spots, IdleOk, Rescheduled, MostUrgent;
    LockNest.OneMeansNotCritical(o);
    s.Schedule(c);
  }

  lemma ThreadBounds(cpus: seq<Cpu>, threads: map<ThreadId, Thread>, t: ThreadId)
    requires Queues(cpus, threads) && t in threads
    ensures |cpus| == CPUS && threads[t].prio < PRIORITIES && threads[t].bind < CPUS
    ensures |cpus[threads[t].bind].table| == PRIORITIES
  {
    assert TableOk(cpus[threads[t].bind], threads, threads[t].bind);
  }

  /** A ready thread is in the queue of its CPU and priority. */
  lemma ReadyQueue(cpus: seq<Cpu>, threads: map<ThreadId, Thread>, t: ThreadId)
    requires Queues(cpus, threads) && t in threads && threads[t].stat.Ready?
    ensures var b, p := threads[t].bind, threads[t].prio;
            b < |cpus| && p < |cpus[b].table| && NoRepeats(cpus[b].table[p]) && t in cpus[b].table[p]
  {
    var b, p := threads[t].bind, threads[t].prio;
    assert TableOk(cpus[b], threads, b);
    assert QueueOk(cpus[b].table[p], threads, b, p);
  }

  lemma CurrentKnown(cpus: seq<Cpu>, threads: map<ThreadId, Thread>, c: nat)
    requires Spots(cpus, threads) && Queues(cpus, threads) && c < CPUS && cpus[c].current != NONE
    ensures cpus[c].current in threads
    ensures var cur := cpus[c].current;
            threads[cur].oncpu == c && threads[cur].bind == c && !threads[cur].stat.Ready? && !threads[cur].stat.Init?
    ensures threads[cpus[c].current].prio < PRIORITIES && |cpus[c].table| == PRIORITIES
  {
    assert CurrentOk(cpus[c].current, threads, c);
    assert TableOk(cpus[c], threads, c);
  }

  // ---------------------------------------------------------------- where threads are, step by step

  lemma SpotsFrame(cpus: seq<Cpu>, cpus': seq<Cpu>, threads: map<ThreadId, Thread>)
    requires Spots(cpus, threads) && |cpus'| == |cpus|
    requires forall c | 0 <= c < |cpus| :: cpus'[c].current == cpus[c].current
    ensures Spots(cpus', threads)
  {
    forall c: nat | c < |cpus| ensures CurrentOk(cpus'[c].current, threads, c) {
      assert CurrentOk(cpus[c].current, threads, c);
    }
    forall t | t in threads ensures SpotOk(t, threads, cpus') {
      assert SpotOk(t, threads, cpus);
    }
  }

  /** Thread `t` changes; it stays on its CPU, if any, and its new state fits that. */
  lemma SpotsUpdate(cpus: seq<Cpu>, threads: map<ThreadId, Thread>, t: ThreadId, thread: Thread)
    requires Spots(cpus, threads) && t in threads && thread.oncpu == threads[t].oncpu && thread.bind == threads[t].bind
    requires thread.stat.Ready? || thread.stat.Init? ==> thread.oncpu == DETACHED
    requires thread.stat.Running? ==> thread.oncpu != DETACHED
    requires |cpus| == CPUS
    ensures Spots(cpus, threads[t := thread])
  {
    var threads' := threads[t := thread];
    forall c: nat | c < |cpus| ensures CurrentOk(cpus[c].current, threads', c) {
      assert CurrentOk(cpus[c].current, threads, c);
    }
    forall x | x in threads' ensures SpotOk(x, threads', cpus) {
      assert SpotOk(x, threads, cpus);
    }
  }

  lemma SpotsSame(cpus: seq<Cpu>, threads: map<ThreadId, Thread>, t: ThreadId, thread: Thread, idle: seq<ThreadId>)
    requires Spots(cpus, threads) && IdleOk(idle, threads) && t in threads && |cpus| == CPUS
    requires thread.oncpu == threads[t].oncpu && thread.bind == threads[t].bind && thread.stat == threads[t].stat
    ensures Spots(cpus, threads[t := thread]) && IdleOk(idle, threads[t := thread])
  {
    assert SpotOk(t, threads, cpus);
    SpotsUpdate(cpus, threads, t, thread);
  }

  lemma SuspendSpots(cpus: seq<Cpu>, threads: map<ThreadId, Thread>, t: ThreadId, idle: seq<ThreadId>)
    requires Spots(cpus, threads) && IdleOk(idle, threads) && t in threads && t !in idle && |cpus| == CPUS
    ensures Spots(cpus, threads[t := threads[t].(stat := Suspended)])
    ensures IdleOk(idle, threads[t := threads[t].(stat := Suspended)])
  {
    SpotsUpdate(cpus, threads, t, threads[t].(stat := Suspended));
    assert forall c: nat | c < CPUS :: idle[c] in idle;
  }

  lemma ResumeSpots(cpus: seq<Cpu>, threads: map<ThreadId, Thread>, t: ThreadId, idle: seq<ThreadId>)
    requires Spots(cpus, threads) && IdleOk(idle, threads) && t in threads && threads[t].stat.Suspended?
             && |cpus| == CPUS
    ensures var thread := threads[t].(stat := if threads[t].oncpu != DETACHED then Running else Ready);
            Spots(cpus, threads[t := thread]) && IdleOk(idle, threads[t := thread])
  {
    SpotsUpdate(cpus, threads, t, threads[t].(stat := if threads[t].oncpu != DETACHED then Running else Ready));
  }

  lemma StartSpots(cpus: seq<Cpu>, threads: map<ThreadId, Thread>, t: ThreadId, prio: nat, idle: seq<ThreadId>)
    requires Spots(cpus, threads) && IdleOk(idle, threads) && t in threads && threads[t].stat.Init? && |cpus| == CPUS
    ensures threads[t].oncpu == DETACHED
    ensures var thread := threads[t].(prio := prio, stat := Suspended);
            Spots(cpus, threads[t := thread]) && IdleOk(idle, threads[t := thread])
  {
    assert SpotOk(t, threads, cpus);
    SpotsUpdate(cpus, threads, t, threads[t].(prio := prio, stat := Suspended));
  }

  lemma ReadyDetached(cpus: seq<Cpu>, threads: map<ThreadId, Thread>, t: ThreadId)
    requires Spots(cpus, threads) && t in threads && threads[t].stat.Ready?
    ensures threads[t].oncpu == DETACHED
  {
    assert SpotOk(t, threads, cpus);
  }

  /** Clearing the bit of an empty queue changes nothing. */
  lemma EmptyBit(cpus: seq<Cpu>, threads: map<ThreadId, Thread>, t: ThreadId)
    requires Queues(cpus, threads) && t in threads
    ensures var b, p := threads[t].bind, threads[t].prio;
            b < |cpus| && p < |cpus[b].table| && (cpus[b].table[p] == []
                                                  ==> ClearBit(cpus[b].group, p) == cpus[b].group)
  {
    var b, p := threads[t].bind, threads[t].prio;
    assert TableOk(cpus[b], threads, b);
    if cpus[b].table[p] == [] {
      ClearNothing(cpus[b].group, p);
    }
  }

  lemma ToggleKeeps(cpus: seq<Cpu>, threads: map<ThreadId, Thread>, c: nat, on: bool)
    requires Queues(cpus, threads) && Spots(cpus, threads) && c < CPUS && |cpus| == CPUS
    ensures Queues(cpus[c := cpus[c].(irqSwitch := on)], threads)
            && Spots(cpus[c := cpus[c].(irqSwitch := on)], threads)
  {
    CpuUpdateOk(cpus, threads, c, cpus[c].(irqSwitch := on));
    SpotsFrame(cpus, cpus[c := cpus[c].(irqSwitch := on)], threads);
  }

  lemma EmptyQueues(cpus: seq<Cpu>)
    requires |cpus| == CPUS
    requires forall c: nat | c < CPUS ::
               cpus[c].group == 0 && |cpus[c].table| == PRIORITIES
               && forall p: nat | p < PRIORITIES :: cpus[c].table[p] == []
    ensures Queues(cpus, map[])
  {
    NoBits();
    forall c: nat | c < CPUS ensures TableOk(cpus[c], map[], c) {
      forall p: nat | p < PRIORITIES ensures QueueOk(cpus[c].table[p], map[], c, p) {
      }
      Powers();
    }
  }

  lemma FirstSpots(cpus: seq<Cpu>, threads: map<ThreadId, Thread>, idle: seq<ThreadId>)
    requires |cpus| == |idle| == CPUS && NONE !in threads
    requires forall c | 0 <= c < CPUS :: cpus[c].current == NONE
    requires forall t | t in threads :: threads[t].stat.Ready? && threads[t].oncpu == DETACHED
    requires forall c | 0 <= c < CPUS :: idle[c] in threads && threads[idle[c]].bind == c
    ensures Spots(cpus, threads) && IdleOk(idle, threads)
  {
    forall c: nat | c < CPUS ensures idle[c] in threads && threads[idle[c]].bind == c && threads[idle[c]].stat.Ready? {
      var i := idle[c];
      assert i in threads;
    }
  }

  lemma AddThread(cpus: seq<Cpu>, threads: map<ThreadId, Thread>, t: ThreadId, th: Thread, idle: seq<ThreadId>)
    requires Queues(cpus, threads) && Spots(cpus, threads) && IdleOk(idle, threads) && t !in threads && t != NONE
    requires th.stat.Init? && th.oncpu == DETACHED && th.prio < PRIORITIES && th.bind < CPUS
    ensures Queues(cpus, threads[t := th]) && Spots(cpus, threads[t := th]) && IdleOk(idle, threads[t := th])
  {
    var threads' := threads[t := th];
    forall c: nat | c < CPUS ensures TableOk(cpus[c], threads', c) {
      assert TableOk(cpus[c], threads, c);
      forall q: nat | q < PRIORITIES ensures QueueOk(cpus[c].table[q], threads', c, q) {
        assert QueueOk(cpus[c].table[q], threads, c, q);
      }
    }
    forall c: nat | c < CPUS ensures CurrentOk(cpus[c].current, threads', c) {
      assert CurrentOk(cpus[c].current, threads, c);
    }
    forall x | x in threads' ensures SpotOk(x, threads', cpus) {
      assert x != t ==> SpotOk(x, threads, cpus);
    }
  }

  // ---------------------------------------------------------------- rescheduling

  /** Rescheduling keeps every thread in one place and leaves the most urgent one running. */
  lemma RescheduleKeeps(cpus: seq<Cpu>, threads: map<ThreadId, Thread>, cpus': seq<Cpu>,
                        threads': map<ThreadId, Thread>, c: nat, idle: seq<ThreadId>)
    requires Queues(cpus, threads) && Spots(cpus, threads) && IdleOk(idle, threads) && c < CPUS
             && cpus[c].current != NONE
    requires Rescheduled(cpus, threads, cpus', threads', c)
    ensures Spots(cpus', threads') && IdleOk(idle, threads') && MostUrgent(cpus', threads', c)
  {
    hide Queues, Ffs, Unlinked, Appended;
    HighestReady(cpus, threads, c);
    CurrentKnown(cpus, threads, c);
    ThreadBounds(cpus, threads, cpus[c].current);
    var cur := cpus[c].current;
    if cpus[c].group == 0 {
      IdleRuns(cpus, threads, c, idle);
    } else {
      var h := Ffs(cpus[c].group) - 1;
      if Stays(threads[cur], h) {
        SpotsSame(cpus, threads, cur, threads[cur].(yielded := false), idle);
      } else {
        var to := cpus[c].table[h][0];
        SwitchSpots(cpus, threads, cpus', threads', c, cur, to, idle);
      }
    }
  }

  /** With nothing ready, the idle thread is the one running. */
  lemma IdleRuns(cpus: seq<Cpu>, threads: map<ThreadId, Thread>, c: nat, idle: seq<ThreadId>)
    requires Spots(cpus, threads) && IdleOk(idle, threads) && c < CPUS && |cpus| == CPUS
    requires forall t | t in threads && threads[t].stat.Ready? :: threads[t].bind != c
    ensures MostUrgent(cpus, threads, c)
  {
    var i := idle[c];
    assert SpotOk(i, threads, cpus);
    var d := threads[i].oncpu;
    assert CurrentOk(cpus[d].current, threads, d);
  }

  lemma SwitchSpots(cpus: seq<Cpu>, threads: map<ThreadId, Thread>, cpus': seq<Cpu>, threads': map<ThreadId, Thread>,
                    c: nat,
                    cur: ThreadId, to: ThreadId, idle: seq<ThreadId>)
    requires Spots(cpus, threads) && IdleOk(idle, threads) && c < CPUS && |cpus| == |cpus'| == CPUS
    requires cpus[c].current == cur && cur in threads && threads[cur].bind == c && !threads[cur].stat.Ready?
             && !threads[cur].stat.Init?
    requires to in threads && threads[to].stat.Ready? && threads[to].bind == c
    requires cpus'[c].current == to && forall d | 0 <= d < CPUS && d != c :: cpus'[d].current == cpus[d].current
    requires threads' == threads[cur := LeftOff(threads[cur])][to := threads[to].(stat := Running, oncpu := c)]
    ensures Spots(cpus', threads') && IdleOk(idle, threads')
  {
    assert SpotOk(to, threads, cpus);
    forall d: nat | d < CPUS ensures CurrentOk(cpus'[d].current, threads', d) {
      assert CurrentOk(cpus[d].current, threads, d);
    }
    forall x | x in threads' ensures SpotOk(x, threads', cpus') {
      assert SpotOk(x, threads, cpus);
      assert CurrentOk(cpus[c].current, threads, c);
    }
    forall d: nat | d < CPUS ensures idle[d] in threads' && threads'[idle[d]].bind == d
        && (threads'[idle[d]].stat.Ready? || threads'[idle[d]].stat.Running?) {
      assert idle[d] in threads;
    }
  }

  /** Before it starts, a CPU has its idle thread ready. */
  lemma IdleReady(cpus: seq<Cpu>, threads: map<ThreadId, Thread>, c: nat, idle: seq<ThreadId>) returns (i: ThreadId)
    requires Spots(cpus, threads) && IdleOk(idle, threads) && c < CPUS && |cpus| == CPUS && cpus[c].current == NONE
    ensures i in threads && threads[i].stat.Ready? && threads[i].bind == c
  {
    i := idle[c];
    assert SpotOk(i, threads, cpus);
    var d := if threads[i].oncpu < CPUS then threads[i].oncpu else 0;
    assert CurrentOk(cpus[d].current, threads, d);
  }

  lemma StartSpotsOk(cpus: seq<Cpu>, threads: map<ThreadId, Thread>, cpus': seq<Cpu>, threads': map<ThreadId, Thread>,
                     c: nat, to: ThreadId, idle: seq<ThreadId>)
    requires Spots(cpus, threads) && IdleOk(idle, threads) && c < CPUS && |cpus| == |cpus'| == CPUS
             && cpus[c].current == NONE
    requires to in threads && threads[to].stat.Ready? && threads[to].bind == c
    requires forall t | t in threads && threads[t].stat.Ready?
             && threads[t].bind == c :: threads[to].prio <= threads[t].prio
    requires cpus'[c].current == to && forall d | 0 <= d < CPUS && d != c :: cpus'[d].current == cpus[d].current
    requires threads' == threads[to := threads[to].(stat := Running, oncpu := c)]
    ensures Spots(cpus', threads') && IdleOk(idle, threads') && MostUrgent(cpus', threads', c)
  {
    assert SpotOk(to, threads, cpus);
    forall d: nat | d < CPUS ensures CurrentOk(cpus'[d].current, threads', d) {
      assert CurrentOk(cpus[d].current, threads, d);
    }
    forall x | x in threads' ensures SpotOk(x, threads', cpus') {
      assert SpotOk(x, threads, cpus);
    }
  }

  /** An idle CPU `c` now runs the thread that had waited longest among the most urgent ready ones. */
  ghost predicate StartedFirst(cpus: seq<Cpu>, threads: map<ThreadId, Thread>, cpus': seq<Cpu>,
                               threads': map<ThreadId, Thread>, c: nat) {
    && c < |cpus| == |cpus'| && ReadyOn(threads, c, cpus'[c].current)
    && var to := cpus'[c].current;
       var p := threads[to].prio;
       && (forall t | ReadyOn(threads, c, t) :: p <= threads[t].prio)
       && p < |cpus[c].table| && cpus[c].table[p] != [] && cpus[c].table[p][0] == to
       && OnlyQueue(cpus[c := cpus[c].(current := to, prioNow := p)], cpus', c, p)
       && cpus'[c].table[p] == cpus[c].table[p][1..]
       && threads' == threads[to := threads[to].(stat := Running, oncpu := c)]
  }

  lemma StartTook(cpus: seq<Cpu>, threads: map<ThreadId, Thread>, cpus': seq<Cpu>, threads': map<ThreadId, Thread>,
                  c: nat, to: ThreadId)
    requires c < |cpus| && ReadyOn(threads, c, to)
    requires forall t | ReadyOn(threads, c, t) :: threads[to].prio <= threads[t].prio
    requires var p := threads[to].prio;
             && p < |cpus[c].table| && cpus[c].table[p] != [] && cpus[c].table[p][0] == to
             && cpus' == cpus[c := Unlinked(cpus[c], p, 0).(prioNow := p, current := to)]
    requires threads' == threads[to := threads[to].(stat := Running, oncpu := c)]
    ensures StartedFirst(cpus, threads, cpus', threads', c)
  {
  }

  /** A thread ready on CPU `c`. */
  ghost predicate ReadyOn(threads: map<ThreadId, Thread>, c: nat, t: ThreadId) {
    t in threads && threads[t].stat.Ready? && threads[t].bind == c
  }

  /** The current thread runs, and no thread ready on its CPU is more urgent, or as urgent if it has yielded. */
  ghost predicate KeepsCpu(threads: map<ThreadId, Thread>, c: nat, cur: ThreadId) {
    cur in threads && forall t | ReadyOn(threads, c, t) ::
      threads[cur].stat.Running?
      && (threads[cur].prio < threads[t].prio || (threads[cur].prio == threads[t].prio && !threads[cur].yielded))
  }

  /** The current thread runs and has not yielded, and no thread ready on its CPU is more urgent. */
  ghost predicate Settled(threads: map<ThreadId, Thread>, c: nat, cur: ThreadId) {
    && cur in threads && threads[cur].stat.Running? && !threads[cur].yielded
    && forall t | ReadyOn(threads, c, t) :: threads[cur].prio <= threads[t].prio
  }

  lemma SettledStays(cpus: seq<Cpu>, threads: map<ThreadId, Thread>, cpus': seq<Cpu>,
                     threads': map<ThreadId, Thread>, c: nat)
    requires Queues(cpus, threads) && Spots(cpus, threads) && c < CPUS && |cpus| == CPUS && cpus[c].current != NONE
    requires Rescheduled(cpus, threads, cpus', threads', c)
    ensures Settled(threads, c, cpus[c].current) ==> cpus' == cpus && threads' == threads
  {
    hide Queues, Spots, Rescheduled;
    if Settled(threads, c, cpus[c].current) {
      RescheduleStays(cpus, threads, cpus', threads', c);
    }
  }

  /** Then nothing changes, but that a yield is used up if any other thread is ready. */
  lemma RescheduleStays(cpus: seq<Cpu>, threads: map<ThreadId, Thread>, cpus': seq<Cpu>,
                        threads': map<ThreadId, Thread>, c: nat)
    requires Queues(cpus, threads) && Spots(cpus, threads) && c < CPUS && cpus[c].current != NONE
    requires Rescheduled(cpus, threads, cpus', threads', c) && KeepsCpu(threads, c, cpus[c].current)
    ensures cpus' == cpus
    ensures !threads[cpus[c].current].yielded ==> threads' == threads
    ensures threads' == if exists t :: ReadyOn(threads, c, t)
                        then threads[cpus[c].current := threads[cpus[c].current].(yielded := false)] else threads
  {
    hide Queues, Ffs;
    var cur := cpus[c].current;
    CurrentKnown(cpus, threads, c);
    HighestReady(cpus, threads, c);
    if cpus[c].group != 0 {
      assert ReadyOn(threads, c, cpus[c].table[Ffs(cpus[c].group) - 1][0]);
    } else {
      assert forall t :: !ReadyOn(threads, c, t);
    }
  }

  /**
   Otherwise the CPU goes on with the thread that has waited longest among the most urgent ready ones, and a running
   thread goes to the end of its queue.  No other queue, thread or CPU changes.
   */
  lemma RescheduleSwitches(cpus: seq<Cpu>, threads: map<ThreadId, Thread>, cpus': seq<Cpu>,
                           threads': map<ThreadId, Thread>, c: nat)
    requires Queues(cpus, threads) && Spots(cpus, threads) && c < CPUS && cpus[c].current != NONE
    requires Rescheduled(cpus, threads, cpus', threads', c) && !KeepsCpu(threads, c, cpus[c].current)
    ensures |cpus| == |cpus'| == CPUS && |cpus[c].table| == |cpus'[c].table| == PRIORITIES
    ensures ReadyOn(threads, c, cpus'[c].current)
    ensures forall t | ReadyOn(threads, c, t) :: threads[cpus'[c].current].prio <= threads[t].prio
    ensures var cur, to := cpus[c].current, cpus'[c].current;
            && cur in threads && threads[to].prio < PRIORITIES && cpus[c].table[threads[to].prio] != []
            && cpus[c].table[threads[to].prio][0] == to
            && (forall q: nat | q < PRIORITIES :: cpus'[c].table[q] ==
                  (if q == threads[to].prio then cpus[c].table[q][1..] else cpus[c].table[q])
                  + (if q == threads[cur].prio && threads[cur].stat.Running? then [cur] else []))
            && cpus'[c].prioNow == threads[to].prio && cpus'[c].irqNest == cpus[c].irqNest
            && cpus'[c].irqSwitch == cpus[c].irqSwitch
            && (forall d | 0 <= d < CPUS && d != c :: cpus'[d] == cpus[d])
            && (forall t :: t in threads' <==> t in threads)
            && (forall t | t in threads && t != cur && t != to :: threads'[t] == threads[t])
            && threads'[to] == threads[to].(stat := Running, oncpu := c)
            && threads'[cur] == threads[cur].(stat := if threads[cur].stat.Running? then Ready else threads[cur].stat,
                                              oncpu := DETACHED,
                                              yielded := threads[cur].yielded && !threads[cur].stat.Running?)
  {
    hide Queues, Ffs;
    CurrentKnown(cpus, threads, c);
    HighestReady(cpus, threads, c);
    ThreadBounds(cpus, threads, cpus[c].current);
  }

  /** A yield among equals rotates the queue: the head runs, and the yielding thread goes to the end. */
  lemma YieldRotates(cpus: seq<Cpu>, threads: map<ThreadId, Thread>, cpus': seq<Cpu>, threads': map<ThreadId, Thread>,
                     c: nat)
    requires Queues(cpus, threads) && Spots(cpus, threads) && c < CPUS && cpus[c].current != NONE
             && cpus[c].current in threads
    requires Rescheduled(cpus, threads, cpus', threads', c)
    requires var cur := cpus[c].current;
             threads[cur].stat.Running? && threads[cur].yielded && cpus[c].group != 0
                 && threads[cur].prio == Ffs(cpus[c].group) - 1
    ensures var cur, p := cpus[c].current, threads[cpus[c].current].prio;
            && p < |cpus[c].table| && c < |cpus'| && p < |cpus'[c].table| && cpus[c].table[p] != []
            && cpus'[c].current == cpus[c].table[p][0]
            && cpus'[c].table[p] == cpus[c].table[p][1..] + [cur]
            && cur in threads' && threads'[cur].stat.Ready? && !threads'[cur].yielded
  {
    hide Queues, Ffs;
    var cur := cpus[c].current;
    CurrentKnown(cpus, threads, c);
    HighestReady(cpus, threads, c);
  }
}
