/** The ready queues of scheduler.c as values: per CPU, one FIFO a priority and a bit map of the queues in use. */
module ReadyQueues {
  import opened Sequences
  import opened WaitList
  import opened FirstSet

  const CPUS: int := 5             // RT_CPUS_NR
  const DETACHED: int := 5         // RT_CPU_DETACHED
  const PRIORITIES: int := 32      // RT_THREAD_PRIORITY_MAX
  const NONE: ThreadId := -1

  datatype Stat = Init | Ready | Running | Suspended | Closed

  /** `yielded` is RT_THREAD_STAT_YIELD; `lockNest` is scheduler_lock_nest as rt_schedule sees it. */
  datatype Thread = Thread(stat: Stat, prio: nat, bind: nat, oncpu: nat, yielded: bool, lockNest: int)

  datatype Cpu = Cpu(current: ThreadId, prioNow: nat, group: nat, table: seq<seq<ThreadId>>, irqNest: nat,
                     irqSwitch: bool)

  /** Queue `p` of CPU `c` holds exactly the ready threads bound there with that priority. */
  ghost predicate QueueOk(q: seq<ThreadId>, threads: map<ThreadId, Thread>, c: nat, p: nat) {
    && NoRepeats(q)
    && forall t {:trigger t in q} {:trigger threads[t]} ::
         t in q <==> t in threads && threads[t].stat.Ready? && threads[t].bind == c && threads[t].prio == p
  }

  /** Bit `p` is set exactly if queue `p` is not empty. */
  ghost predicate GroupOk(group: nat, table: seq<seq<ThreadId>>) {
    && |table| == PRIORITIES && group < Power(PRIORITIES)
    && forall p: nat {:trigger Bit(group, p)} {:trigger table[p]} | p < PRIORITIES :: Bit(group, p) <==> table[p] != []
  }

  ghost predicate TableOk(cpu: Cpu, threads: map<ThreadId, Thread>, c: nat) {
    && GroupOk(cpu.group, cpu.table)
    && forall p: nat {:trigger QueueOk(cpu.table[p], threads, c, p)} | p < PRIORITIES ::
        QueueOk(cpu.table[p], threads, c, p)
  }

  ghost predicate Queues(cpus: seq<Cpu>, threads: map<ThreadId, Thread>) {
    && |cpus| == CPUS
    && (forall c: nat {:trigger TableOk(cpus[c], threads, c)} | c < CPUS :: TableOk(cpus[c], threads, c))
    && (forall t {:trigger threads[t]} | t in threads :: threads[t].prio < PRIORITIES && threads[t].bind < CPUS)
  }

  // ---------------------------------------------------------------- insert and remove

  /** CPU `cpu` with `t` behind the others of priority `p`. */
  function Appended(cpu: Cpu, t: ThreadId, p: nat): Cpu
    requires p < |cpu.table|
  {
    cpu.(group := SetBit(cpu.group, p), table := cpu.table[p := cpu.table[p] + [t]])
  }

  /** CPU `cpu` with entry `i` of queue `p` taken out. */
  function Unlinked(cpu: Cpu, p: nat, i: nat): Cpu
    requires p < |cpu.table| && i < |cpu.table[p]|
  {
    var q := cpu.table[p][..i] + cpu.table[p][i + 1..];
    cpu.(group := if q == [] then ClearBit(cpu.group, p) else cpu.group, table := cpu.table[p := q])
  }

  lemma GroupAppend(cpu: Cpu, t: ThreadId, p: nat)
    requires GroupOk(cpu.group, cpu.table) && p < PRIORITIES
    ensures GroupOk(Appended(cpu, t, p).group, Appended(cpu, t, p).table)
  {
    SetBitBound(cpu.group, p, PRIORITIES);
    forall q: nat | q < PRIORITIES ensures Bit(SetBit(cpu.group, p), q) <==> q == p || Bit(cpu.group, q) {
      BitOfSet(cpu.group, p, q);
    }
  }

  lemma GroupUnlink(cpu: Cpu, p: nat, i: nat)
    requires GroupOk(cpu.group, cpu.table) && p < PRIORITIES && i < |cpu.table[p]|
    ensures GroupOk(Unlinked(cpu, p, i).group, Unlinked(cpu, p, i).table)
  {
    ClearBitBound(cpu.group, p);
    forall q: nat | q < PRIORITIES ensures Bit(ClearBit(cpu.group, p), q) <==> q != p && Bit(cpu.group, q) {
      BitOfClear(cpu.group, p, q);
    }
  }

  lemma {:induction false} ClearNothing(n: nat, p: nat)
    requires !Bit(n, p)
    ensures ClearBit(n, p) == n
  {
    if p > 0 {
      ClearNothing(n / 2, p - 1);
    }
  }

  /** A thread that was in no queue goes to the end of its own. */
  lemma EnqueueOk(cpus: seq<Cpu>, threads: map<ThreadId, Thread>, t: ThreadId, thread: Thread)
    requires Queues(cpus, threads) && (t in threads ==> !threads[t].stat.Ready?)
    requires thread.stat.Ready? && thread.prio < PRIORITIES && thread.bind < CPUS
    ensures |cpus[thread.bind].table| == PRIORITIES
    ensures Queues(cpus[thread.bind := Appended(cpus[thread.bind], t, thread.prio)], threads[t := thread])
  {
    var b, p := thread.bind, thread.prio;
    assert TableOk(cpus[b], threads, b);
    var cpus', threads' := cpus[b := Appended(cpus[b], t, p)], threads[t := thread];
    GroupAppend(cpus[b], t, p);
    forall c: nat | c < CPUS ensures TableOk(cpus'[c], threads', c) {
      assert TableOk(cpus[c], threads, c);
      forall q: nat | q < PRIORITIES ensures QueueOk(cpus'[c].table[q], threads', c, q) {
        assert QueueOk(cpus[c].table[q], threads, c, q);
        QueueAppend(cpus[c].table[q], cpus'[c].table[q], threads, t, thread, c, q);
      }
    }
  }

  lemma QueueAppend(q: seq<ThreadId>, q': seq<ThreadId>, threads: map<ThreadId, Thread>, t: ThreadId, thread: Thread,
                    c: nat, p: nat)
    requires QueueOk(q, threads, c, p) && (t in threads ==> !threads[t].stat.Ready?) && thread.stat.Ready?
    requires q' == if thread.bind == c && thread.prio == p then q + [t] else q
    ensures QueueOk(q', threads[t := thread], c, p)
  {
    assert t !in q;
  }

  /** A thread leaves its queue. */
  lemma DequeueOk(cpus: seq<Cpu>, threads: map<ThreadId, Thread>, t: ThreadId, thread: Thread, i: nat)
    requires Queues(cpus, threads) && t in threads && threads[t].stat.Ready?
    requires !thread.stat.Ready? && thread.prio < PRIORITIES && thread.bind < CPUS
    requires var b, p := threads[t].bind, threads[t].prio;
             b < |cpus| && p < |cpus[b].table| && i < |cpus[b].table[p]| && cpus[b].table[p][i] == t
    ensures var b, p := threads[t].bind, threads[t].prio;
            Queues(cpus[b := Unlinked(cpus[b], p, i)], threads[t := thread])
  {
    var b, p := threads[t].bind, threads[t].prio;
    assert TableOk(cpus[b], threads, b);
    var cpus', threads' := cpus[b := Unlinked(cpus[b], p, i)], threads[t := thread];
    GroupUnlink(cpus[b], p, i);
    forall c: nat | c < CPUS ensures TableOk(cpus'[c], threads', c) {
      assert TableOk(cpus[c], threads, c);
      forall q: nat | q < PRIORITIES ensures QueueOk(cpus'[c].table[q], threads', c, q) {
        assert QueueOk(cpus[c].table[q], threads, c, q);
        QueueUnlink(cpus[c].table[q], cpus'[c].table[q], threads, t, thread, c, q, i);
      }
    }
  }

  lemma QueueUnlink(q: seq<ThreadId>, q': seq<ThreadId>, threads: map<ThreadId, Thread>, t: ThreadId, thread: Thread,
                    c: nat, p: nat, i: nat)
    requires QueueOk(q, threads, c, p) && t in threads && threads[t].stat.Ready? && !thread.stat.Ready?
    requires if threads[t].bind == c && threads[t].prio == p then i < |q| && q[i] == t
             && q' == q[..i] + q[i + 1..] else q' == q
    ensures QueueOk(q', threads[t := thread], c, p)
  {
    if threads[t].bind == c && threads[t].prio == p {
      Unlink(q, i);
    }
  }

  lemma Unlink(q: seq<ThreadId>, i: nat)
    requires NoRepeats(q) && i < |q|
    ensures NoRepeats(q[..i] + q[i + 1..])
    ensures forall x :: x in q[..i] + q[i + 1..] <==> x in q && x != q[i]
  {
    var r := q[..i] + q[i + 1..];
    forall x ensures x in r <==> x in q && x != q[i] {
      if x in q && x != q[i] {
        var j :| 0 <= j < |q| && q[j] == x;
        assert r[if j < i then j else j - 1] == x;
      }
    }
  }

  /** A thread that is in no queue before or after changes nothing there. */
  lemma UpdateOk(cpus: seq<Cpu>, threads: map<ThreadId, Thread>, t: ThreadId, thread: Thread)
    requires Queues(cpus, threads) && t in threads && !threads[t].stat.Ready?
    requires !thread.stat.Ready? && thread.prio < PRIORITIES && thread.bind < CPUS
    ensures Queues(cpus, threads[t := thread])
  {
    forall c: nat | c < CPUS ensures TableOk(cpus[c], threads[t := thread], c) {
      assert TableOk(cpus[c], threads, c);
      forall q: nat | q < PRIORITIES ensures QueueOk(cpus[c].table[q], threads[t := thread], c, q) {
        assert QueueOk(cpus[c].table[q], threads, c, q);
      }
    }
  }

  /** A thread keeps its queue, if any, when its state, CPU and priority stay. */
  lemma SameQueue(cpus: seq<Cpu>, threads: map<ThreadId, Thread>, t: ThreadId, thread: Thread)
    requires Queues(cpus, threads) && t in threads
    requires thread.stat == threads[t].stat && thread.prio == threads[t].prio && thread.bind == threads[t].bind
    ensures Queues(cpus, threads[t := thread])
  {
    forall c: nat | c < CPUS ensures TableOk(cpus[c], threads[t := thread], c) {
      assert TableOk(cpus[c], threads, c);
      forall q: nat | q < PRIORITIES ensures QueueOk(cpus[c].table[q], threads[t := thread], c, q) {
        assert QueueOk(cpus[c].table[q], threads, c, q);
      }
    }
  }

  /** Fields outside the queues do not matter. */
  lemma CpuUpdateOk(cpus: seq<Cpu>, threads: map<ThreadId, Thread>, c: nat, cpu: Cpu)
    requires Queues(cpus, threads) && c < CPUS && cpu.group == cpus[c].group && cpu.table == cpus[c].table
    ensures Queues(cpus[c := cpu], threads)
  {
    var cpus' := cpus[c := cpu];
    forall d: nat | d < CPUS ensures TableOk(cpus'[d], threads, d) {
      assert TableOk(cpus[d], threads, d);
      forall q: nat | q < PRIORITIES ensures QueueOk(cpus'[d].table[q], threads, d, q) {
        assert QueueOk(cpus[d].table[q], threads, d, q);
      }
    }
  }

  // ---------------------------------------------------------------- the highest ready priority

  /** The lowest bit of the map names a queue whose head is as urgent as any ready thread of the CPU. */
  lemma HighestReady(cpus: seq<Cpu>, threads: map<ThreadId, Thread>, c: nat)
    requires Queues(cpus, threads) && c < CPUS
    ensures cpus[c].group == 0 <==> forall t | t in threads && threads[t].stat.Ready? :: threads[t].bind != c
    ensures cpus[c].group < 0x1_0000_0000 && |cpus[c].table| == PRIORITIES
    ensures cpus[c].group != 0 ==>
              var h := Ffs(cpus[c].group) - 1;
              && 0 <= h < PRIORITIES && cpus[c].table[h] != []
              && (var t := cpus[c].table[h][0];
                    t in threads && threads[t].stat.Ready? && threads[t].bind == c
                    && threads[t].prio == h)
              && (forall t | t in threads && threads[t].stat.Ready? && threads[t].bind == c :: h <= threads[t].prio)
  {
    hide Power, Ffs;
    assert TableOk(cpus[c], threads, c);
    Powers();
    FfsLowest(cpus[c].group);
    forall t | t in threads && threads[t].stat.Ready? && threads[t].bind == c
        ensures Bit(cpus[c].group, threads[t].prio) {
      assert QueueOk(cpus[c].table[threads[t].prio], threads, c, threads[t].prio);
      assert t in cpus[c].table[threads[t].prio];
    }
    if cpus[c].group != 0 {
      var h := Ffs(cpus[c].group) - 1;
      assert QueueOk(cpus[c].table[h], threads, c, h);
      var t := cpus[c].table[h][0];
      assert t in cpus[c].table[h];
    } else {
      NoBits();
    }
  }

  lemma NoBits()
    ensures forall p: nat :: !Bit(0, p)
  {
    forall p: nat ensures !Bit(0, p) {
      NoBit(p);
    }
  }

  lemma {:induction false} NoBit(p: nat)
    ensures !Bit(0, p)
  {
    if p > 0 {
      NoBit(p - 1);
    }
  }
}
