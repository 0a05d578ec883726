/**
 The nesting counters of cpu.c and scheduler.c that say whether a thread may be
 switched away from, with the interrupt masking that rt_cpus_lock does.
 */
module LockNest {
  import opened WaitList

  const NONE: ThreadId := -1
  const CPUS: int := 5
  const LIMIT: int := 65535   // the counters are 16 bits

  /** cpus_lock_nest, critical_lock_nest and scheduler_lock_nest. */
  datatype Nest = Nest(cpus: nat, critical: nat, scheduler: nat)

  /** The rt_cpus_lock and rt_enter_critical calls of a thread that are not undone yet. */
  datatype Open = Open(locks: nat, criticals: nat)

  /** The counters are a function of what is open. */
  function Counters(o: Open): Nest {
    Nest(o.locks + o.criticals, o.criticals, if o.locks + o.criticals > 0 then o.criticals + 1 else o.criticals)
  }

  /** Different open calls, as far as rt_schedule can tell, show in the counters. */
  lemma CountersExact(a: Open, b: Open)
    ensures Counters(a) == Counters(b) <==> a == b
  {
  }

  /**
   Inside its own rt_cpus_lock, rt_schedule tests for a counter of 1: that means
   exactly that the thread is not inside rt_enter_critical.
   */
  lemma OneMeansNotCritical(o: Open)
    requires o.locks > 0
    ensures Counters(o).scheduler == 1 <==> o.criticals == 0
  {
  }

  /**
   rt_scheduler_do_irq_switch takes its own rt_cpus_lock back by hand before it
   switches; that leaves the counters right exactly if it was the only one open.
   */
  lemma UndoByHandExact(o: Open)
    requires o.locks > 0 && o.criticals == 0
    ensures var n := Counters(o);
            Nest(n.cpus - 1, n.critical, n.scheduler - 1) == Counters(Open(o.locks - 1, 0)) <==> o.locks == 1
  {
    assert Counters(o) == Nest(o.locks, 0, 1);
    if o.locks == 1 {
      assert Counters(Open(0, 0)) == Nest(0, 0, 0);
    } else {
      assert Counters(Open(o.locks - 1, 0)) == Nest(o.locks - 1, 0, 1);
    }
  }

  /** rt_cpus_lock */
  function Locked(n: Nest): Nest {
    Nest(n.cpus + 1, n.critical, if n.cpus == 0 then n.scheduler + 1 else n.scheduler)
  }

  lemma UnlockCounts(o: Open)
    requires o.locks > 0
    ensures var n := Counters(o);
            && n.cpus > 0 && n.scheduler > 0
            && Counters(Open(o.locks - 1, o.criticals))
               == Nest(n.cpus - 1, n.critical, if n.cpus == 1 then n.scheduler - 1 else n.scheduler)
  {
  }

  lemma ExitCounts(o: Open)
    requires o.criticals > 0
    ensures var n := Counters(o);
            var left := if n.cpus == 1 then n.scheduler - 2 else n.scheduler - 1;
            && n.cpus > 0 && n.critical > 0 && n.scheduler > 1
            && Counters(Open(o.locks, o.criticals - 1)) == Nest(n.cpus - 1, n.critical - 1, left)
            && (o == Open(0, 1) <==> left == 0)
  {
  }

  lemma LockCounts(o: Open)
    ensures Locked(Counters(o)) == Counters(Open(o.locks + 1, o.criticals))
    ensures var n := Locked(Counters(o));
            Nest(n.cpus, n.critical + 1, n.scheduler + 1) == Counters(Open(o.locks, o.criticals + 1))
  {
  }

  /** Every thread's counters say what it has open; every CPU runs a known thread, or none. */
  ghost predicate Tracks(nest: map<ThreadId, Nest>, open: map<ThreadId, Open>, current: seq<ThreadId>) {
    && NONE !in nest && |current| == CPUS
    && (forall t :: t in nest <==> t in open)
    && (forall t {:trigger nest[t]} | t in nest :: nest[t] == Counters(open[t]))
    && (forall c | 0 <= c < CPUS :: current[c] == NONE || current[c] in nest)
  }

  lemma TracksHere(nest: map<ThreadId, Nest>, open: map<ThreadId, Open>, current: seq<ThreadId>, c: nat)
    requires Tracks(nest, open, current) && c < CPUS
    ensures |current| == CPUS && NONE !in nest && (current[c] == NONE <==> current[c] !in nest)
    ensures current[c] in nest <==> current[c] in open
    ensures current[c] in nest ==>
              var n, o := nest[current[c]], open[current[c]];
              n == Counters(o) && n.cpus - n.critical == o.locks && n.critical == o.criticals
  {
  }

  lemma TracksUpdate(nest: map<ThreadId, Nest>, open: map<ThreadId, Open>, current: seq<ThreadId>, t: ThreadId, n: Nest,
                     o: Open)
    requires Tracks(nest, open, current) && t in nest && n == Counters(o)
    ensures Tracks(nest[t := n], open[t := o], current)
  {
  }

  // ---------------------------------------------------------------- what the calls mean

  /**
   What the counters stand for.  `on` says which CPUs take interrupts; `frame` holds
   the interrupt state saved for each thread that is not running; `levels` are the
   values that rt_cpus_lock returned to the calls a thread still has open; `pending` is
   the irq_switch_flag of each CPU.
   */
  datatype View = View(open: map<ThreadId, Open>, current: seq<ThreadId>, on: seq<bool>, frame: map<ThreadId, bool>,
                       levels: map<ThreadId, seq<bool>>, pending: seq<bool>)

  ghost predicate OneCpuEach(v: View) {
    && |v.current| == |v.on| == |v.pending| == CPUS
    && (forall c, d | 0 <= c < d < CPUS && v.current[c] == v.current[d] :: v.current[c] == NONE)
    && (forall c | 0 <= c < CPUS && v.current[c] != NONE :: v.current[c] in v.open && v.current[c] !in v.frame)
    && (forall t | t in v.frame :: t in v.open)
    && NONE !in v.open
  }

  /** Each open rt_cpus_lock has its level; only the first of a thread can have found interrupts on. */
  ghost predicate LevelsOk(levels: seq<bool>, o: Open) {
    |levels| == o.locks && forall i | 0 < i < |levels| :: !levels[i]
  }

  /**
   Interrupts are on only where no rt_cpus_lock is open, and nobody is switched away from inside
   rt_enter_critical.
   */
  ghost predicate Masked(v: View) {
    && OneCpuEach(v)
    && (forall t :: t in v.open <==> t in v.levels)
    && (forall t {:trigger v.levels[t]} | t in v.open :: LevelsOk(v.levels[t], v.open[t]))
    && (forall c | 0 <= c < CPUS && v.on[c] :: v.current[c] != NONE && v.open[v.current[c]].locks == 0)
    && (forall t {:trigger v.frame[t]} | t in v.frame ::
          v.open[t].criticals == 0
          && (v.frame[t] ==> v.open[t].locks == 0))
  }

  /** A thread that runs on `c`. */
  predicate Runs(v: View, c: nat) {
    c < |v.current| == |v.on| && v.current[c] in v.open && v.current[c] in v.levels
  }

  function Pushed(v: View, c: nat): View
    requires Runs(v, c)
  {
    var t := v.current[c];
    v.(open := v.open[t := Open(v.open[t].locks + 1, v.open[t].criticals)],
       levels := v.levels[t := v.levels[t] + [v.on[c]]], on := v.on[c := false])
  }

  function Popped(v: View, c: nat): View
    requires Runs(v, c) && v.open[v.current[c]].locks > 0 && v.levels[v.current[c]] != []
  {
    var t := v.current[c];
    var n := |v.levels[t]| - 1;
    v.(open := v.open[t := Open(v.open[t].locks - 1, v.open[t].criticals)],
       levels := v.levels[t := v.levels[t][..n]], on := v.on[c := v.levels[t][n]])
  }

  function Entered(v: View, c: nat): View
    requires Runs(v, c)
  {
    var t := v.current[c];
    v.(open := v.open[t := Open(v.open[t].locks, v.open[t].criticals + 1)])
  }

  function Exited(v: View, c: nat): View
    requires Runs(v, c) && v.open[v.current[c]].criticals > 0
  {
    var t := v.current[c];
    v.(open := v.open[t := Open(v.open[t].locks, v.open[t].criticals - 1)])
  }

  /** CPU `c` goes on with `to`; the thread it ran, if any, is saved with the interrupt state `was`. */
  function Switched(v: View, c: nat, to: ThreadId, was: bool): View
    requires c < |v.current| == |v.on| && to in v.frame
  {
    var t := v.current[c];
    var frame := v.frame - {to};
    v.(current := v.current[c := to], on := v.on[c := v.frame[to]],
       frame := if t == NONE then frame else frame[t := was])
  }

  // ---------------------------------------------------------------- what an interrupt handler does

  /** A call that an interrupt handler makes. */
  datatype Op = OpLock | OpUnlock | OpEnter | OpExit | OpSchedule

  /** What the handler itself has open after `ops`. */
  function Depth(ops: seq<Op>): Open {
    if ops == [] then Open(0, 0)
    else
      var o := Depth(ops[..|ops| - 1]);
      match ops[|ops| - 1]
      case OpLock => Open(o.locks + 1, o.criticals)
      case OpUnlock => Open(if o.locks > 0 then o.locks - 1 else 0, o.criticals)
      case OpEnter => Open(o.locks, o.criticals + 1)
      case OpExit => Open(o.locks, if o.criticals > 0 then o.criticals - 1 else 0)
      case OpSchedule => o
  }

  function Count(ops: seq<Op>, op: Op): nat {
    if ops == [] then 0 else Count(ops[..|ops| - 1], op) + if ops[|ops| - 1] == op then 1 else 0
  }

  /** What is open is what was opened and not undone, as long as nothing is undone that was not opened. */
  lemma {:induction false} DepthCounts(ops: seq<Op>)
    requires forall i | 0 <= i <= |ops| ::
               && Count(ops[..i], OpUnlock) <= Count(ops[..i], OpLock)
               && Count(ops[..i], OpExit) <= Count(ops[..i], OpEnter)
    ensures Depth(ops).locks == Count(ops, OpLock) - Count(ops, OpUnlock)
    ensures Depth(ops).criticals == Count(ops, OpEnter) - Count(ops, OpExit)
  {
    assert ops[..|ops|] == ops;
    if ops != [] {
      var rest := ops[..|ops| - 1];
      forall i | 0 <= i <= |rest| ensures rest[..i] == ops[..i] {
      }
      DepthCounts(rest);
    }
  }

  /** The handler undoes what it has opened, all of it and nothing else. */
  predicate Balanced(ops: seq<Op>) {
    && Depth(ops) == Open(0, 0)
    && forall i | 0 <= i < |ops| ::
         && (ops[i].OpUnlock? ==> Depth(ops[..i]).locks > 0)
         && (ops[i].OpExit? ==> Depth(ops[..i]).criticals > 0)
  }

  /**
   One of the calls asks for a switch: rt_schedule, or an rt_exit_critical after which
   nothing is open, the interrupted thread's `criticals` included.
   */
  predicate Asked(ops: seq<Op>, criticals: nat) {
    exists i | 0 <= i < |ops| ::
      ops[i].OpSchedule? || (ops[i].OpExit? && criticals == 0 && Depth(ops[..i]) == Open(0, 1))
  }

  /** The view while a handler has `o` open on top of what the interrupted thread has. */
  function Deep(v: View, c: nat, o: Open): View
    requires Runs(v, c)
  {
    var t := v.current[c];
    v.(open := v.open[t := Open(v.open[t].locks + o.locks, v.open[t].criticals + o.criticals)],
       levels := v.levels[t := v.levels[t] + seq(o.locks, _ => false)], on := v.on[c := false])
  }

  /** `w` is the view after the first `i` calls of a handler that interrupted `v`. */
  ghost predicate Handling(v: View, c: nat, ops: seq<Op>, i: nat, w: View) {
    && Runs(v, c) && c < |v.pending| && i <= |ops| && v.open[v.current[c]].locks == 0
    && v.open[v.current[c]].criticals + |ops| < LIMIT
    && w == Deep(v.(pending := v.pending[c := v.pending[c] || Asked(ops[..i], v.open[v.current[c]].criticals)]), c,
                 Depth(ops[..i]))
  }

  lemma DeepStart(v: View, c: nat)
    requires Runs(v, c)
    ensures Deep(v, c, Open(0, 0)) == v.(on := v.on[c := false])
  {
    var t := v.current[c];
    assert v.levels[t] + seq(0, _ => false) == v.levels[t];
  }

  lemma DepthBound(ops: seq<Op>)
    ensures Depth(ops).locks + Depth(ops).criticals <= |ops|
  {
  }

  /** An interrupt with its handler and the switch at its end, as a whole. */
  function Interrupted(v: View, c: nat, ops: seq<Op>, to: ThreadId): View
    requires Runs(v, c) && c < |v.pending| && (to == NONE || to in v.frame)
  {
    var asked := v.pending[c] || Asked(ops, v.open[v.current[c]].criticals);
    if asked && v.open[v.current[c]].criticals == 0 then
      var w := v.(pending := v.pending[c := false]);
      if to == NONE then w else Switched(w, c, to, true)
    else v.(pending := v.pending[c := asked])
  }

  /** rt_schedule: `to` is the thread it picks, NONE if the current one goes on. */
  function Scheduled(v: View, c: nat, to: ThreadId): View
    requires Runs(v, c) && (to == NONE || to in v.frame)
  {
    if to == NONE || v.open[v.current[c]].criticals > 0 then v
    else Switched(Pushed(v, c), c, to, false)
  }

  // ---------------------------------------------------------------- what one undoes of another

  /** rt_cpus_lock turns interrupts off, and its unlock restores everything, the interrupt state included. */
  lemma LockUnlock(v: View, c: nat)
    requires Runs(v, c)
    ensures Runs(Pushed(v, c), c) && !Pushed(v, c).on[c]
    ensures Pushed(v, c).open[v.current[c]] == Open(v.open[v.current[c]].locks + 1, v.open[v.current[c]].criticals)
    ensures Popped(Pushed(v, c), c) == v
  {
    var t := v.current[c];
    assert (v.levels[t] + [v.on[c]])[..|v.levels[t]|] == v.levels[t];
  }

  /** rt_enter_critical leaves interrupts and everything else as they are, and its rt_exit_critical undoes it. */
  lemma EnterExit(v: View, c: nat)
    requires Runs(v, c)
    ensures Runs(Entered(v, c), c) && Entered(v, c) == v.(open := Entered(v, c).open)
    ensures Entered(v, c).open[v.current[c]] == Open(v.open[v.current[c]].locks, v.open[v.current[c]].criticals + 1)
    ensures Exited(Entered(v, c), c) == v
  {
  }

  /** A thread that is switched to and back from leaves the other one as it was, on the CPU and in its frame. */
  lemma SwitchBack(v: View, c: nat, to: ThreadId, was: bool, later: bool)
    requires c < |v.current| == |v.on| && to in v.frame && to != NONE
    requires v.current[c] != NONE && v.current[c] !in v.frame
    ensures var w := Switched(v, c, to, was);
            && w.current[c] == to && w.on[c] == v.frame[to] && w.frame == v.frame[v.current[c] := was] - {to}
            && Switched(w, c, v.current[c], later) ==
               v.(on := v.on[c := was], frame := v.frame[to := later])
  {
    var t := v.current[c];
    assert v.current[c := to][c := t] == v.current;
    assert (v.frame - {to})[t := was] - {t} == v.frame - {to};
    assert (v.frame - {to})[to := later] == v.frame[to := later];
  }

  /**
   A thread that calls rt_schedule and is switched away from goes on, once it is switched back to and the lock inside
   rt_schedule is undone, with what it had open and with interrupts as they were.
   */
  lemma ScheduleReturns(v: View, c: nat, to: ThreadId, later: bool)
    requires Runs(v, c) && to in v.frame && to != NONE && v.current[c] != NONE && v.current[c] !in v.frame
    requires v.open[v.current[c]].criticals == 0
    ensures var w := Scheduled(v, c, to);
            && w.current[c] == to && w.on[c] == v.frame[to] && v.current[c] in w.frame
            && var back := Switched(w, c, v.current[c], later);
               && !back.on[c] && Runs(back, c) && back.open[v.current[c]].locks > 0 && back.levels[v.current[c]] != []
               && Popped(back, c) == v.(frame := v.frame[to := later])
  {
    LockUnlock(v, c);
    SwitchBack(Pushed(v, c), c, to, false, later);
    var p := Pushed(v, c);
    assert p.on[c := false] == p.on;
  }

  /** A thread that an interrupt switches away from goes on with interrupts on and with what it had open. */
  lemma InterruptReturns(v: View, c: nat, ops: seq<Op>, to: ThreadId, later: bool)
    requires Runs(v, c) && c < |v.pending| && v.on[c] && v.current[c] != NONE && v.current[c] !in v.frame
    requires to == NONE || to in v.frame
    ensures var asked, free := v.pending[c] || Asked(ops, v.open[v.current[c]].criticals),
                               v.open[v.current[c]].criticals == 0;
            var w := Interrupted(v, c, ops, to);
            && w.pending == v.pending[c := asked && !free]
            && (to == NONE || !asked || !free ==> w == v.(pending := w.pending))
            && (to != NONE && asked && free ==>
                  && w.current[c] == to && w.on[c] == v.frame[to] && v.current[c] in w.frame
                  && Switched(w, c, v.current[c], later) == v.(pending := w.pending, frame := v.frame[to := later]))
  {
    hide Asked;
    if to != NONE {
      var u := v.(pending := v.pending[c := false]);
      SwitchBack(u, c, to, true, later);
      assert u.on[c := true] == u.on;
    }
  }

  // ---------------------------------------------------------------- each keeps the masking

  lemma PushedMasked(v: View, c: nat)
    requires Masked(v) && Runs(v, c)
    ensures Masked(Pushed(v, c))
  {
    var t := v.current[c];
    assert LevelsOk(v.levels[t], v.open[t]);
    assert |v.levels[t]| > 0 ==> !v.on[c];
  }

  lemma PoppedMasked(v: View, c: nat)
    requires Masked(v) && Runs(v, c) && v.open[v.current[c]].locks > 0
    ensures v.levels[v.current[c]] != [] && Masked(Popped(v, c))
  {
    var t := v.current[c];
    assert LevelsOk(v.levels[t], v.open[t]);
    forall d | 0 <= d < CPUS && d != c ensures v.current[d] != t {
    }
  }

  lemma CriticalMasked(v: View, c: nat)
    requires Masked(v) && Runs(v, c)
    ensures Masked(Entered(v, c))
    ensures v.open[v.current[c]].criticals > 0 ==> Masked(Exited(v, c))
  {
    var t := v.current[c];
    assert LevelsOk(v.levels[t], v.open[t]);
  }

  lemma SwitchedMasked(v: View, c: nat, to: ThreadId, was: bool)
    requires Masked(v) && c < CPUS && to in v.frame
    requires v.current[c] != NONE ==>
               v.current[c] in v.open && v.open[v.current[c]].criticals == 0
                   && (was ==> v.open[v.current[c]].locks == 0)
    ensures Masked(Switched(v, c, to, was))
  {
    assert v.frame[to] ==> v.open[to].locks == 0;
  }

  lemma TracksSwitch(nest: map<ThreadId, Nest>, open: map<ThreadId, Open>, current: seq<ThreadId>, c: nat, to: ThreadId)
    requires Tracks(nest, open, current) && c < CPUS && to in nest
    ensures Tracks(nest, open, current[c := to])
  {
  }

  /** What the invariant says of the thread on CPU `c`. */
  lemma MaskedHere(v: View, c: nat)
    requires Masked(v) && c < CPUS
    ensures |v.current| == |v.on| == |v.pending| == CPUS && (v.current[c] == NONE <==> v.current[c] !in v.open)
    ensures v.current[c] in v.open <==> Runs(v, c)
    ensures Runs(v, c) ==> |v.levels[v.current[c]]| == v.open[v.current[c]].locks
    ensures v.on[c] ==> Runs(v, c) && v.open[v.current[c]].locks == 0
    ensures forall t | t in v.frame :: t in v.open && t != NONE && t != v.current[c]
  {
    var t := v.current[c];
    if t in v.open {
      assert t in v.levels;
      assert LevelsOk(v.levels[t], v.open[t]);
    }
  }

  lemma FreshLocks(nest: map<ThreadId, Nest>, v: View)
    requires NONE !in nest && nest.Keys == v.open.Keys == v.levels.Keys == v.frame.Keys
    requires forall t | t in nest :: nest[t] == Nest(0, 0, 0) && v.open[t] == Open(0, 0) && v.levels[t] == []
    requires |v.current| == |v.on| == |v.pending| == CPUS
    requires forall c | 0 <= c < CPUS :: v.current[c] == NONE && !v.on[c]
    ensures Tracks(nest, v.open, v.current) && Masked(v)
  {
    forall t | t in v.open ensures LevelsOk(v.levels[t], v.open[t]) {
      assert t in nest;
    }
    forall t | t in v.frame ensures v.open[t].criticals == 0 && v.open[t].locks == 0 {
      assert t in nest;
    }
    forall t ensures t in nest <==> t in v.open {
      assert t in nest.Keys <==> t in v.open.Keys;
    }
    forall t ensures t in v.open <==> t in v.levels {
      assert t in v.open.Keys <==> t in v.levels.Keys;
    }
  }

  class Locks {
    var nest: map<ThreadId, Nest>
    var current: seq<ThreadId>
    var on: seq<bool>
    var frame: map<ThreadId, bool>
    var levels: map<ThreadId, seq<bool>>
    var pending: seq<bool>
    ghost var open: map<ThreadId, Open>

    ghost function Seen(): View
      reads this
    {
      View(open, current, on, frame, levels, pending)
    }

    ghost predicate Valid()
      reads this
    {
      && |current| == |on| == |pending| == CPUS && Tracks(nest, open, current) && Masked(Seen())
    }

    /** Nothing runs and interrupts are off; a new thread starts with them on. */
    constructor (ts: set<ThreadId>)
      requires NONE !in ts
      ensures Valid() && nest.Keys == ts && forall t | t in ts :: open[t] == Open(0, 0)
      ensures forall c | 0 <= c < CPUS :: current[c] == NONE && !on[c] && !pending[c]
      ensures forall t | t in ts :: t in frame && frame[t]
    {
      hide Tracks, Masked, Counters;
      nest := map t | t in ts :: Nest(0, 0, 0);
      open := map t | t in ts :: Open(0, 0);
      levels := map t | t in ts :: [];
      frame := map t | t in ts :: true;
      current := seq(CPUS, _ => NONE);
      on, pending := seq(CPUS, _ => false), seq(CPUS, _ => false);
      new;
      FreshLocks(nest, Seen());
    }

    /** rt_cpus_lock on CPU `c` */
    method CpusLock(c: nat)
      requires Valid() && c < CPUS
      requires current[c] in nest ==> nest[current[c]].cpus < LIMIT
      modifies this`nest, this`open, this`on, this`levels
      ensures Valid()
      ensures Seen() == if current[c] == NONE then old(Seen()) else assert Runs(old(Seen()), c); Pushed(old(Seen()), c)
    {
      hide Tracks, Locked, Counters, Masked;
      var t := current[c];
      TracksHere(nest, open, current, c);
      MaskedHere(Seen(), c);
      if t != NONE {
        PushedMasked(Seen(), c);
        LockCounts(open[t]);
        ghost var o := Open(open[t].locks + 1, open[t].criticals);
        TracksUpdate(nest, open, current, t, Locked(nest[t]), o);
        levels := levels[t := levels[t] + [on[c]]];
        nest, open := nest[t := Locked(nest[t])], open[t := o];
      } else {
        assert on == on[c := false];
      }
      on := on[c := false];
    }

    /** rt_cpus_unlock on CPU `c`, with the level that the last open rt_cpus_lock of its thread returned. */
    method CpusUnlock(c: nat)
      requires Valid() && c < CPUS
      requires current[c] in open ==> open[current[c]].locks > 0
      modifies this`nest, this`open, this`on, this`levels
      ensures Valid()
      ensures current[c] == NONE ==> Seen() == old(Seen())
      ensures current[c] != NONE ==>
                && Runs(old(Seen()), c) && old(levels)[current[c]] != [] && Seen() == Popped(old(Seen()), c)
    {
      hide Tracks, Locked, Counters, Masked;
      var t := current[c];
      TracksHere(nest, open, current, c);
      MaskedHere(Seen(), c);
      if t != NONE {
        PoppedMasked(Seen(), c);
        UnlockCounts(open[t]);
        var n := nest[t];
        n := n.(cpus := n.cpus - 1);
        if n.cpus == 0 {
          n := n.(scheduler := n.scheduler - 1);
        }
        ghost var o := Open(open[t].locks - 1, open[t].criticals);
        TracksUpdate(nest, open, current, t, n, o);
        var last := |levels[t]| - 1;
        nest, open, on := nest[t := n], open[t := o], on[c := levels[t][last]];
        levels := levels[t := levels[t][..last]];
      }
    }

    /** rt_enter_critical on CPU `c` */
    method EnterCritical(c: nat)
      requires Valid() && c < CPUS
      requires current[c] in nest ==> nest[current[c]].cpus < LIMIT && nest[current[c]].scheduler < LIMIT
      modifies this`nest, this`open
      ensures Valid()
      ensures current[c] == NONE ==> Seen() == old(Seen())
      ensures current[c] != NONE ==> Runs(old(Seen()), c) && Seen() == Entered(old(Seen()), c)
    {
      hide Tracks, Locked, Counters, Masked;
      var t := current[c];
      TracksHere(nest, open, current, c);
      MaskedHere(Seen(), c);
      if t != NONE {
        CriticalMasked(Seen(), c);
        var n := Locked(nest[t]);
        LockCounts(open[t]);
        n := n.(critical := n.critical + 1);
        n := n.(scheduler := n.scheduler + 1);
        ghost var o := Open(open[t].locks, open[t].criticals + 1);
        TracksUpdate(nest, open, current, t, n, o);
        nest, open := nest[t := n], open[t := o];
      }
    }

    /** rt_exit_critical on CPU `c`, up to its call of rt_schedule, which it makes exactly when nothing stays open. */
    method ExitCritical(c: nat) returns (reschedule: bool)
      requires Valid() && c < CPUS
      requires current[c] in open ==> open[current[c]].criticals > 0
      modifies this`nest, this`open
      ensures Valid()
      ensures current[c] == NONE ==> Seen() == old(Seen()) && !reschedule
      ensures current[c] != NONE ==>
                && Runs(old(Seen()), c) && old(open)[current[c]].criticals > 0 && Seen() == Exited(old(Seen()), c)
                && (reschedule <==> old(open)[current[c]] == Open(0, 1))
    {
      hide Tracks, Locked, Counters, Masked;
      var t := current[c];
      TracksHere(nest, open, current, c);
      MaskedHere(Seen(), c);
      reschedule := false;
      if t != NONE {
        CriticalMasked(Seen(), c);
        ExitCounts(open[t]);
        var n := nest[t];
        n := n.(scheduler := n.scheduler - 1);
        n := n.(critical := n.critical - 1);
        n := n.(cpus := n.cpus - 1);
        if n.cpus == 0 {
          n := n.(scheduler := n.scheduler - 1);
        }
        if n.scheduler <= 0 {
          n := n.(scheduler := 0);
          reschedule := true;
        }
        ghost var o := Open(open[t].locks, open[t].criticals - 1);
        TracksUpdate(nest, open, current, t, n, o);
        nest, open := nest[t := n], open[t := o];
      }
    }

    /** The test that rt_schedule and rt_scheduler_do_irq_switch make inside their own rt_cpus_lock. */
    method MaySwitch(c: nat) returns (yes: bool)
      requires Valid() && c < CPUS && current[c] in open && open[current[c]].locks > 0
      ensures yes <==> open[current[c]].criticals == 0
    {
      OneMeansNotCritical(open[current[c]]);
      return nest[current[c]].scheduler == 1;
    }

    /**
     rt_cpus_lock_status_restore and the return to `to`: CPU `c` goes on with `to` in
     the interrupt state saved for it, and the spin lock is released unless `to` has
     something open.
     */
    method Restore(c: nat, to: ThreadId, was: bool) returns (release: bool)
      requires Valid() && c < CPUS && to in frame
      requires current[c] in open ==> open[current[c]].criticals == 0 && (was ==> open[current[c]].locks == 0)
      modifies this`current, this`on, this`frame
      ensures Valid() && Seen() == Switched(old(Seen()), c, to, was)
      ensures release <==> to in open && open[to] == Open(0, 0)
    {
      hide Tracks, Masked, Counters;
      var t := current[c];
      MaskedHere(Seen(), c);
      TracksHere(nest, open, current, c);
      SwitchedMasked(Seen(), c, to, was);
      TracksKnown(nest, open, current, to);
      TracksSwitch(nest, open, current, c, to);
      NothingOpen(open[to]);
      release := nest[to].cpus == 0;
      current, on := current[c := to], on[c := frame[to]];
      frame := frame - {to};
      if t != NONE {
        frame := frame[t := was];
      }
    }

    /** rt_schedule on CPU `c`, which picks `to`, or NONE to go on with the current thread. */
    method Schedule(c: nat, to: ThreadId) returns (switched: bool)
      requires Valid() && c < CPUS && current[c] in nest && nest[current[c]].cpus < LIMIT && (to == NONE || to in frame)
      modifies this
      ensures Valid() && Runs(old(Seen()), c) && Seen() == Scheduled(old(Seen()), c, to)
      ensures switched <==> to != NONE && old(open)[old(current)[c]].criticals == 0
    {
      hide Tracks, Masked, Counters;
      TracksHere(nest, open, current, c);
      MaskedHere(Seen(), c);
      ghost var v := Seen();
      CpusLock(c);
      var may := MaySwitch(c);
      if may && to != NONE {
        var _ := Restore(c, to, false);
        return true;
      }
      CpusUnlock(c);
      LockUnlock(v, c);
      return false;
    }

    /**
     An interrupt on CPU `c`, whose handler makes the calls `ops`; rt_interrupt_enter and
     rt_interrupt_leave are among them.  Then rt_scheduler_do_irq_switch makes the switch
     that was asked for, now or before, if the interrupted thread is in no critical section:
     to `to`, or to nobody if the current thread goes on.  That its own lock is the only one
     open follows from interrupts having been on.
     */
    method Interrupt(c: nat, ops: seq<Op>, to: ThreadId) returns (switched: bool)
      requires Valid() && c < CPUS && on[c] && (to == NONE || to in frame) && Balanced(ops)
      requires current[c] in nest ==> nest[current[c]].cpus + |ops| < LIMIT
      modifies this
      ensures Valid() && Runs(old(Seen()), c) && c < |old(pending)|
      ensures Seen() == Interrupted(old(Seen()), c, ops, to)
      ensures switched <==>
                && (old(pending)[c] || Asked(ops, old(open)[old(current)[c]].criticals))
                && old(open)[old(current)[c]].criticals == 0 && to != NONE
    {
      hide Tracks, Masked, Counters, Handling, Balanced, Asked, Switched, Interrupted;
      TracksHere(nest, open, current, c);
      MaskedHere(Seen(), c);
      ghost var v := Seen();
      CountersHere(open[current[c]]);
      Trap(c);
      HandlingFirst(v, c, ops);
      for i := 0 to |ops|
        invariant Valid() && Handling(v, c, ops, i, Seen())
      {
        HandlerCall(c, ops, i, v);
      }
      HandlingLast(v, c, ops, Seen());
      switched := Leave(c, to);
      LeftInterrupted(v, c, ops, to);
    }

    /** rt_scheduler_do_irq_switch, and the return from the interrupt. */
    method Leave(c: nat, to: ThreadId) returns (switched: bool)
      requires Valid() && c < CPUS && current[c] in open && open[current[c]].locks == 0 && !on[c]
      requires (to == NONE || to in frame) && open[current[c]].criticals < LIMIT
      modifies this
      ensures Valid()
      ensures var v := old(Seen()).(on := old(on)[c := true]);
              var may := v.pending[c] && v.open[v.current[c]].criticals == 0;
              && (switched <==> may && to != NONE)
              && Seen() == if !may then v else if to == NONE then v.(pending := v.pending[c := false])
                           else Switched(v.(pending := v.pending[c := false]), c, to, true)
    {
      hide Tracks, Masked, Counters, Pushed, Popped, Switched;
      TracksHere(nest, open, current, c);
      MaskedHere(Seen(), c);
      ghost var v := Seen();
      CountersHere(open[current[c]]);
      CpusLock(c);
      PushOne(v, c);
      var may := MaySwitch(c);
      may := may && pending[c];
      if may {
        PendingMasked(Seen(), c, false);
        pending := pending[c := false];
      }
      ghost var w := if may then v.(pending := v.pending[c := false]) else v;
      PushOne(w, c);
      assert Seen() == Pushed(w, c);
      if may && to != NONE {
        UndoByHand(c);
        assert Seen() == w;
        var _ := Restore(c, to, true);
        SwitchOn(w, c, to);
        return true;
      }
      LockUnlock(w, c);
      CpusUnlock(c);
      OnMasked(Seen(), c);
      on := on[c := true];
      return false;
    }

    /** The handler's call number `i`. */
    method HandlerCall(c: nat, ops: seq<Op>, i: nat, ghost v: View)
      requires Valid() && c < CPUS && i < |ops| && Balanced(ops) && Handling(v, c, ops, i, Seen())
      modifies this`nest, this`open, this`on, this`levels, this`pending
      ensures Valid() && Handling(v, c, ops, i + 1, Seen())
    {
      hide Tracks, Masked, Handling, Pushed, Popped, Entered, Exited;
      HandlingStep(v, c, ops, i, Seen());
      MaskedHere(Seen(), c);
      TracksHere(nest, open, current, c);
      ghost var w := Seen();
      match ops[i] {
        case OpLock => CpusLock(c);
        case OpUnlock => CpusUnlock(c);
        case OpEnter => EnterCritical(c);
        case OpExit =>
          var reschedule := ExitCritical(c);
          if reschedule {
            TracksHere(nest, open, current, c);
            ExitedRuns(w, c);
            NothingOpen(open[current[c]]);
            Ask(c);
          }
        case OpSchedule => Ask(c);
      }
    }

    /** rt_schedule inside an interrupt: the switch is put off. */
    method Ask(c: nat)
      requires Valid() && c < CPUS && Runs(Seen(), c) && current[c] in nest && nest[current[c]].cpus < LIMIT
      modifies this`nest, this`open, this`on, this`levels, this`pending
      ensures Valid() && |old(pending)| == CPUS && Seen() == old(Seen()).(pending := old(pending)[c := true])
    {
      hide Tracks, Masked, Counters;
      TracksHere(nest, open, current, c);
      MaskedHere(Seen(), c);
      ghost var v := Seen();
      CpusLock(c);
      PendingMasked(Seen(), c, true);
      pending := pending[c := true];
      CpusUnlock(c);
      LockUnlock(v, c);
    }

    /** Taking an interrupt turns interrupts off. */
    method Trap(c: nat)
      requires Valid() && c < CPUS
      modifies this`on
      ensures Valid() && on == old(on)[c := false]
    {
      on := on[c := false];
    }

    /** Take the only rt_cpus_lock of the interrupted thread back. */
    method UndoByHand(c: nat)
      requires Valid() && c < CPUS && current[c] in open && open[current[c]] == Open(1, 0)
      modifies this`nest, this`open, this`levels
      ensures Valid() && open == old(open)[current[c] := Open(0, 0)] && levels == old(levels)[current[c] := []]
    {
      var t := current[c];
      assert nest[t] == Counters(open[t]);
      TracksUpdate(nest, open, current, t, Nest(0, 0, 0), Open(0, 0));
      var n := nest[t];
      nest := nest[t := n.(cpus := n.cpus - 1, scheduler := n.scheduler - 1)];
      levels := levels[t := []];
      open := open[t := Open(0, 0)];
    }
  }

  lemma PendingMasked(v: View, c: nat, b: bool)
    requires Masked(v) && c < CPUS
    ensures |v.pending| == CPUS && Masked(v.(pending := v.pending[c := b]))
  {
  }

  /** Interrupts may be turned on where no lock is open. */
  lemma OnMasked(v: View, c: nat)
    requires Masked(v) && Runs(v, c) && v.open[v.current[c]].locks == 0
    ensures Masked(v.(on := v.on[c := true]))
  {
  }

  lemma HandlingFirst(v: View, c: nat, ops: seq<Op>)
    requires Runs(v, c) && c < |v.pending| && v.open[v.current[c]].locks == 0
    requires v.open[v.current[c]].criticals + |ops| < LIMIT
    ensures Handling(v, c, ops, 0, v.(on := v.on[c := false]))
  {
    assert ops[..0] == [] && v.pending[c := v.pending[c]] == v.pending;
    DeepStart(v, c);
  }

  /** A handler that is through has left nothing open. */
  lemma HandlingLast(v: View, c: nat, ops: seq<Op>, w: View)
    requires Handling(v, c, ops, |ops|, w) && Balanced(ops)
    ensures Runs(v, c) && c < |v.pending|
    ensures var asked := v.pending[c] || Asked(ops, v.open[v.current[c]].criticals);
            w == v.(on := v.on[c := false], pending := v.pending[c := asked])
  {
    hide Asked;
    assert ops[..|ops|] == ops;
    DeepStart(v.(pending := v.pending[c := v.pending[c] || Asked(ops, v.open[v.current[c]].criticals)]), c);
  }

  /** What the switch at the end makes of it is what `Interrupted` says. */
  lemma LeftInterrupted(v: View, c: nat, ops: seq<Op>, to: ThreadId)
    requires Runs(v, c) && c < |v.pending| && v.on[c] && (to == NONE || to in v.frame)
    ensures var asked := v.pending[c] || Asked(ops, v.open[v.current[c]].criticals);
            var w := v.(on := v.on[c := false][c := true], pending := v.pending[c := asked]);
            var x := w.(pending := w.pending[c := false]);
            Interrupted(v, c, ops, to)
            == (if !(asked && v.open[v.current[c]].criticals == 0) then w
                else if to == NONE then x else Switched(x, c, to, true))
  {
    hide Asked, Switched;
    assert v.on[c := false][c := true] == v.on;
    var asked := v.pending[c] || Asked(ops, v.open[v.current[c]].criticals);
    assert v.pending[c := asked][c := false] == v.pending[c := false];
  }

  /** One call of a handler. */
  lemma HandlingStep(v: View, c: nat, ops: seq<Op>, i: nat, w: View)
    requires Handling(v, c, ops, i, w) && i < |ops| && Balanced(ops)
    ensures Runs(w, c) && c < |w.pending| && w.open[w.current[c]].locks + w.open[w.current[c]].criticals + 1 < LIMIT
    ensures ops[i].OpLock? ==> Handling(v, c, ops, i + 1, Pushed(w, c))
    ensures ops[i].OpUnlock? ==>
              && w.open[w.current[c]].locks > 0 && w.levels[w.current[c]] != []
              && Handling(v, c, ops, i + 1, Popped(w, c))
    ensures ops[i].OpEnter? ==> Handling(v, c, ops, i + 1, Entered(w, c))
    ensures ops[i].OpExit? ==>
              && w.open[w.current[c]].criticals > 0
              && var x := Exited(w, c);
                 Handling(v, c, ops, i + 1,
                          if w.open[w.current[c]] == Open(0, 1) then x.(pending := x.pending[c := true]) else x)
    ensures ops[i].OpSchedule? ==> Handling(v, c, ops, i + 1, w.(pending := w.pending[c := true]))
  {
    var c0, o := v.open[v.current[c]].criticals, Depth(ops[..i]);
    assert ops[..i + 1][..i] == ops[..i];
    DepthBound(ops[..i]);
    AskedNext(ops, i, c0);
    hide Asked, Pushed, Popped, Entered, Exited, Deep;
    var u := v.(pending := v.pending[c := v.pending[c] || Asked(ops[..i], c0)]);
    DeepHere(u, c, o);
    match ops[i] {
      case OpLock => DeepPush(u, c, o);
      case OpUnlock => DeepPop(u, c, o);
      case OpEnter => DeepCritical(u, c, o);
      case OpExit =>
        DeepCritical(u, c, o);
        DeepPending(u, c, Depth(ops[..i + 1]));
      case OpSchedule => DeepPending(u, c, o);
    }
  }

  lemma DeepHere(v: View, c: nat, o: Open)
    requires Runs(v, c)
    ensures var w, t := Deep(v, c, o), v.current[c];
            && Runs(w, c) && w.current == v.current && w.pending == v.pending
            && w.open[t] == Open(v.open[t].locks + o.locks, v.open[t].criticals + o.criticals)
            && |w.levels[t]| == |v.levels[t]| + o.locks
  {
  }

  lemma DeepPush(v: View, c: nat, o: Open)
    requires Runs(v, c)
    ensures Runs(Deep(v, c, o), c) && Pushed(Deep(v, c, o), c) == Deep(v, c, Open(o.locks + 1, o.criticals))
  {
    var l := v.levels[v.current[c]];
    assert l + seq(o.locks, _ => false) + [false] == l + seq(o.locks + 1, _ => false);
  }

  lemma DeepPop(v: View, c: nat, o: Open)
    requires Runs(v, c) && o.locks > 0
    ensures Runs(Deep(v, c, o), c) && Deep(v, c, o).levels[v.current[c]] != []
    ensures Popped(Deep(v, c, o), c) == Deep(v, c, Open(o.locks - 1, o.criticals))
  {
    var l := v.levels[v.current[c]];
    var deep := l + seq(o.locks, _ => false);
    assert deep[..|deep| - 1] == l + seq(o.locks - 1, _ => false) && !deep[|deep| - 1];
  }

  lemma DeepCritical(v: View, c: nat, o: Open)
    requires Runs(v, c)
    ensures Runs(Deep(v, c, o), c) && Entered(Deep(v, c, o), c) == Deep(v, c, Open(o.locks, o.criticals + 1))
    ensures o.criticals > 0 ==>
              && Deep(v, c, o).open[v.current[c]].criticals > 0
              && Exited(Deep(v, c, o), c) == Deep(v, c, Open(o.locks, o.criticals - 1))
  {
  }

  lemma DeepPending(v: View, c: nat, o: Open)
    requires Runs(v, c) && c < |v.pending|
    ensures Deep(v, c, o).pending == v.pending
    ensures Deep(v, c, o).(pending := v.pending[c := true]) == Deep(v.(pending := v.pending[c := true]), c, o)
  {
  }

  lemma CountersHere(o: Open)
    ensures Counters(o).cpus == o.locks + o.criticals
  {
  }

  /** The lock that rt_scheduler_do_irq_switch takes, for a thread with no lock open. */
  lemma PushOne(v: View, c: nat)
    requires Runs(v, c) && c < |v.pending|
    ensures var t, w := v.current[c], Pushed(v, c);
            && w == v.(open := v.open[t := Open(v.open[t].locks + 1, v.open[t].criticals)],
                       levels := v.levels[t := v.levels[t] + [v.on[c]]], on := v.on[c := false])
  {
  }

  /** A switch takes the new thread's interrupt state, whatever it was. */
  lemma SwitchOn(v: View, c: nat, to: ThreadId)
    requires c < |v.current| == |v.on| && to in v.frame
    ensures Switched(v.(on := v.on[c := true]), c, to, true) == Switched(v, c, to, true)
  {
  }

  lemma AskedNext(ops: seq<Op>, i: nat, criticals: nat)
    requires i < |ops|
    ensures Asked(ops[..i + 1], criticals) <==>
              Asked(ops[..i], criticals) || ops[i].OpSchedule?
              || (ops[i].OpExit? && criticals == 0 && Depth(ops[..i]) == Open(0, 1))
  {
    forall k | 0 <= k <= i ensures ops[..i + 1][k] == ops[k] && ops[..i + 1][..k] == ops[..k] {
    }
    forall k | 0 <= k < i ensures ops[..i][k] == ops[k] && ops[..i][..k] == ops[..k] {
    }
    assert ops[..i + 1][i] == ops[i];
  }

  lemma TracksKnown(nest: map<ThreadId, Nest>, open: map<ThreadId, Open>, current: seq<ThreadId>, t: ThreadId)
    requires Tracks(nest, open, current) && t in open
    ensures t in nest && nest[t] == Counters(open[t])
  {
  }

  lemma NothingOpen(o: Open)
    ensures Counters(o).cpus == 0 <==> o == Open(0, 0)
  {
  }

  // ---------------------------------------------------------------- runs

  datatype Call =
    | Start(c: nat, to: ThreadId)
    | Lock(c: nat)
    | Unlock(c: nat)
    | Enter(c: nat)
    | Exit(c: nat, to: ThreadId)
    | Schedules(c: nat, to: ThreadId)
    | Interrupts(c: nat, ops: seq<Op>, to: ThreadId)

  /** Thread `to` can be switched to, or none is asked for. */
  predicate Choice(v: View, to: ThreadId) {
    to == NONE || to in v.frame
  }

  /** The call is one that its CPU may make now: only what its thread has open can be undone. */
  predicate Allowed(v: View, call: Call) {
    && call.c < |v.current| == |v.on|
    && match call
       case Start(c, to) => v.current[c] == NONE && to in v.frame
       case Lock(c) => Runs(v, c) && Counters(v.open[v.current[c]]).cpus < LIMIT
       case Unlock(c) => Runs(v, c) && v.open[v.current[c]].locks > 0 && v.levels[v.current[c]] != []
       case Enter(c) =>
         Runs(v, c) && Counters(v.open[v.current[c]]).cpus < LIMIT && Counters(v.open[v.current[c]]).scheduler < LIMIT
       case Exit(c, to) => Runs(v, c) && v.open[v.current[c]].criticals > 0 && Choice(v, to)
       case Schedules(c, to) => Runs(v, c) && Counters(v.open[v.current[c]]).cpus < LIMIT && Choice(v, to)
       case Interrupts(c, ops, to) =>
         && Runs(v, c) && v.on[c] && c < |v.pending| && Choice(v, to)
         && Balanced(ops) && Counters(v.open[v.current[c]]).cpus + |ops| < LIMIT
  }

  /** What a CPU that runs a thread may call, while the counters are below their limit. */
  lemma AllowedExact(v: View, c: nat, to: ThreadId)
    requires Masked(v) && c < CPUS && |v.current| == CPUS && v.current[c] in v.open
    requires v.open[v.current[c]].locks + v.open[v.current[c]].criticals < LIMIT - 1
    ensures Allowed(v, Lock(c)) && Allowed(v, Enter(c))
    ensures Allowed(v, Unlock(c)) <==> v.open[v.current[c]].locks > 0
    ensures Allowed(v, Exit(c, NONE)) <==> v.open[v.current[c]].criticals > 0
    ensures Allowed(v, Schedules(c, to)) <==> to == NONE || to in v.frame
    ensures Allowed(v, Interrupts(c, [], to)) <==> (to == NONE || to in v.frame) && c < |v.on| && v.on[c]
    ensures !Allowed(v, Start(c, to))
  {
    MaskedHere(v, c);
    hide Masked;
  }

  /** What is open, who runs and who takes interrupts after a call; one that is not allowed is skipped. */
  function After(v: View, call: Call): View {
    if !Allowed(v, call) then v
    else match call
      case Start(c, to) => Switched(v, c, to, false)
      case Lock(c) => Pushed(v, c)
      case Unlock(c) => Popped(v, c)
      case Enter(c) => Entered(v, c)
      case Exit(c, to) =>
        if v.open[v.current[c]] == Open(0, 1) then Scheduled(Exited(v, c), c, to) else Exited(v, c)
      case Schedules(c, to) => Scheduled(v, c, to)
      case Interrupts(c, ops, to) => Interrupted(v, c, ops, to)
  }

  /** Of another thread nothing changes, and of another CPU nothing. */
  ghost predicate Elsewhere(v: View, v': View, c: nat, t: ThreadId) {
    && |v'.current| == |v.current| && |v'.on| == |v.on| && v'.open.Keys == v.open.Keys
    && (forall d | 0 <= d < |v.current| && d != c :: v'.current[d] == v.current[d])
    && (forall d | 0 <= d < |v.on| && d != c :: v'.on[d] == v.on[d])
    && (forall x | x in v.open && x != t :: v'.open[x] == v.open[x])
  }

  /** The call opened or undid one thing of thread `t` on its CPU, or the CPU runs the thread that it picked. */
  ghost predicate Counts(v: View, v': View, call: Call, t: ThreadId)
    requires call.c < |v.current| == |v.on| == |v'.current| == |v'.on| && t in v.open && t in v'.open
  {
    var c, o, o' := call.c, v.open[t], v'.open[t];
    match call
    case Start(_, _) => true
    case Lock(_) => o' == Open(o.locks + 1, o.criticals) && !v'.on[c] && v'.current[c] == t
    case Unlock(_) => Open(o'.locks + 1, o'.criticals) == o && v'.current[c] == t
    case Enter(_) => o' == Open(o.locks, o.criticals + 1) && v'.on[c] == v.on[c] && v'.current[c] == t
    case Exit(_, to) =>
      && o'.criticals + 1 == o.criticals && (v'.current[c] == to <==> o == Open(0, 1) && to != NONE)
      && (v'.current[c] != to ==> o'.locks == o.locks && v'.on[c] == v.on[c] && v'.current[c] == t)
    case Schedules(_, to) =>
      && o'.criticals == o.criticals && (v'.current[c] == to <==> o.criticals == 0 && to != NONE)
      && (v'.current[c] != to ==> v' == v)
    case Interrupts(_, ops, to) =>
      && o' == o && c < |v.pending|
      && (v'.current[c] == to <==> (v.pending[c] || Asked(ops, o.criticals)) && o.criticals == 0 && to != NONE)
      && (v'.current[c] != to ==> v'.on[c] == v.on[c] && v'.current[c] == t)
  }

  /** A call that its CPU may make does just that, and nothing elsewhere. */
  lemma CallsCount(v: View, call: Call)
    requires Masked(v) && Allowed(v, call)
    ensures call.c < |v.current| == |v.on| == |After(v, call).current| == |After(v, call).on|
    ensures Elsewhere(v, After(v, call), call.c, v.current[call.c])
    ensures if call.Start? then
              && After(v, call).current[call.c] == call.to && After(v, call).open == v.open
              && After(v, call).on[call.c] == v.frame[call.to]
            else
              && v.current[call.c] in v.open && v.current[call.c] in After(v, call).open
              && Counts(v, After(v, call), call, v.current[call.c])
  {
    hide Asked, Balanced, Counters;
    MaskedHere(v, call.c);
    ViewSize(v);
    hide Masked;
  }

  function AfterAll(v: View, calls: seq<Call>): View {
    if calls == [] then v else After(AfterAll(v, calls[..|calls| - 1]), calls[|calls| - 1])
  }

  /** The calls of a run take effect one after the other. */
  lemma AfterAllNext(v: View, calls: seq<Call>, call: Call)
    ensures AfterAll(v, []) == v && AfterAll(v, calls + [call]) == After(AfterAll(v, calls), call)
  {
    assert (calls + [call])[..|calls|] == calls;
  }

  /** One call, if its CPU may make it. */
  method Take(k: Locks, call: Call)
    requires k.Valid()
    modifies k
    ensures k.Valid() && k.Seen() == After(old(k.Seen()), call)
  {
    hide Tracks, Masked, Counters, Pushed, Popped, Entered, Exited, Switched, Scheduled, Interrupted, Balanced;
    if call.c >= CPUS {
      return;
    }
    TracksHere(k.nest, k.open, k.current, call.c);
    MaskedHere(k.Seen(), call.c);
    var t := k.current[call.c];
    if call.Start? {
      if t == NONE && call.to in k.frame {
        var _ := k.Restore(call.c, call.to, false);
      }
    } else if t != NONE {
      match call {
        case Lock(c) =>
          if k.nest[t].cpus < LIMIT {
            k.CpusLock(c);
          }
        case Unlock(c) =>
          if k.nest[t].cpus > k.nest[t].critical {
            k.CpusUnlock(c);
          }
        case Enter(c) =>
          if k.nest[t].cpus < LIMIT && k.nest[t].scheduler < LIMIT {
            k.EnterCritical(c);
          }
        case Exit(c, to) =>
          if k.nest[t].critical > 0 && (to == NONE || to in k.frame) {
            ExitAndSchedule(k, c, to);
          }
        case Schedules(c, to) =>
          if k.nest[t].cpus < LIMIT && (to == NONE || to in k.frame) {
            var _ := k.Schedule(c, to);
          }
        case Interrupts(c, ops, to) =>
          if k.on[c] && Balanced(ops) && k.nest[t].cpus + |ops| < LIMIT && (to == NONE || to in k.frame) {
            var _ := k.Interrupt(c, ops, to);
          }
      }
    }
  }

  /** rt_exit_critical with the rt_schedule that it ends in. */
  method ExitAndSchedule(k: Locks, c: nat, to: ThreadId)
    requires k.Valid() && Runs(k.Seen(), c) && k.open[k.current[c]].criticals > 0 && Choice(k.Seen(), to)
    modifies k
    ensures k.Valid() && Runs(old(k.Seen()), c)
    ensures var v := old(k.Seen());
            k.Seen() == if v.open[v.current[c]] == Open(0, 1) then Scheduled(Exited(v, c), c, to) else Exited(v, c)
  {
    hide Tracks, Masked, Counters, Switched;
    MaskedHere(k.Seen(), c);
    var reschedule := k.ExitCritical(c);
    if reschedule {
      TracksHere(k.nest, k.open, k.current, c);
      NothingOpen(k.open[k.current[c]]);
      var _ := k.Schedule(c, to);
    }
  }

  /**
   Over any run of calls and interrupts on any CPUs, what is open is what the allowed
   calls opened and did not undo, and every thread's counters say exactly that.
   */
  method Run(k: Locks, calls: seq<Call>)
    requires k.Valid()
    modifies k
    ensures k.Valid() && k.Seen() == AfterAll(old(k.Seen()), calls)
  {
    hide Tracks, Masked, After;
    for i := 0 to |calls|
      invariant k.Valid() && k.Seen() == AfterAll(old(k.Seen()), calls[..i])
    {
      Take(k, calls[i]);
      AfterAllNext(old(k.Seen()), calls[..i], calls[i]);
      assert calls[..i + 1] == calls[..i] + [calls[i]];
    }
    assert calls[..|calls|] == calls;
  }

  /**
   However calls and interrupts interleave, no thread is switched away from inside
   rt_enter_critical, interrupts are off wherever an rt_cpus_lock is open, and one
   that an interrupt switched away from has nothing open.
   */
  lemma {:induction false} MaskedThroughout(v: View, calls: seq<Call>)
    requires Masked(v)
    ensures Masked(AfterAll(v, calls))
  {
    hide Masked, Counters;
    if calls != [] {
      var n := |calls| - 1;
      MaskedThroughout(v, calls[..n]);
      AfterMasked(AfterAll(v, calls[..n]), calls[n]);
    }
  }

  lemma AfterMasked(v: View, call: Call)
    requires Masked(v)
    ensures Masked(After(v, call))
  {
    hide Masked, Counters, Pushed, Popped, Entered, Exited, Switched, Interrupted, Balanced;
    if Allowed(v, call) {
      ViewSize(v);
      var c := call.c;
      MaskedHere(v, c);
      match call {
        case Start(_, to) => SwitchedMasked(v, c, to, false);
        case Lock(_) => PushedMasked(v, c);
        case Unlock(_) => PoppedMasked(v, c);
        case Enter(_) => CriticalMasked(v, c);
        case Exit(_, to) =>
          CriticalMasked(v, c);
          if v.open[v.current[c]] == Open(0, 1) {
            ExitedRuns(v, c);
            ScheduledMasked(Exited(v, c), c, to);
          }
        case Schedules(_, to) => ScheduledMasked(v, c, to);
        case Interrupts(_, ops, to) => InterruptedMasked(v, c, ops, to);
      }
    }
  }

  lemma InterruptedMasked(v: View, c: nat, ops: seq<Op>, to: ThreadId)
    requires Masked(v) && c < CPUS && Runs(v, c) && c < |v.pending| && v.on[c] && Choice(v, to)
    ensures Masked(Interrupted(v, c, ops, to))
  {
    hide Masked, Asked, Switched;
    MaskedHere(v, c);
    PendingMasked(v, c, false);
    PendingMasked(v, c, true);
    assert v.pending[c := v.pending[c]] == v.pending;
    if to != NONE && v.open[v.current[c]].criticals == 0 {
      SwitchedMasked(v.(pending := v.pending[c := false]), c, to, true);
    }
  }

  lemma ViewSize(v: View)
    requires Masked(v)
    ensures |v.current| == |v.on| == |v.pending| == CPUS
  {
  }

  lemma ExitedRuns(v: View, c: nat)
    requires Runs(v, c) && v.open[v.current[c]].criticals > 0
    ensures Runs(Exited(v, c), c) && Exited(v, c).frame == v.frame && Exited(v, c).current == v.current
    ensures v.open[v.current[c]] == Open(0, 1) ==> Exited(v, c).open[v.current[c]] == Open(0, 0)
  {
  }

  lemma ScheduledMasked(v: View, c: nat, to: ThreadId)
    requires Masked(v) && Runs(v, c) && Choice(v, to)
    ensures Masked(Scheduled(v, c, to))
  {
    hide Masked;
    ViewSize(v);
    MaskedHere(v, c);
    if to != NONE && v.open[v.current[c]].criticals == 0 {
      PushedMasked(v, c);
      SwitchedMasked(Pushed(v, c), c, to, false);
    }
  }
}
