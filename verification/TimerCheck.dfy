/**
 rt_timer_check and the tick that drives it.  A callback is a script of timer
 calls, so the theorems cover every start, stop and re-arm history.
 */
module TimerCheck {
  import opened Sequences
  import opened Machine
  import opened TimerRows
  import opened TimerList
  import opened TimerSteps
  import opened Traces

  ghost function Seen(list: List): View
    reads list
  {
    View(list.timers, list.due, list.now)
  }

  /** The timers that the calls `cmds` are made on. */
  ghost function Targets(cmds: seq<Command>): set<TimerId> {
    set i | 0 <= i < |cmds| :: cmds[i].t
  }

  /** The timers that the callbacks of the timers `fired` make calls on. */
  ghost function Touched(script: Script, fired: seq<TimerId>): set<TimerId> {
    if fired == [] then {}
    else Touched(script, fired[..|fired| - 1]) + Targets(Callback(script, fired[|fired| - 1]))
  }

  /** Those are the timers that some call of one of those callbacks is made on. */
  lemma {:induction false} TouchedExact(script: Script, fired: seq<TimerId>, x: TimerId)
    ensures x in Touched(script, fired) <==>
            exists i, j :: 0 <= i < |fired| && fired[i] in script && 0 <= j < |script[fired[i]]|
                           && script[fired[i]][j].t == x
  {
    if fired != [] {
      var n := |fired| - 1;
      var rest := fired[..n];
      TouchedExact(script, rest, x);
      if i, j :| 0 <= i < n && rest[i] in script && 0 <= j < |script[rest[i]]| && script[rest[i]][j].t == x {
        assert fired[i] == rest[i];
      }
      if i, j :| 0 <= i < |fired| && fired[i] in script && 0 <= j < |script[fired[i]]| && script[fired[i]][j].t == x {
        if i < n {
          assert fired[i] == rest[i];
        } else {
          assert Callback(script, fired[n])[j].t == x;
        }
      }
    }
  }

  /**
   The calls name known timers.  They neither start the timers in `slack` nor make them
   periodic; the others they only give periods that rt_timer_start accepts.
   */
  ghost predicate Callable(cmds: seq<Command>, known: set<TimerId>, slack: set<TimerId>) {
    forall i | 0 <= i < |cmds| ::
      && cmds[i].t in known
      && (cmds[i].Start? || cmds[i].SetPeriodic? ==> cmds[i].t !in slack)
      && (cmds[i].SetTime? && cmds[i].t !in slack ==> 0 < cmds[i].ticks < HALF)
  }

  /**
   Every timer that may start again during a check has a period, and one that rt_timer_start
   accepts.  The timers in `slack` do not start again: those of them among `first`, the ones
   that were due, are one-shot.  Their periods may be anything.
   */
  ghost predicate Periods(timers: map<TimerId, Timer>, slack: set<TimerId>, first: seq<TimerId>) {
    && (forall t | t in timers && t !in slack :: 0 < timers[t].initTick < HALF)
    && (forall t | t in timers && t in slack && t in first :: !timers[t].periodic)
  }

  /** Only the timers `touched` were called on. */
  ghost predicate SameBut(timers: map<TimerId, Timer>, due: map<TimerId, int>,
                          timers': map<TimerId, Timer>, due': map<TimerId, int>, touched: set<TimerId>) {
    && timers'.Keys == timers.Keys
    && (forall x | x in timers && x !in touched :: timers'[x] == timers[x])
    && (forall x | x !in touched :: (x in due' <==> x in due) && Due(due', x) == Due(due, x))
  }

  /** Timer `t` is re-armed for a full period from now if it is periodic, and off otherwise. */
  ghost predicate Rearmed(timer: Timer, timer': Timer, due: map<TimerId, int>, now: int, t: TimerId) {
    && timer'.initTick == timer.initTick && timer'.periodic == timer.periodic
    && timer'.activated == timer.periodic
    && (t in due <==> timer.periodic)
    && (t in due ==> due[t] == now + timer.initTick)
  }

  /** What a check did to each timer that no callback made a call on: fired and re-armed, or nothing. */
  ghost predicate Outcome(timers: map<TimerId, Timer>, due: map<TimerId, int>,
                          timers': map<TimerId, Timer>, due': map<TimerId, int>,
                          now: int, fired: seq<TimerId>, touched: set<TimerId>) {
    && timers'.Keys == timers.Keys
    && (forall i | 0 <= i < |fired| :: fired[i] in timers)
    && (forall x | x in timers && x !in touched && x in fired :: Rearmed(timers[x], timers'[x], due', now, x))
    && (forall x | x in timers && x !in touched && x !in fired :: timers'[x] == timers[x])
    && (forall x | x !in touched && x !in fired :: (x in due' <==> x in due) && Due(due', x) == Due(due, x))
  }

  lemma OutcomeNext(timers0: map<TimerId, Timer>, due0: map<TimerId, int>,
                    timers: map<TimerId, Timer>, due: map<TimerId, int>,
                    timers': map<TimerId, Timer>, due': map<TimerId, int>,
                    now: int, fired: seq<TimerId>, touched: set<TimerId>, t: TimerId, more: set<TimerId>)
    requires Outcome(timers0, due0, timers, due, now, fired, touched)
    requires t in timers && t !in fired
    requires SameBut(timers, due, timers', due', more + {t})
    requires t !in more ==> Rearmed(timers[t], timers'[t], due', now, t)
    ensures Outcome(timers0, due0, timers', due', now, fired + [t], touched + more)
  {
    assert forall x :: x in fired + [t] <==> x in fired || x == t;
    forall x | x in timers0 && x !in touched + more && x in fired + [t]
        ensures Rearmed(timers0[x], timers'[x], due', now, x) {
      assert x != t ==> Rearmed(timers0[x], timers[x], due, now, x);
      assert x != t ==> Due(due', x) == Due(due, x);
    }
  }

  lemma SameButTrans(timers: map<TimerId, Timer>, due: map<TimerId, int>, timers1: map<TimerId, Timer>,
                     due1: map<TimerId, int>,
                     timers2: map<TimerId, Timer>, due2: map<TimerId, int>, touched: set<TimerId>, more: set<TimerId>)
    requires SameBut(timers, due, timers1, due1, touched)
    requires SameBut(timers1, due1, timers2, due2, more)
    ensures SameBut(timers, due, timers2, due2, touched + more)
  {
  }

  // ---------------------------------------------------------------- who is still to fire

  /** What of the expired prefix a call leaves to fire: a started or stopped timer drops out. */
  ghost function Pending(pend: seq<TimerId>, c: Command): seq<TimerId> {
    if c.Start? || c.Stop? then Without(pend, c.t) else pend
  }

  /**
   The fired and the pending timers together are the timers that were due at first,
   less those dropped: `keep` loses at most the target of each call.
   */
  lemma DropPending(first: seq<TimerId>, keep: set<TimerId>, fired: seq<TimerId>, pend: seq<TimerId>, c: Command)
    returns (keep': set<TimerId>)
    requires NoRepeats(first) && fired + pend == Restrict(first, keep)
    ensures fired + Pending(pend, c) == Restrict(first, keep')
    ensures keep - {c.t} <= keep' <= keep
    ensures |Pending(pend, c)| <= |pend|
  {
    hide Restrict, Without, NoRepeats;
    if !c.Start? && !c.Stop? {
      return keep;
    }
    if c.t !in pend {
      WithoutAbsent(pend, c.t);
      return keep;
    }
    RestrictDistinct(first, keep);
    RestrictWithout(first, keep, c.t);
    var a, b := SplitAt(pend, c.t);
    assert fired + pend == (fired + a) + [c.t] + b;
    WithoutSplit(fired + a, c.t, b);
    PrefixDistinct(fired, pend);
    WithoutSplit(a, c.t, b);
    assert fired + (a + b) == (fired + a) + b;
    return keep - {c.t};
  }

  lemma TargetsNext(cmds: seq<Command>, i: nat)
    requires i < |cmds|
    ensures Targets(cmds[..i + 1]) == Targets(cmds[..i]) + {cmds[i].t}
  {
    var a, b := Targets(cmds[..i + 1]), Targets(cmds[..i]) + {cmds[i].t};
    forall x ensures x in a <==> x in b {
      if x in Targets(cmds[..i]) {
        var k :| 0 <= k < i && cmds[..i][k].t == x;
        assert cmds[..i + 1][k].t == x;
      }
      assert cmds[..i + 1][i].t == cmds[i].t;
    }
  }

  // ---------------------------------------------------------------- running a callback

  /** A call on `t` that (re)starts it, ends it, or leaves it alone. */
  lemma CallEffect(timers: map<TimerId, Timer>, due: map<TimerId, int>, timers': map<TimerId, Timer>,
                   due': map<TimerId, int>, t: TimerId, slack: set<TimerId>, first: seq<TimerId>)
    requires t in timers && t in timers' && timers' == timers[t := timers'[t]]
    requires timers'[t].initTick == timers[t].initTick && timers'[t].periodic == timers[t].periodic
    requires due' == due || due' == due - {t} || (t in due' && due' == due[t := due'[t]])
    requires Periods(timers, slack, first)
    ensures DueSameBut(due, due', t) && SameBut(timers, due, timers', due', {t}) && Periods(timers', slack, first)
  {
  }

  /** A timer call was made; `ok` is false for an error return. */
  ghost predicate Commanded(c: Command, v: View, v': View, ok: bool) {
    c.t in v.timers && v' == Called(v, c) && ok == (c.Stop? ==> v.timers[c.t].activated)
  }

  method CallStart(list: List, t: TimerId, ghost slack: set<TimerId>, ghost first: seq<TimerId>,
                   ghost pend: seq<TimerId>)
    requires list.Steady() && Periods(list.timers, slack, first) && t in list.timers && t !in slack
    requires Expired(list.Bottom(), list.due, list.now, pend)
    modifies list`rows, list`timers, list`randomNr, list`expiring, list`due, list`height
    ensures list.Steady() && Periods(list.timers, slack, first)
    ensures Expired(list.Bottom(), list.due, list.now, Without(pend, t))
    ensures SameBut(old(list.timers), old(list.due), list.timers, list.due, {t})
    ensures list.expiring == if t in old(list.expiring) then [] else old(list.expiring)
    ensures Commanded(Start(t), old(Seen(list)), Seen(list), true)
  {
    hide AllTimely, Flagged, Placed, Without, Expired, DueSameBut, SameBut, SortedBy;
    ghost var pos, h := list.Start(t);
    CallEffect(old(list.timers), old(list.due), list.timers, list.due, t, slack, first);
    ExpiredPlaced(old(list.Bottom()), list.Bottom(), old(list.due), list.due, list.now, pend, t, pos);
  }

  method CallStop(list: List, t: TimerId, ghost slack: set<TimerId>, ghost first: seq<TimerId>,
                  ghost pend: seq<TimerId>)
    returns (ok: bool)
    requires list.Steady() && Periods(list.timers, slack, first) && t in list.timers
    requires Expired(list.Bottom(), list.due, list.now, pend)
    modifies list`rows, list`timers, list`expiring, list`due, list`height
    ensures list.Steady() && Periods(list.timers, slack, first)
    ensures Expired(list.Bottom(), list.due, list.now, Without(pend, t))
    ensures SameBut(old(list.timers), old(list.due), list.timers, list.due, {t})
    ensures list.expiring == old(list.expiring) || (list.expiring == [] && t in old(list.expiring) && ok)
    ensures Commanded(Stop(t), old(Seen(list)), Seen(list), ok)
  {
    hide AllTimely, Placed, Without, DueSameBut, SameBut, SortedBy;
    ok := list.Stop(t);
    CallEffect(old(list.timers), old(list.due), list.timers, list.due, t, slack, first);
    if ok {
      ExpiredWithout(old(list.Bottom()), old(list.due), list.due, list.now, pend, t);
    } else {
      assert t !in list.Bottom();
      WithoutAbsent(pend, t);
    }
  }

  /** One timer call made by a callback. */
  method RunCommand(list: List, c: Command, ghost slack: set<TimerId>, ghost first: seq<TimerId>,
                    ghost pend: seq<TimerId>)
    returns (ok: bool)
    requires list.Steady() && Periods(list.timers, slack, first)
    requires Callable([c], list.timers.Keys, slack)
    requires Expired(list.Bottom(), list.due, list.now, pend)
    modifies list`rows, list`timers, list`randomNr, list`expiring, list`due, list`height
    ensures list.Steady() && Periods(list.timers, slack, first)
    ensures Expired(list.Bottom(), list.due, list.now, Pending(pend, c))
    ensures SameBut(old(list.timers), old(list.due), list.timers, list.due, {c.t})
    ensures list.expiring == old(list.expiring)
         || (list.expiring == [] && c.t in old(list.expiring) && (c.Start? || (c.Stop? && ok)))
    ensures Commanded(c, old(Seen(list)), Seen(list), ok)
  {
    hide Expired, Without;
    assert [c][0] == c;
    ok := true;
    match c
    case Start(t) => CallStart(list, t, slack, first, pend);
    case Stop(t) => ok := CallStop(list, t, slack, first, pend);
    case SetTime(t, ticks) => list.SetTime(t, ticks);
    case SetOneShot(t) => list.SetMode(t, false);
    case SetPeriodic(t) => list.SetMode(t, true);
  }

  /** The body of a callback. */
  method RunCommands(list: List, cmds: seq<Command>, ghost slack: set<TimerId>, ghost first: seq<TimerId>,
                     ghost keep: set<TimerId>,
                     ghost fired: seq<TimerId>, ghost pend: seq<TimerId>)
    returns (ghost keep': set<TimerId>, ghost pend': seq<TimerId>)
    requires list.Steady() && Periods(list.timers, slack, first) && Callable(cmds, list.timers.Keys, slack)
    requires Expired(list.Bottom(), list.due, list.now, pend)
    requires NoRepeats(first) && fired + pend == Restrict(first, keep)
    modifies list`rows, list`timers, list`randomNr, list`expiring, list`due, list`height
    ensures list.Steady() && Periods(list.timers, slack, first)
    ensures Expired(list.Bottom(), list.due, list.now, pend')
    ensures fired + pend' == Restrict(first, keep') && |pend'| <= |pend|
    ensures keep - Targets(cmds) <= keep' <= keep
    ensures SameBut(old(list.timers), old(list.due), list.timers, list.due, Targets(cmds))
    ensures list.expiring == old(list.expiring)
         || (list.expiring == [] && |old(list.expiring)| == 1 && old(list.expiring)[0] in Targets(cmds))
    ensures AllCalled(cmds, old(Seen(list)), Seen(list), old(list.expiring), list.expiring)
  {
    hide Expired, AllTimely, Ordered, NoRepeats, SameBut, Targets, Restrict, Pending, AllCalled, Commanded;
    keep', pend' := keep, pend;
    CalledStart(Seen(list), list.expiring);
    assert cmds[..0] == [];
    SameButRefl(list.timers, list.due, Targets(cmds[..0]));
    for i := 0 to |cmds|
      invariant list.Steady() && Periods(list.timers, slack, first) && list.timers.Keys == old(list.timers.Keys)
      invariant Expired(list.Bottom(), list.due, list.now, pend')
      invariant fired + pend' == Restrict(first, keep') && |pend'| <= |pend|
      invariant keep - Targets(cmds[..i]) <= keep' <= keep
      invariant SameBut(old(list.timers), old(list.due), list.timers, list.due, Targets(cmds[..i]))
      invariant list.expiring == old(list.expiring)
             || (list.expiring == [] && |old(list.expiring)| == 1 && old(list.expiring)[0] in Targets(cmds[..i]))
      invariant AllCalled(cmds[..i], old(Seen(list)), Seen(list), old(list.expiring), list.expiring)
    {
      ghost var timers1, due1 := list.timers, list.due;
      assert Callable([cmds[i]], list.timers.Keys, slack);
      ghost var before, parked := Seen(list), list.expiring;
      var ok := RunCommand(list, cmds[i], slack, first, pend');
      CalledNext(cmds, i, old(Seen(list)), before, Seen(list), old(list.expiring), parked, list.expiring, ok);
      SameButTrans(old(list.timers), old(list.due), timers1, due1, list.timers, list.due, Targets(cmds[..i]),
                   {cmds[i].t});
      TargetsNext(cmds, i);
      keep' := DropPending(first, keep', fired, pend', cmds[i]);
      pend' := Pending(pend', cmds[i]);
    }
    assert cmds[..|cmds|] == cmds;
  }

  /** A timer that is not parked is listed exactly if it is flagged as activated. */
  ghost predicate Unparked(v: View, t: TimerId) {
    t in v.timers && (v.timers[t].activated <==> t in v.due)
  }

  /** Each of the calls was made, in order; of the parked timers one that is parked no more is started or stopped. */
  ghost predicate AllCalled(cmds: seq<Command>, v: View, v': View, parked: seq<TimerId>, parked': seq<TimerId>) {
    && v' == After(v, Calls(cmds))
    && (parked' == parked || (parked' == [] && |parked| == 1 && (parked[0] in v.timers ==> Unparked(v', parked[0]))))
  }

  lemma CalledStart(v: View, parked: seq<TimerId>)
    ensures AllCalled([], v, v, parked, parked)
  {
  }

  lemma CalledNext(cmds: seq<Command>, i: nat, v: View, v1: View, v2: View, parked: seq<TimerId>, parked1: seq<TimerId>,
                   parked2: seq<TimerId>, ok: bool)
    requires i < |cmds| && |parked| <= 1
    requires AllCalled(cmds[..i], v, v1, parked, parked1) && Commanded(cmds[i], v1, v2, ok)
    requires parked2 == parked1 || (parked2 == [] && cmds[i].t in parked1 && (cmds[i].Start? || (cmds[i].Stop? && ok)))
    ensures AllCalled(cmds[..i + 1], v, v2, parked, parked2)
  {
    hide After, Called;
    assert Calls(cmds[..i + 1])[..i] == Calls(cmds[..i]) && Calls(cmds[..i + 1])[i] == Made(cmds[i]);
    AfterNext(v, Calls(cmds[..i + 1]), i);
    assert Calls(cmds[..i + 1])[..i + 1] == Calls(cmds[..i + 1]);
    if |parked| == 1 && parked[0] in v.timers {
      CallUnparks(v1, cmds[i], parked[0]);
    }
  }

  lemma CallUnparks(v: View, c: Command, t: TimerId)
    requires c.t in v.timers && t in v.timers
    ensures Unparked(v, t) || (c.t == t && (c.Start? || (c.Stop? && v.timers[t].activated))) ==>
              Unparked(Called(v, c), t)
  {
  }

  lemma SameButRefl(timers: map<TimerId, Timer>, due: map<TimerId, int>, touched: set<TimerId>)
    ensures SameBut(timers, due, timers, due, touched)
  {
  }

  // ---------------------------------------------------------------- firing one timer

  lemma PendingHead(s: seq<TimerId>, due: map<TimerId, int>, now: int, pend: seq<TimerId>)
    requires NoRepeats(s) && SortedBy(s, due) && Expired(s, due, now, pend) && pend != []
    ensures s != [] && s[0] == pend[0] && pend[0] in s
    ensures Expired(Without(s, pend[0]), due - {pend[0]}, now, pend[1..])
  {
    hide SortedBy;
    ExpiredWithout(s, due, due - {pend[0]}, now, pend, pend[0]);
    PrefixDistinct(pend, s[|pend|..]);
    assert pend + s[|pend|..] == s;
    WithoutAt(pend, 0);
    assert RemoveAt(pend, 0) == pend[1..];
  }

  /** The head of the list is due: unlink it, and park it on the temporary list while its callback runs. */
  method Detach(list: List, t: TimerId, ghost pend: seq<TimerId>)
    requires list.Valid() && pend != [] && pend[0] == t
    requires Expired(list.Bottom(), list.due, list.now, pend)
    modifies list`rows, list`timers, list`expiring, list`due, list`height
    ensures list.Steady() && list.expiring == [t]
    ensures Expired(list.Bottom(), list.due, list.now, pend[1..])
    ensures t in old(list.timers) && list.due == old(list.due) - {t}
    ensures list.timers == old(list.timers)[t := old(list.timers)[t].(activated := old(list.timers)[t].periodic)]
  {
    hide NoRepeats, SortedBy, Restrict, Without;
    PendingHead(list.Bottom(), list.due, list.now, pend);
    assert t in list.due;
    assert Timely(list.timers, list.due, list.now, t);
    list.Unlink(t);
    if !list.timers[t].periodic {
      list.timers := list.timers[t := list.timers[t].(activated := false)];
    }
    TimelyKeep(old(list.timers), list.timers, old(list.due), list.now, t);
    list.expiring := [t];
  }

  /** After the callback: a timer that is still parked, periodic and activated starts again. */
  method Settle(list: List, t: TimerId) returns (ghost pos: nat)
    requires list.Steady() && list.expiring == [t]
    requires t in list.timers && (list.timers[t].periodic && list.timers[t].activated
                                  ==> list.timers[t].initTick < HALF)
    modifies list`rows, list`timers, list`randomNr, list`expiring, list`due, list`height
    ensures list.Valid()
    ensures var k := old(list.timers)[t];
            if k.periodic && k.activated then
              && list.due == old(list.due)[t := list.now + k.initTick]
              && list.timers == old(list.timers)[t := k.(timeoutTick := list.due[t] % TICKS)]
              && Placed(old(list.Bottom()), list.Bottom(), list.due, t, pos)
            else
              list.due == old(list.due) && list.timers == old(list.timers) && list.rows == old(list.rows)
  {
    hide AllTimely, Placed, Without, Ordered;
    assert list.expiring[0] == t;
    pos := 0;
    list.expiring := [];
    if list.timers[t].periodic && list.timers[t].activated {
      list.timers := list.timers[t := list.timers[t].(activated := false)];
      TimelyKeep(old(list.timers), list.timers, list.due, list.now, t);
      ghost var h;
      pos, h := list.Start(t);
    }
  }

  /** The same for a timer with a period, if it starts again. */
  method Finish(list: List, t: TimerId, ghost slack: set<TimerId>, ghost first: seq<TimerId>, ghost pend: seq<TimerId>)
    requires list.Steady() && list.expiring == [t] && Periods(list.timers, slack, first) && t in first
    requires Expired(list.Bottom(), list.due, list.now, pend)
    modifies list`rows, list`timers, list`randomNr, list`expiring, list`due, list`height
    ensures list.Valid() && Periods(list.timers, slack, first)
    ensures Expired(list.Bottom(), list.due, list.now, pend)
    ensures SameBut(old(list.timers), old(list.due), list.timers, list.due, {t})
    ensures t in old(list.timers)
    ensures old(list.timers)[t].activated == old(list.timers)[t].periodic ==>
              Rearmed(old(list.timers)[t], list.timers[t], list.due, list.now, t)
    ensures Seen(list) == Stepped(old(Seen(list)), Settled(t))
  {
    hide AllTimely, Placed, Without, Ordered, Expired, SortedBy, NoRepeats;
    assert list.expiring[0] == t;
    ghost var restarts := list.timers[t].periodic && list.timers[t].activated;
    assert restarts ==> t !in slack;
    ParkedAbsent(list.rows, list.height, list.due, list.now, pend, t);
    ghost var pos := Settle(list, t);
    CallEffect(old(list.timers), old(list.due), list.timers, list.due, t, slack, first);
    if restarts {
      ExpiredPlaced(old(list.Bottom()), list.Bottom(), old(list.due), list.due, list.now, pend, t, pos);
    }
  }

  /** A parked timer is not among those still to fire. */
  lemma ParkedAbsent(rows: seq<seq<TimerId>>, height: map<TimerId, nat>, due: map<TimerId, int>, now: int,
                     pend: seq<TimerId>, t: TimerId)
    requires Ordered(rows, height, due) && Expired(rows[|rows| - 1], due, now, pend) && t !in due
    ensures Without(pend, t) == pend
    ensures NoRepeats(rows[|rows| - 1]) && SortedBy(rows[|rows| - 1], due)
  {
    RowsSorted(rows, height, due, |rows| - 1);
    var s := rows[|rows| - 1];
    forall i | 0 <= i < |pend| ensures pend[i] != t {
      assert pend[i] == s[i] && s[i] in height.Keys;
    }
    WithoutAbsent(pend, t);
  }

  lemma DetachEffect(timers: map<TimerId, Timer>, due: map<TimerId, int>, timers': map<TimerId, Timer>,
                     due': map<TimerId, int>, t: TimerId, slack: set<TimerId>, first: seq<TimerId>)
    requires t in timers && Periods(timers, slack, first)
    requires timers' == timers[t := timers[t].(activated := timers[t].periodic)] && due' == due - {t}
    ensures SameBut(timers, due, timers', due', {t}) && Periods(timers', slack, first)
  {
  }

  lemma RearmedSame(a: Timer, b: Timer, timer': Timer, due: map<TimerId, int>, now: int, t: TimerId)
    requires Rearmed(b, timer', due, now, t) && a.initTick == b.initTick && a.periodic == b.periodic
    ensures Rearmed(a, timer', due, now, t)
  {
  }

  lemma HeadFirst(first: seq<TimerId>, keep: set<TimerId>, fired: seq<TimerId>, pend: seq<TimerId>)
    requires fired + pend == Restrict(first, keep) && pend != []
    ensures pend[0] in first
  {
    RestrictMembers(first, keep);
    assert (fired + pend)[|fired|] == pend[0];
  }

  /** One round of the loop of rt_timer_check, for a timer `t` that is due. */
  method Fire(list: List, script: Script, t: TimerId, ghost slack: set<TimerId>, ghost first: seq<TimerId>,
              ghost keep: set<TimerId>,
              ghost fired: seq<TimerId>, ghost pend: seq<TimerId>)
    returns (ghost keep': set<TimerId>, ghost pend': seq<TimerId>)
    requires list.Valid() && Periods(list.timers, slack, first)
             && Callable(Callback(script, t), list.timers.Keys, slack)
    requires pend != [] && pend[0] == t && Expired(list.Bottom(), list.due, list.now, pend)
    requires NoRepeats(first) && fired + pend == Restrict(first, keep)
    modifies list`rows, list`timers, list`randomNr, list`expiring, list`due, list`height
    ensures list.Valid() && Periods(list.timers, slack, first)
    ensures Expired(list.Bottom(), list.due, list.now, pend')
    ensures fired + [t] + pend' == Restrict(first, keep') && |pend'| < |pend|
    ensures keep - Targets(Callback(script, t)) <= keep' <= keep
    ensures SameBut(old(list.timers), old(list.due), list.timers, list.due, Targets(Callback(script, t)) + {t})
    ensures t in old(list.timers)
    ensures t !in Targets(Callback(script, t)) ==> Rearmed(old(list.timers)[t], list.timers[t], list.due, list.now, t)
    ensures Seen(list) == After(old(Seen(list)), Round(script, t))
  {
    hide Expired, AllTimely, Ordered, Flagged, NoRepeats, Targets, Restrict, Rearmed, After, Unparked;
    var cmds := Callback(script, t);
    Detach(list, t, pend);
    DetachEffect(old(list.timers), old(list.due), list.timers, list.due, t, slack, first);
    HeadFirst(first, keep, fired, pend);
    assert fired + pend == fired + [t] + pend[1..];
    ghost var timers1, due1 := list.timers, list.due;
    keep', pend' := RunCommands(list, cmds, slack, first, keep, fired + [t], pend[1..]);
    SameButTrans(old(list.timers), old(list.due), timers1, due1, list.timers, list.due, {t}, Targets(cmds));
    assert {t} + Targets(cmds) == Targets(cmds) + {t};
    RoundAfter(old(Seen(list)), script, t, View(timers1, due1, list.now), Seen(list));
    if list.expiring == [] {
      return;
    }
    ghost var timers2, due2 := list.timers, list.due;
    Finish(list, t, slack, first, pend');
    SameButTrans(old(list.timers), old(list.due), timers2, due2, list.timers, list.due, Targets(cmds) + {t}, {t});
    assert Targets(cmds) + {t} + {t} == Targets(cmds) + {t};
    if t !in Targets(cmds) {
      RearmedSame(old(list.timers)[t], timers2[t], list.timers[t], list.due, list.now, t);
    }
  }

  lemma RoundAfter(v: View, script: Script, t: TimerId, v1: View, v2: View)
    requires v1 == Stepped(v, Detached(t)) && v2 == After(v1, Calls(Callback(script, t)))
    ensures After(v, Round(script, t)) == Stepped(v2, Settled(t))
    ensures Unparked(v2, t) ==> Stepped(v2, Settled(t)) == v2
  {
    hide Stepped, Calls;
    var a, b := [Detached(t)], Calls(Callback(script, t));
    assert After(v, []) == v && a[..0] == [];
    AfterAppend(v, a, b);
    assert (a + b + [Settled(t)])[..|a + b|] == a + b;
    UnparkedSettles(v2, t);
  }

  lemma UnparkedSettles(v: View, t: TimerId)
    ensures Unparked(v, t) ==> Stepped(v, Settled(t)) == v
  {
  }

  // ---------------------------------------------------------------- the whole check

  ghost predicate AllCallable(script: Script, known: set<TimerId>, slack: set<TimerId>) {
    forall t {:trigger Callback(script, t)} :: Callable(Callback(script, t), known, slack)
  }

  /**
   What rt_timer_check needs to end: the timers outside `slack` have periods, and no due timer
   in `slack` is periodic, nor does a callback start one or make one periodic.
   */
  ghost predicate Checkable(timers: map<TimerId, Timer>, due: map<TimerId, int>, now: int, script: Script,
                            slack: set<TimerId>) {
    && (forall t | t in timers && t !in slack :: 0 < timers[t].initTick < HALF)
    && (forall t | t in timers && t in slack && t in due && due[t] <= now :: !timers[t].periodic)
    && AllCallable(script, timers.Keys, slack)
  }

  /** The timers due by `now` are a prefix of the list. */
  lemma ExpiredPrefix(s: seq<TimerId>, due: map<TimerId, int>, now: int) returns (pend: seq<TimerId>)
    requires SortedBy(s, due)
    ensures Expired(s, due, now, pend)
  {
    var i := 0;
    while i < |s| && Due(due, s[i]) <= now
      invariant i <= |s|
      invariant forall j | 0 <= j < i :: Due(due, s[j]) <= now
    {
      i := i + 1;
    }
    pend := s[..i];
  }

  lemma ExpiredMembers(s: seq<TimerId>, due: map<TimerId, int>, now: int, pend: seq<TimerId>)
    requires SortedBy(s, due) && Expired(s, due, now, pend)
    ensures forall x :: x in pend <==> x in s && Due(due, x) <= now
  {
    forall x ensures x in pend <==> x in s && Due(due, x) <= now {
      assert s == pend + s[|pend|..];
      SplitDue(pend, s[|pend|..], due, now);
    }
  }

  lemma RestrictAll(s: seq<TimerId>, keep: set<TimerId>)
    requires forall i | 0 <= i < |s| :: s[i] in keep
    ensures Restrict(s, keep) == s
  {
    if s != [] {
      RestrictAll(s[1..], keep);
    }
  }

  /** The loop test of rt_timer_check on the head of the list. */
  method HeadDue(list: List, ghost pend: seq<TimerId>) returns (b: bool)
    requires list.Valid() && Expired(list.Bottom(), list.due, list.now, pend)
    ensures b <==> pend != []
    ensures b ==> list.Bottom() != [] && pend[0] == list.Bottom()[0]
  {
    if list.rows[list.levels - 1] == [] {
      return false;
    }
    var t := list.rows[list.levels - 1][0];
    assert t in list.Bottom();
    assert Timely(list.timers, list.due, list.now, t);
    ExpiryWindow(list.now, list.due[t]);
    b := TickDiff(list.tick, list.timers[t].timeoutTick) < HALF;
  }

  /**
   rt_timer_check.  `pend` is what was due on entry, in list order; `keep` leaves out
   the timers that a callback started or stopped before their turn.  The rest fire,
   in list order, and nothing else does.
   */
  method Check(list: List, script: Script, ghost slack: set<TimerId>)
    returns (fired: seq<TimerId>, ghost pend: seq<TimerId>, ghost keep: set<TimerId>)
    requires list.Valid() && Checkable(list.timers, list.due, list.now, script, slack)
    modifies list`rows, list`timers, list`randomNr, list`expiring, list`due, list`height
    ensures list.Valid()
    ensures Expired(old(list.Bottom()), old(list.due), list.now, pend)
    ensures fired == Restrict(pend, keep)
    ensures forall x | x in pend && x !in keep :: x in Touched(script, fired)
    ensures Outcome(old(list.timers), old(list.due), list.timers, list.due, list.now, fired, Touched(script, fired))
    ensures forall x | x in list.due :: list.due[x] > list.now
    ensures list.timers.Keys == old(list.timers.Keys)
    ensures Checked(old(Seen(list)), Seen(list), script, fired)
  {
    hide AllTimely, Flagged, Ordered, NoRepeats, SameBut, Outcome, Rearmed, Restrict, Expired, Touched, After,
        EachInTurn;
    pend := FirstPending(list.rows, list.height, list.due, list.now);
    keep := list.height.Keys;
    ghost var left := pend;
    fired := [];
    FirstPeriods(list.rows, list.height, list.timers, list.due, list.now, script, slack, pend);
    OutcomeStart(list.timers, list.due, list.now, script);
    NoStepYet(list.timers, list.due, list.now, script);
    while true
      invariant list.Valid() && Periods(list.timers, slack, pend) && list.timers.Keys == old(list.timers.Keys)
      invariant NoRepeats(pend) && fired + left == Restrict(pend, keep)
      invariant Expired(list.Bottom(), list.due, list.now, left)
      invariant forall x | x in pend && x !in keep :: x in Touched(script, fired)
      invariant Outcome(old(list.timers), old(list.due), list.timers, list.due, list.now, fired, Touched(script, fired))
      invariant Seen(list) == After(old(Seen(list)), Steps(script, fired))
      invariant EachInTurn(old(Seen(list)), Steps(script, fired))
      decreases |left|
    {
      var more := HeadDue(list, left);
      if !more {
        break;
      }
      var t := list.rows[list.levels - 1][0];
      ghost var timers1, due1 := list.timers, list.due;
      HeadInTurn(list.rows, list.height, list.timers, list.due, list.now, left);
      RoundInTurn(old(Seen(list)), script, fired, t);
      NotYetFired(pend, keep, fired, left);
      assert Callable(Callback(script, t), list.timers.Keys, slack);
      keep, left := Fire(list, script, t, slack, pend, keep, fired, left);
      OutcomeNext(old(list.timers), old(list.due), timers1, due1, list.timers, list.due, list.now, fired,
                  Touched(script, fired), t, Targets(Callback(script, t)));
      TouchedNext(script, fired, t);
      fired := fired + [t];
    }
    NothingDue(list.rows, list.height, list.due, list.now);
  }

  lemma NoStepYet(timers: map<TimerId, Timer>, due: map<TimerId, int>, now: int, script: Script)
    requires AllTimely(timers, due, now) && Flagged(timers, due.Keys, [])
    ensures var v := View(timers, due, now);
            Listed(v) && After(v, Steps(script, [])) == v && EachInTurn(v, Steps(script, []))
  {
    assert forall t | t in due :: Timely(timers, due, now, t);
  }

  lemma HeadInTurn(rows: seq<seq<TimerId>>, height: map<TimerId, nat>, timers: map<TimerId, Timer>,
                   due: map<TimerId, int>, now: int, pend: seq<TimerId>)
    requires Ordered(rows, height, due) && AllTimely(timers, due, now) && Expired(rows[|rows| - 1], due, now, pend)
    requires pend != []
    ensures InTurn(View(timers, due, now), rows[|rows| - 1][0])
  {
    EarliestFirst(rows, height, due);
    var t := rows[|rows| - 1][0];
    assert pend[0] == t && Timely(timers, due, now, t);
  }

  lemma FirstPeriods(rows: seq<seq<TimerId>>, height: map<TimerId, nat>, timers: map<TimerId, Timer>,
                     due: map<TimerId, int>, now: int, script: Script, slack: set<TimerId>, pend: seq<TimerId>)
    requires Ordered(rows, height, due) && Expired(rows[|rows| - 1], due, now, pend)
    requires Checkable(timers, due, now, script, slack)
    ensures Periods(timers, slack, pend)
  {
    ExpiredMembers(rows[|rows| - 1], due, now, pend);
    forall t | t in timers && t in slack && t in pend ensures !timers[t].periodic {
      assert t in height && t in due.Keys;
    }
  }

  lemma FirstPending(rows: seq<seq<TimerId>>, height: map<TimerId, nat>, due: map<TimerId, int>, now: int)
      returns (pend: seq<TimerId>)
    requires Ordered(rows, height, due)
    ensures Expired(rows[|rows| - 1], due, now, pend) && NoRepeats(pend)
    ensures Restrict(pend, height.Keys) == pend
    ensures forall x | x in pend :: x in height
  {
    var s := rows[|rows| - 1];
    pend := ExpiredPrefix(s, due, now);
    assert pend + s[|pend|..] == s;
    PrefixDistinct(pend, s[|pend|..]);
    assert forall i | 0 <= i < |pend| :: pend[i] == s[i] && s[i] in height;
    RestrictAll(pend, height.Keys);
  }

  lemma OutcomeStart(timers: map<TimerId, Timer>, due: map<TimerId, int>, now: int, script: Script)
    ensures Touched(script, []) == {} && Outcome(timers, due, timers, due, now, [], {})
  {
  }

  lemma NotYetFired(first: seq<TimerId>, keep: set<TimerId>, fired: seq<TimerId>, pend: seq<TimerId>)
    requires NoRepeats(first) && fired + pend == Restrict(first, keep) && pend != []
    ensures pend[0] !in fired
  {
    RestrictDistinct(first, keep);
    PrefixDistinct(fired, pend);
    assert pend[0] in pend;
  }

  lemma TouchedNext(script: Script, fired: seq<TimerId>, t: TimerId)
    ensures Touched(script, fired + [t]) == Touched(script, fired) + Targets(Callback(script, t))
  {
    assert (fired + [t])[..|fired|] == fired;
  }

  lemma NothingDue(rows: seq<seq<TimerId>>, height: map<TimerId, nat>, due: map<TimerId, int>, now: int)
    requires Ordered(rows, height, due) && Expired(rows[|rows| - 1], due, now, [])
    ensures forall x | x in due :: due[x] > now
  {
    ExpiredMembers(rows[|rows| - 1], due, now, []);
  }

  /** In terms of deadlines: everything due fires unless a callback touched it, nothing early, in deadline order. */
  lemma FiresWhatIsDue(rows: seq<seq<TimerId>>, height: map<TimerId, nat>, due: map<TimerId, int>, now: int,
                       pend: seq<TimerId>, keep: set<TimerId>, fired: seq<TimerId>, touched: set<TimerId>)
    requires Ordered(rows, height, due) && Expired(rows[|rows| - 1], due, now, pend)
    requires fired == Restrict(pend, keep) && forall x | x in pend && x !in keep :: x in touched
    ensures forall x | x in fired :: x in due && due[x] <= now
    ensures forall x | x in due && due[x] <= now && x !in touched :: x in fired
    ensures SortedBy(fired, due) && NoRepeats(fired)
    ensures touched == {} ==> fired == pend
  {
    var s := rows[|rows| - 1];
    ExpiredMembers(s, due, now, pend);
    RestrictMembers(pend, keep);
    assert pend + s[|pend|..] == s;
    PrefixDistinct(pend, s[|pend|..]);
    RestrictDistinct(pend, keep);
    RestrictSorted(pend, keep, due);
    if touched == {} {
      assert forall i | 0 <= i < |pend| :: pend[i] in pend;
      RestrictAll(pend, keep);
    }
  }

  // ---------------------------------------------------------------- when the check ends

  /** A due timer that fires again as soon as it has fired. */
  ghost predicate Stubborn(timers: map<TimerId, Timer>, due: map<TimerId, int>, now: int, x: TimerId) {
    x in timers && x in due && due[x] <= now && timers[x].periodic && timers[x].initTick == 0
  }

  ghost predicate Stuck(timers: map<TimerId, Timer>, due: map<TimerId, int>, now: int) {
    exists x :: Stubborn(timers, due, now, x)
  }

  ghost function DueBy(due: map<TimerId, int>, now: int): set<TimerId> {
    set x | x in due && due[x] <= now
  }

  /** What rt_timer_start asserts of the timers that a check may restart. */
  ghost predicate Startable(timers: map<TimerId, Timer>, due: map<TimerId, int>, now: int) {
    forall x | x in timers && x in due && due[x] <= now && timers[x].periodic :: timers[x].initTick < HALF
  }

  /** The loop test holds exactly while some listed timer is due. */
  method AnyDue(list: List) returns (more: bool)
    requires list.Valid()
    ensures more <==> DueBy(list.due, list.now) != {}
    ensures more ==> list.Bottom() != [] && list.Bottom()[0] in DueBy(list.due, list.now)
    ensures more ==> list.Bottom()[0] in list.timers
  {
    hide Flagged, Restrict, NoRepeats;
    ghost var pend := FirstPending(list.rows, list.height, list.due, list.now);
    more := HeadDue(list, pend);
    PendingDue(list.rows, list.height, list.due, list.now, pend);
    if more {
      assert Timely(list.timers, list.due, list.now, pend[0]);
    }
  }

  lemma PendingDue(rows: seq<seq<TimerId>>, height: map<TimerId, nat>, due: map<TimerId, int>, now: int,
                   pend: seq<TimerId>)
    requires Ordered(rows, height, due) && Expired(rows[|rows| - 1], due, now, pend)
    ensures pend != [] <==> DueBy(due, now) != {}
    ensures pend != [] ==> pend[0] in due && pend[0] in DueBy(due, now)
  {
    var s := rows[|rows| - 1];
    ExpiredMembers(s, due, now, pend);
    forall x ensures x in DueBy(due, now) <==> x in pend {
      assert x in s <==> x in height.Keys;
      assert x in height.Keys <==> x in due.Keys;
    }
    if pend != [] {
      assert pend[0] in pend;
    }
  }

  /** One round of the loop for the head of the list, if its callback makes no timer call. */
  method PassiveRound(list: List, t: TimerId)
    requires list.Valid() && list.Bottom() != [] && t == list.Bottom()[0] && t in DueBy(list.due, list.now)
    requires Startable(list.timers, list.due, list.now)
    modifies list`rows, list`timers, list`randomNr, list`expiring, list`due, list`height
    ensures list.Valid() && t in old(list.timers)
    ensures var k := old(list.timers)[t];
            if k.periodic then
              && list.due == old(list.due)[t := list.now + k.initTick]
              && list.timers == old(list.timers)[t := k.(timeoutTick := list.due[t] % TICKS, activated := true)]
            else
              list.due == old(list.due) - {t} && list.timers == old(list.timers)[t := k.(activated := false)]
  {
    hide AllTimely, Flagged, Restrict, NoRepeats, Expired, Placed, Ordered;
    ghost var pend := FirstPending(list.rows, list.height, list.due, list.now);
    ghost var due0 := list.due;
    PendingDue(list.rows, list.height, list.due, list.now, pend);
    HeadOf(list.rows[|list.rows| - 1], list.due, list.now, pend);
    Detach(list, t, pend);
    ghost var pos := Settle(list, t);
    Reinsert(due0, t, list.now + old(list.timers)[t].initTick);
  }

  lemma HeadOf(s: seq<TimerId>, due: map<TimerId, int>, now: int, pend: seq<TimerId>)
    requires Expired(s, due, now, pend) && pend != []
    ensures s != [] && pend[0] == s[0]
  {
  }

  /**
   One round for a periodic timer whose callback makes it one-shot: it does not start again, but it
   stays flagged as activated while it is in no list.
   */
  method OwnOneShot(list: List, t: TimerId)
    requires list.Valid() && list.Bottom() != [] && t == list.Bottom()[0] && t in DueBy(list.due, list.now)
    requires t in list.timers && list.timers[t].periodic
    modifies list`rows, list`timers, list`randomNr, list`expiring, list`due, list`height
    ensures list.Valid() && list.due == old(list.due) - {t}
    ensures list.timers == old(list.timers)[t := old(list.timers)[t].(activated := true, periodic := false)]
  {
    hide AllTimely, Flagged, Restrict, NoRepeats, Expired, Placed, Ordered;
    ghost var pend := FirstPending(list.rows, list.height, list.due, list.now);
    PendingDue(list.rows, list.height, list.due, list.now, pend);
    HeadOf(list.rows[|list.rows| - 1], list.due, list.now, pend);
    Detach(list, t, pend);
    list.SetMode(t, false);
    ghost var pos := Settle(list, t);
  }

  /**
   Up to `n` rounds of the loop, with callbacks that make no timer call.  The loop goes on after
   that if and only if some due timer is periodic with period 0, or more than `n` timers were due:
   without such a timer the check ends after one round for each due timer, with one never.
   */
  method Rounds(list: List, n: nat) returns (k: nat, more: bool)
    requires list.Valid() && Startable(list.timers, list.due, list.now)
    modifies list`rows, list`timers, list`randomNr, list`expiring, list`due, list`height
    ensures list.Valid() && k <= n && (k < n ==> !more)
    ensures more <==> Stuck(old(list.timers), old(list.due), list.now) || n < |DueBy(old(list.due), list.now)|
  {
    hide AllTimely, Flagged, Ordered, Stuck, Startable, DueBy;
    k := 0;
    more := AnyDue(list);
    while k < n && more
      invariant list.Valid() && k <= n && Startable(list.timers, list.due, list.now)
      invariant more <==> DueBy(list.due, list.now) != {}
      invariant more ==> list.Bottom() != [] && list.Bottom()[0] in DueBy(list.due, list.now)
      invariant Stuck(list.timers, list.due, list.now) <==> Stuck(old(list.timers), old(list.due), list.now)
      invariant Stuck(list.timers, list.due, list.now)
             || |DueBy(list.due, list.now)| == |DueBy(old(list.due), list.now)| - k
      decreases n - k
    {
      var t := list.rows[list.levels - 1][0];
      ghost var timers1, due1 := list.timers, list.due;
      PassiveRound(list, t);
      RoundLeft(timers1, due1, list.timers, list.due, list.now, t);
      k := k + 1;
      more := AnyDue(list);
    }
    StuckDue(list.timers, list.due, list.now);
  }

  lemma StuckDue(timers: map<TimerId, Timer>, due: map<TimerId, int>, now: int)
    ensures Stuck(timers, due, now) ==> DueBy(due, now) != {}
  {
    if Stuck(timers, due, now) {
      var x :| Stubborn(timers, due, now, x);
      assert x in DueBy(due, now);
    }
  }

  /** What a round leaves due. */
  lemma RoundLeft(timers: map<TimerId, Timer>, due: map<TimerId, int>, timers': map<TimerId, Timer>,
                  due': map<TimerId, int>, now: int, t: TimerId)
    requires t in timers && t in DueBy(due, now) && Startable(timers, due, now)
    requires var k := timers[t];
             if k.periodic then
               && due' == due[t := now + k.initTick]
               && timers' == timers[t := k.(timeoutTick := due'[t] % TICKS, activated := true)]
             else
               due' == due - {t} && timers' == timers[t := k.(activated := false)]
    ensures Startable(timers', due', now) && (Stuck(timers', due', now) <==> Stuck(timers, due, now))
    ensures !Stuck(timers, due, now) ==> |DueBy(due', now)| == |DueBy(due, now)| - 1
  {
    forall x ensures Stubborn(timers', due', now, x) <==> Stubborn(timers, due, now, x) {
    }
    if !Stuck(timers, due, now) {
      assert !Stubborn(timers, due, now, t);
      assert DueBy(due', now) == DueBy(due, now) - {t};
    }
  }

  // ---------------------------------------------------------------- runs

  /** No listed timer is overdue; one that was started without a period is due already. */
  ghost predicate Fresh(due: map<TimerId, int>, now: int) {
    forall t | t in due :: due[t] >= now
  }

  /** Some callback starts timer `t` or makes it periodic. */
  predicate StartedBy(script: Script, t: TimerId) {
    exists x | x in script ::
      exists i | 0 <= i < |script[x]| :: script[x][i].t == t && (script[x][i].Start? || script[x][i].SetPeriodic?)
  }

  /** Timer `t` may start again during a check. */
  predicate MayRestart(script: Script, timers: map<TimerId, Timer>, t: TimerId) {
    t in timers && ((timers[t].activated && timers[t].periodic) || StartedBy(script, t))
  }

  /** The calls of the callbacks name known timers, and every timer that may start again has a period throughout. */
  predicate TickOk(script: Script, timers: map<TimerId, Timer>) {
    && (forall t | t in timers :: MayRestart(script, timers, t) ==> 0 < timers[t].initTick < HALF)
    && (forall x | x in script :: forall i | 0 <= i < |script[x]| ::
          && script[x][i].t in timers
          && (script[x][i].SetTime? && MayRestart(script, timers, script[x][i].t) ==> 0 < script[x][i].ticks < HALF))
  }

  /** The timers that do not start again during a check. */
  ghost function Slack(script: Script, timers: map<TimerId, Timer>): set<TimerId> {
    set t | t in timers && !MayRestart(script, timers, t)
  }

  lemma TickChecks(script: Script, timers: map<TimerId, Timer>, due: map<TimerId, int>, now: int)
    requires TickOk(script, timers) && Flagged(timers, due.Keys, [])
    ensures Checkable(timers, due, now, script, Slack(script, timers))
  {
    hide MayRestart, StartedBy;
    var slack := Slack(script, timers);
    forall t | t in timers && t in slack && t in due && due[t] <= now ensures !timers[t].periodic {
      assert timers[t].activated;
      if timers[t].periodic {
        ListedRestarts(script, timers, t);
      }
    }
    forall t ensures Callable(Callback(script, t), timers.Keys, slack) {
      forall i | 0 <= i < |Callback(script, t)| && (Callback(script, t)[i].Start?
                                                    || Callback(script, t)[i].SetPeriodic?)
          ensures Callback(script, t)[i].t !in slack {
        CallbackRestarts(script, timers, t, i);
      }
    }
  }

  lemma ListedRestarts(script: Script, timers: map<TimerId, Timer>, t: TimerId)
    requires t in timers && timers[t].activated && timers[t].periodic
    ensures MayRestart(script, timers, t)
  {
  }

  lemma CallbackRestarts(script: Script, timers: map<TimerId, Timer>, x: TimerId, i: nat)
    requires i < |Callback(script, x)| && (Callback(script, x)[i].Start? || Callback(script, x)[i].SetPeriodic?)
    requires Callback(script, x)[i].t in timers
    ensures MayRestart(script, timers, Callback(script, x)[i].t)
  {
  }

  /**
   The tick interrupt: count the tick, then check.  Timers fire exactly at their deadlines, and one
   that was started without a period at the first tick after.
   */
  method OnTick(list: List, script: Script) returns (fired: seq<TimerId>)
    requires list.Valid() && TickOk(script, list.timers) && Fresh(list.due, list.now)
    modifies list
    ensures list.Valid() && list.timers.Keys == old(list.timers.Keys) && list.now == old(list.now) + 1
    ensures forall x | x in list.due :: list.due[x] > list.now
    ensures NoRepeats(fired) && forall x | x in fired :: x in old(list.due) && old(list.due)[x] <= list.now
    ensures forall x | x in old(list.due) && old(list.due)[x] <= list.now && x !in fired :: x in Touched(script, fired)
    ensures Outcome(old(list.timers), old(list.due), list.timers, list.due, list.now, fired, Touched(script, fired))
    ensures Checked(old(Seen(list)).(now := list.now), Seen(list), script, fired)
  {
    hide AllTimely, Flagged, Ordered, Outcome, Expired, Touched, TickOk, Slack, Checkable, Checked;
    list.Tick();
    TickChecks(script, list.timers, list.due, list.now);
    ghost var pend, keep;
    fired, pend, keep := Check(list, script, Slack(script, list.timers));
    FiresWhatIsDue(old(list.rows), old(list.height), old(list.due), list.now, pend, keep, fired,
                   Touched(script, fired));
  }

  datatype Event = Call(c: Command) | TickInterrupt(script: Script)

  /**
   A call names a known timer, and starts one only with a period that rt_timer_start accepts, 0
   included; a tick is one whose check is known to end.
   */
  predicate EventOk(e: Event, timers: map<TimerId, Timer>) {
    match e
    case Call(c) => c.t in timers && (c.Start? ==> timers[c.t].initTick < HALF)
    case TickInterrupt(script) => TickOk(script, timers)
  }

  /** A timer call answers with a status, a tick with the timers it fired. */
  datatype Reply = Status(ok: bool) | Fired(fired: seq<TimerId>)

  type Record = Entry<View, Event, Reply>

  /**
   What a tick fires: of the timers that no callback touched, exactly those whose deadline has come;
   of the others, none early.  Afterwards no listed timer is due, and all timers are as the steps of
   the check leave them.
   */
  ghost predicate Ticked(v: View, v': View, script: Script, fired: seq<TimerId>) {
    && v'.now == v.now + 1 && NoRepeats(fired)
    && (forall x | x in fired :: x in v.due && v.due[x] <= v'.now)
    && (forall x | x in v.due && v.due[x] <= v'.now && x !in Touched(script, fired) :: x in fired)
    && (forall x | x in v'.due :: v'.due[x] > v'.now)
    && Outcome(v.timers, v.due, v'.timers, v'.due, v'.now, fired, Touched(script, fired))
    && Checked(v.(now := v'.now), v', script, fired)
  }

  /** What each event does and answers; no listed timer is overdue before or after it. */
  ghost predicate Happened(e: Record) {
    var v, v' := e.before, e.after;
    && Fresh(v.due, v.now) && Fresh(v'.due, v'.now) && EventOk(e.event, v.timers)
    && match e.event
       case Call(c) =>
         && e.result.Status? && v'.now == v.now
         && Commanded(c, v, v', e.result.ok)
       case TickInterrupt(script) => e.result.Fired? && Ticked(v, v', script, e.result.fired)
  }

  /** The record of a run. */
  ghost predicate History(trace: seq<Record>, first: View, last: View) {
    Joined(trace, first, last) && forall i | 0 <= i < |trace| :: Happened(trace[i])
  }

  /** One event. */
  method Take(list: List, e: Event) returns (reply: Reply)
    requires list.Valid() && Fresh(list.due, list.now) && EventOk(e, list.timers)
    modifies list
    ensures list.Valid() && Fresh(list.due, list.now) && list.timers.Keys == old(list.timers.Keys)
    ensures Happened(Entry(old(Seen(list)), e, reply, Seen(list)))
  {
    hide AllTimely, Flagged, Ordered, Outcome, Touched, TickOk, Commanded, Checked;
    match e
    case Call(c) =>
      var ok := CallOutside(list, c);
      reply := Status(ok);
    case TickInterrupt(script) =>
      var fired := OnTick(list, script);
      reply := Fired(fired);
  }

  /**
   Any run of timer calls and ticks: what each event answered, and the record of what it did.  It
   only stops short of an event that is not one of a kernel that goes on: a call that
   rt_timer_start asserts against, or a tick whose check might not end.
   */
  method Run(list: List, events: seq<Event>) returns (replies: seq<Reply>, ghost trace: seq<Record>)
    requires list.Valid() && Fresh(list.due, list.now)
    modifies list
    ensures list.Valid() && Fresh(list.due, list.now) && |replies| <= |events|
    ensures |replies| < |events| ==> !EventOk(events[|replies|], list.timers)
    ensures Recorded(trace, events[..|replies|], replies) && History(trace, old(Seen(list)), Seen(list))
  {
    hide AllTimely, Flagged, Ordered, Happened, EventOk, Joined;
    replies, trace := [], [];
    JoinedEmpty<View, Event, Reply>(Seen(list));
    var i := 0;
    while i < |events| && EventOk(events[i], list.timers)
      invariant list.Valid() && Fresh(list.due, list.now) && i <= |events|
      invariant Recorded(trace, events[..i], replies) && Joined(trace, old(Seen(list)), Seen(list))
      invariant forall k | 0 <= k < i :: Happened(trace[k])
    {
      ghost var before := Seen(list);
      var reply := Take(list, events[i]);
      ghost var e := Entry(before, events[i], reply, Seen(list));
      JoinedNext(trace, old(Seen(list)), e);
      replies, trace := replies + [reply], trace + [e];
      i := i + 1;
    }
  }

  /** A timer call outside the tick interrupt. */
  method CallOutside(list: List, c: Command) returns (ok: bool)
    requires list.Valid() && Fresh(list.due, list.now)
    requires c.t in list.timers && (c.Start? ==> list.timers[c.t].initTick < HALF)
    modifies list`rows, list`timers, list`randomNr, list`expiring, list`due, list`height
    ensures list.Valid() && Fresh(list.due, list.now) && list.timers.Keys == old(list.timers.Keys)
    ensures Commanded(c, old(Seen(list)), Seen(list), ok)
  {
    hide AllTimely, Flagged, Ordered, Placed;
    ok := true;
    match c {
      case Start(t) => ghost var pos, h := list.Start(t);
      case Stop(t) => ok := list.Stop(t);
      case SetTime(t, ticks) => list.SetTime(t, ticks);
      case SetOneShot(t) => list.SetMode(t, false);
      case SetPeriodic(t) => list.SetMode(t, true);
    }
  }

  // ---------------------------------------------------------------- every deadline is kept

  /** The event makes a call on timer `x`, from outside or in a callback. */
  ghost predicate Touches(e: Record, x: TimerId) {
    match e.event
    case Call(c) => c.t == x
    case TickInterrupt(script) => e.result.Fired? && x in Touched(script, e.result.fired)
  }

  predicate Fires(e: Record, x: TimerId) {
    e.result.Fired? && x in e.result.fired
  }

  /** Timer `x` is armed for deadline `d`. */
  predicate Armed(v: View, x: TimerId, d: int) {
    x in v.timers && x in v.due && v.due[x] == d
  }

  /** One event, for a timer that it makes no call on. */
  lemma Untouched(e: Record, x: TimerId)
    requires Happened(e) && !Touches(e, x) && x in e.before.timers
    ensures x in e.after.timers
    ensures e.after.timers[x].initTick == e.before.timers[x].initTick
            && e.after.timers[x].periodic == e.before.timers[x].periodic
    ensures Fires(e, x) <==> e.event.TickInterrupt? && x in e.before.due && e.before.due[x] <= e.after.now
    ensures !Fires(e, x) ==> (x in e.after.due <==> x in e.before.due) && Due(e.after.due, x) == Due(e.before.due, x)
    ensures Fires(e, x) ==> Rearmed(e.before.timers[x], e.after.timers[x], e.after.due, e.after.now, x)
    ensures x in e.before.due ==> e.before.due[x] >= e.before.now
    ensures x in e.after.due ==> e.after.due[x] >= e.after.now + if e.event.TickInterrupt? then 1 else 0
    ensures e.after.now == e.before.now + if e.event.TickInterrupt? then 1 else 0
  {
    hide Touched, Rearmed;
    if e.event.TickInterrupt? {
      TickUntouched(e.before, e.after, e.event.script, e.result.fired, x);
    }
  }

  lemma TickUntouched(v: View, v': View, script: Script, fired: seq<TimerId>, x: TimerId)
    requires Ticked(v, v', script, fired) && x in v.timers && x !in Touched(script, fired)
    ensures x in v'.timers
    ensures v'.timers[x].initTick == v.timers[x].initTick && v'.timers[x].periodic == v.timers[x].periodic
    ensures x in fired <==> x in v.due && v.due[x] <= v'.now
    ensures x !in fired ==> (x in v'.due <==> x in v.due) && Due(v'.due, x) == Due(v.due, x)
    ensures x in fired ==> Rearmed(v.timers[x], v'.timers[x], v'.due, v'.now, x)
  {
    hide Touched;
  }

  /** A timer that is neither called on nor fires stays armed as it is. */
  lemma {:induction false} StaysArmed(trace: seq<Record>, first: View, last: View, x: TimerId, d: int)
    requires History(trace, first, last) && Armed(first, x, d)
    requires forall k | 0 <= k < |trace| :: !Touches(trace[k], x) && !Fires(trace[k], x)
    ensures Armed(last, x, d) && last.now >= first.now && (last.now > first.now ==> d > last.now)
  {
    hide Happened, Joined, Touches;
    JoinedEnds(trace, first, last);
    if trace != [] {
      var n := |trace| - 1;
      JoinedPrefix(trace, first, last, n);
      StaysArmed(trace[..n], first, trace[n].before, x, d);
      Untouched(trace[n], x);
    }
  }

  /**
   Over a run of timer calls and ticks, an armed timer fires at its deadline to the tick, or at the
   next tick if that is now, unless a call is made on it before.
   */
  lemma {:induction false} DeadlineKept(trace: seq<Record>, first: View, last: View, x: TimerId, d: int)
    requires History(trace, first, last) && Armed(first, x, d) && d >= first.now && last.now >= Max(d, first.now + 1)
    ensures exists k ::
              && 0 <= k < |trace|
              && (Touches(trace[k], x) || (Fires(trace[k], x) && trace[k].after.now == Max(d, first.now + 1)))
              && forall j | 0 <= j < k :: !Touches(trace[j], x) && !Fires(trace[j], x)
  {
    hide Happened, Joined, Touches, Fires;
    if forall k | 0 <= k < |trace| :: !Touches(trace[k], x) && !Fires(trace[k], x) {
      StaysArmed(trace, first, last, x, d);
    } else {
      FirstEvent(trace, x);
      var k :| 0 <= k < |trace| && (Touches(trace[k], x) || Fires(trace[k], x))
          && forall j | 0 <= j < k :: !Touches(trace[j], x) && !Fires(trace[j], x);
      FirstFires(trace, first, last, x, d, k);
    }
  }

  lemma FirstFires(trace: seq<Record>, first: View, last: View, x: TimerId, d: int, k: nat)
    requires History(trace, first, last) && Armed(first, x, d) && d >= first.now && k < |trace|
    requires forall j | 0 <= j < k :: !Touches(trace[j], x) && !Fires(trace[j], x)
    ensures Touches(trace[k], x) || !Fires(trace[k], x) || trace[k].after.now == Max(d, first.now + 1)
  {
    hide Happened, Joined, Touches, Fires;
    JoinedPrefix(trace, first, last, k);
    StaysArmed(trace[..k], first, trace[k].before, x, d);
    if !Touches(trace[k], x) {
      Untouched(trace[k], x);
    }
  }

  lemma {:induction false} FirstEvent(trace: seq<Record>, x: TimerId)
    requires exists k :: 0 <= k < |trace| && (Touches(trace[k], x) || Fires(trace[k], x))
    ensures exists k :: 0 <= k < |trace| && (Touches(trace[k], x) || Fires(trace[k], x))
                        && forall j | 0 <= j < k :: !Touches(trace[j], x) && !Fires(trace[j], x)
  {
    hide Touches;
    var k := 0;
    while !(Touches(trace[k], x) || Fires(trace[k], x))
      invariant 0 <= k < |trace| && forall j | 0 <= j < k :: !Touches(trace[j], x) && !Fires(trace[j], x)
      decreases |trace| - k
    {
      k := k + 1;
    }
  }

  /** The next time of a series of period `p` that meets `d`. */
  ghost predicate OnBeat(v: View, x: TimerId, d: int, p: nat) {
    && x in v.timers && x in v.due && v.timers[x].periodic && v.timers[x].initTick == p && p > 0
    && d <= v.due[x] && (v.due[x] - d) % p == 0
    && v.now < v.due[x] && (v.due[x] == d || v.due[x] - p <= v.now)
  }

  lemma BeatStep(e: Record, x: TimerId, d: int, p: nat)
    requires Happened(e) && OnBeat(e.before, x, d, p) && !Touches(e, x)
    ensures OnBeat(e.after, x, d, p)
    ensures Fires(e, x) <==> e.event.TickInterrupt? && e.after.now >= d && (e.after.now - d) % p == 0
  {
    hide Happened, Touches;
    Untouched(e, x);
    var due, now := e.before.due[x], e.after.now;
    if e.event.TickInterrupt? && now >= d && (now - d) % p == 0 {
      SameBeat(due - d, now - d, p);
      assert due == now;
    }
    if Fires(e, x) {
      NextBeat(due - d, p);
    }
  }

  lemma SameBeat(a: int, b: int, p: int)
    requires p > 0 && a % p == 0 && b % p == 0 && -p < a - b < p
    ensures a == b
  {
    var q, r := a / p, b / p;
    assert a == q * p && b == r * p;
    assert a - b == (q - r) * p;
    Scale(q - r, p);
  }

  lemma NextBeat(a: int, p: int)
    requires p > 0 && a % p == 0
    ensures (a + p) % p == 0
  {
    assert a + p == (a / p + 1) * p;
    MulDiv(a / p + 1, p);
  }

  /**
   A periodic timer that nobody makes a call on fires at its deadline and every
   period after it, to the tick, and at no other time, however long the run.
   */
  lemma {:induction false} PeriodicOnBeat(trace: seq<Record>, first: View, last: View, x: TimerId, d: int, p: nat)
    requires History(trace, first, last) && Armed(first, x, d) && first.timers[x].periodic
             && first.timers[x].initTick == p > 0
    requires d > first.now && forall k | 0 <= k < |trace| :: !Touches(trace[k], x)
    ensures OnBeat(last, x, d, p)
    ensures forall k | 0 <= k < |trace| ::
              Fires(trace[k], x) <==>
                  trace[k].event.TickInterrupt? && trace[k].after.now >= d
                  && (trace[k].after.now - d) % p == 0
  {
    hide Happened, Joined, Touches;
    JoinedEnds(trace, first, last);
    if trace != [] {
      var n := |trace| - 1;
      JoinedPrefix(trace, first, last, n);
      PeriodicOnBeat(trace[..n], first, trace[n].before, x, d, p);
      BeatStep(trace[n], x, d, p);
      assert forall k | 0 <= k < n :: trace[k] == trace[..n][k];
    }
  }

  /** A one-shot timer that has fired does not fire again unless a call is made on it. */
  lemma {:induction false} OneShotOnce(trace: seq<Record>, first: View, last: View, x: TimerId)
    requires History(trace, first, last) && x in first.timers && x !in first.due
    requires forall k | 0 <= k < |trace| :: !Touches(trace[k], x)
    ensures x in last.timers && x !in last.due && forall k | 0 <= k < |trace| :: !Fires(trace[k], x)
  {
    hide Happened, Joined, Touches;
    JoinedEnds(trace, first, last);
    if trace != [] {
      var n := |trace| - 1;
      JoinedPrefix(trace, first, last, n);
      OneShotOnce(trace[..n], first, trace[n].before, x);
      Untouched(trace[n], x);
      assert forall k | 0 <= k < n :: trace[k] == trace[..n][k];
    }
  }
}
