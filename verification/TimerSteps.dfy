/**
 What a check of the timer list does, step by step, on the timers and their deadlines: each timer
 that fires is taken off the list, its callback makes its calls, and it is re-armed or not.
 */
module TimerSteps {
  import opened TimerRows
  import opened TimerList

  /** rt_timer_start, rt_timer_stop, and the rt_timer_control calls that change a timer. */
  datatype Command =
    | Start(t: TimerId)
    | Stop(t: TimerId)
    | SetTime(t: TimerId, ticks: nat)
    | SetOneShot(t: TimerId)
    | SetPeriodic(t: TimerId)

  type Script = map<TimerId, seq<Command>>

  /** A timer without a script makes no call. */
  function Callback(script: Script, t: TimerId): seq<Command> {
    if t in script then script[t] else []
  }

  /** The timers, the true deadlines of those listed, and the time. */
  datatype View = View(timers: map<TimerId, Timer>, due: map<TimerId, int>, now: int)

  /** A timer leaves the list to run its callback; a callback makes a call; a timer's callback is over. */
  datatype Step = Detached(t: TimerId) | Made(c: Command) | Settled(t: TimerId)

  ghost function Called(v: View, c: Command): View
    requires c.t in v.timers
  {
    var timer := v.timers[c.t];
    match c
    case Start(t) =>
      var d := v.now + timer.initTick;
      v.(due := v.due[t := d], timers := v.timers[t := timer.(timeoutTick := d % TICKS, activated := true)])
    case Stop(t) =>
      if timer.activated then v.(due := v.due - {t}, timers := v.timers[t := timer.(activated := false)]) else v
    case SetTime(t, ticks) => v.(timers := v.timers[t := timer.(initTick := ticks)])
    case SetOneShot(t) => v.(timers := v.timers[t := timer.(periodic := false)])
    case SetPeriodic(t) => v.(timers := v.timers[t := timer.(periodic := true)])
  }

  /** A step on a timer that is not known does nothing. */
  ghost function Stepped(v: View, s: Step): View {
    match s
    case Detached(t) =>
      if t !in v.timers then v
      else v.(due := v.due - {t}, timers := v.timers[t := v.timers[t].(activated := v.timers[t].periodic)])
    case Made(c) => if c.t in v.timers then Called(v, c) else v
    case Settled(t) =>
      if t in v.timers && t !in v.due && v.timers[t].periodic && v.timers[t].activated then Called(v, Start(t)) else v
  }

  /** What is left after some steps. */
  ghost function After(v: View, steps: seq<Step>): (r: View)
    ensures r.now == v.now && r.timers.Keys == v.timers.Keys
  {
    if steps == [] then v else Stepped(After(v, steps[..|steps| - 1]), steps[|steps| - 1])
  }

  ghost function Calls(cmds: seq<Command>): (r: seq<Step>)
    ensures |r| == |cmds| && forall i | 0 <= i < |r| :: r[i] == Made(cmds[i])
  {
    seq(|cmds|, i requires 0 <= i < |cmds| => Made(cmds[i]))
  }

  /** The steps of one round of the loop. */
  ghost function Round(script: Script, t: TimerId): seq<Step> {
    [Detached(t)] + Calls(Callback(script, t)) + [Settled(t)]
  }

  /** The steps of a check that fires `fired`. */
  ghost function Steps(script: Script, fired: seq<TimerId>): seq<Step> {
    if fired == [] then [] else Steps(script, fired[..|fired| - 1]) + Round(script, fired[|fired| - 1])
  }

  lemma StepsNext(script: Script, fired: seq<TimerId>, t: TimerId)
    ensures Steps(script, fired + [t]) == Steps(script, fired) + Round(script, t)
  {
    assert (fired + [t])[..|fired|] == fired;
  }

  /** The first steps of a check are those of the timers that fire first. */
  lemma {:induction false} StepsPrefix(script: Script, fired: seq<TimerId>, i: nat)
    requires i <= |fired|
    ensures Steps(script, fired[..i]) <= Steps(script, fired)
  {
    if i < |fired| {
      var n := |fired| - 1;
      StepsPrefix(script, fired[..n], i);
      assert fired[..n][..i] == fired[..i];
    } else {
      assert fired[..i] == fired;
    }
  }

  /** Where the `j`-th call of the callback of the `i`-th timer stands. */
  ghost function Place(script: Script, fired: seq<TimerId>, i: nat, j: nat): (n: nat)
    requires i < |fired| && j <= |Callback(script, fired[i])|
    ensures n < |Steps(script, fired)|
  {
    RoundPlaced(script, fired, i);
    |Steps(script, fired[..i])| + 1 + j
  }

  /** Every call of every timer that fires is a step, after its timer has left the list and before it settles. */
  lemma CallPlaced(script: Script, fired: seq<TimerId>, i: nat)
    requires i < |fired| && fired[i] in script
    ensures var all, a, b := Steps(script, fired), Place(script, fired, i, 0),
                             Place(script, fired, i, |script[fired[i]]|);
            && 0 < a <= b < |all| && all[a - 1] == Detached(fired[i]) && all[b] == Settled(fired[i])
            && forall j {:trigger script[fired[i]][j]} | 0 <= j < |script[fired[i]]| ::
                 all[a + j] == Made(script[fired[i]][j])
  {
    hide Steps, Calls;
    RoundPlaced(script, fired, i);
    var r := Round(script, fired[i]);
    assert r[0] == Detached(fired[i]) && r[|r| - 1] == Settled(fired[i]);
    forall j {:trigger script[fired[i]][j]} | 0 <= j < |script[fired[i]]|
        ensures Steps(script, fired)[Place(script, fired, i, 0) + j] == Made(script[fired[i]][j]) {
      assert r[1 + j] == Made(script[fired[i]][j]);
    }
  }

  lemma RoundPlaced(script: Script, fired: seq<TimerId>, i: nat)
    requires i < |fired|
    ensures var all, a, r := Steps(script, fired), |Steps(script, fired[..i])|, Round(script, fired[i]);
            a + |r| <= |all| && forall k | 0 <= k < |r| :: all[a + k] == r[k]
  {
    hide Steps, Round;
    StepsPrefix(script, fired, i + 1);
    assert fired[..i + 1] == fired[..i] + [fired[i]];
    StepsNext(script, fired[..i], fired[i]);
  }

  /** Every step belongs to a timer that fires: it is its leaving, its settling or a call of its callback. */
  lemma {:induction false} PlaceOf(script: Script, fired: seq<TimerId>, n: nat) returns (i: nat)
    requires n < |Steps(script, fired)|
    ensures i < |fired| && |Steps(script, fired[..i])| <= n
    ensures match Steps(script, fired)[n]
            case Detached(t) => t == fired[i] && n == |Steps(script, fired[..i])|
            case Settled(t) => t == fired[i]
            case Made(c) =>
              && fired[i] in script && n > |Steps(script, fired[..i])|
              && n - |Steps(script, fired[..i])| - 1 < |script[fired[i]]|
              && script[fired[i]][n - |Steps(script, fired[..i])| - 1] == c
  {
    hide Round, Calls;
    var m := |fired| - 1;
    assert fired == fired[..m] + [fired[m]];
    StepsNext(script, fired[..m], fired[m]);
    hide Steps;
    if n < |Steps(script, fired[..m])| {
      i := PlaceOf(script, fired[..m], n);
      assert fired[..m][..i] == fired[..i];
    } else {
      i := m;
      RoundStep(script, fired[m], n - |Steps(script, fired[..m])|);
    }
  }

  /** The step `k` of a round. */
  lemma RoundStep(script: Script, t: TimerId, k: nat)
    requires k < |Round(script, t)|
    ensures match Round(script, t)[k]
            case Detached(u) => u == t && k == 0
            case Settled(u) => u == t
            case Made(c) => t in script && 0 < k && k - 1 < |script[t]| && script[t][k - 1] == c
  {
  }

  // ---------------------------------------------------------------- what a call leaves

  /** Timer call `c` holds: its timer is as it says.  A started timer has the deadline `d`. */
  ghost predicate Holds(v: View, c: Command, d: int) {
    c.t in v.timers
    && match c
       case Start(t) => v.timers[t].activated && t in v.due && v.due[t] == d
       case Stop(t) => !v.timers[t].activated && t !in v.due
       case SetTime(t, ticks) => v.timers[t].initTick == ticks
       case SetOneShot(t) => !v.timers[t].periodic
       case SetPeriodic(t) => v.timers[t].periodic
  }

  /** Call `c'` may undo what call `c` says. */
  predicate Undoes(c': Command, c: Command) {
    match c
    case Start(t) => c' == Start(t) || c' == Stop(t)
    case Stop(t) => c' == Start(t)
    case SetTime(t, _) => c'.SetTime? && c'.t == t
    case SetOneShot(t) => c' == SetPeriodic(t)
    case SetPeriodic(t) => c' == SetOneShot(t)
  }

  /** Timer `t` is one of those with the earliest deadline, and that has come. */
  ghost predicate InTurn(v: View, t: TimerId) {
    && t in v.timers && t in v.due && v.due[t] <= v.now
    && forall x | x in v.due :: v.due[t] <= v.due[x]
  }

  /** A timer leaves the list only when it is its turn. */
  ghost predicate EachInTurn(v: View, steps: seq<Step>) {
    forall n | 0 <= n < |steps| && steps[n].Detached? :: InTurn(After(v, steps[..n]), steps[n].t)
  }

  lemma RoundInTurn(v: View, script: Script, fired: seq<TimerId>, t: TimerId)
    requires EachInTurn(v, Steps(script, fired)) && InTurn(After(v, Steps(script, fired)), t)
    ensures EachInTurn(v, Steps(script, fired + [t]))
    ensures After(v, Steps(script, fired + [t])) == After(After(v, Steps(script, fired)), Round(script, t))
  {
    hide InTurn, After, Steps, Round, Calls;
    var steps, r := Steps(script, fired), Round(script, t);
    StepsNext(script, fired, t);
    AfterAppend(v, steps, r);
    RoundSteps(script, t);
    forall n | 0 <= n < |steps + r| && (steps + r)[n].Detached?
        ensures InTurn(After(v, (steps + r)[..n]), (steps + r)[n].t) {
      if n < |steps| {
        assert (steps + r)[..n] == steps[..n] && (steps + r)[n] == steps[n];
      } else {
        assert (steps + r)[n] == r[n - |steps|];
        assert (steps + r)[..n] == steps;
      }
    }
  }

  /** A check that fires `fired` takes `v` to `v'`. */
  ghost predicate Checked(v: View, v': View, script: Script, fired: seq<TimerId>) {
    && v' == After(v, Steps(script, fired)) && EachInTurn(v, Steps(script, fired))
    && Listed(v) && (forall x | x in v'.due :: v'.due[x] > v'.now)
  }

  lemma StepKeeps(v: View, s: Step, c: Command, d: int)
    requires Holds(v, c, d) && (s.Detached? ==> InTurn(v, s.t))
    requires c.Start? && d <= v.now ==> s != Detached(c.t)
    requires s.Made? ==> !Undoes(s.c, c)
    ensures Holds(Stepped(v, s), c, d) && Stepped(v, s).now == v.now
  {
  }

  /**
   What holds before step `m` holds before step `n` if no call in between may undo it.  A listed
   timer that is due must not fire either.
   */
  lemma {:induction false} KeptTo(v: View, steps: seq<Step>, m: nat, n: nat, c: Command, d: int)
    requires m <= n <= |steps| && EachInTurn(v, steps)
    requires Holds(After(v, steps[..m]), c, d)
    requires c.Start? && d <= v.now ==> forall q | m <= q < n :: steps[q] != Detached(c.t)
    requires forall q | m <= q < n && steps[q].Made? :: !Undoes(steps[q].c, c)
    ensures Holds(After(v, steps[..n]), c, d)
  {
    hide Holds, Undoes, InTurn, Stepped;
    if m < n {
      KeptTo(v, steps, m, n - 1, c, d);
      AfterNext(v, steps, n - 1);
      StepKeeps(After(v, steps[..n - 1]), steps[n - 1], c, d);
    }
  }

  lemma AfterNext(v: View, steps: seq<Step>, n: nat)
    requires n < |steps|
    ensures After(v, steps[..n + 1]) == Stepped(After(v, steps[..n]), steps[n])
  {
    assert steps[..n + 1][..n] == steps[..n];
  }

  lemma {:induction false} AfterAppend(v: View, a: seq<Step>, b: seq<Step>)
    ensures After(v, a + b) == After(After(v, a), b)
  {
    if b == [] {
      assert a + b == a;
    } else {
      AfterAppend(v, a, b[..|b| - 1]);
      assert (a + b)[..|a + b| - 1] == a + b[..|b| - 1];
    }
  }

  /** Every listed timer is flagged as activated. */
  ghost predicate Listed(v: View) {
    forall x | x in v.due :: x in v.timers && v.timers[x].activated
  }

  lemma {:induction false} AfterListed(v: View, steps: seq<Step>)
    requires Listed(v)
    ensures Listed(After(v, steps))
  {
    if steps != [] {
      AfterListed(v, steps[..|steps| - 1]);
    }
  }

  lemma CallMade(v: View, c: Command, d: int)
    requires c.t in v.timers && Listed(v)
    requires c.Start? ==> d == v.now + v.timers[c.t].initTick
    ensures Holds(Called(v, c), c, d)
  {
  }

  /** A call holds once it was made, as long as nothing undoes it. */
  lemma CallHolds(v: View, steps: seq<Step>, n: nat, m: nat, c: Command, d: int)
    requires Listed(v) && n < m <= |steps| && EachInTurn(v, steps) && steps[n] == Made(c) && c.t in v.timers
    requires c.Start? ==> d > v.now && d == v.now + After(v, steps[..n]).timers[c.t].initTick
    requires forall q | n < q < m && steps[q].Made? :: !Undoes(steps[q].c, c)
    ensures Holds(After(v, steps[..m]), c, d)
  {
    hide After, Holds, Undoes, EachInTurn, Called;
    AfterListed(v, steps[..n]);
    AfterNext(v, steps, n);
    CallMade(After(v, steps[..n]), c, d);
    KeptTo(v, steps, n + 1, m, c, d);
  }

  /** The call that step `q` is. */
  lemma CallAt(script: Script, fired: seq<TimerId>, q: nat) returns (k: nat, l: nat)
    requires q < |Steps(script, fired)| && Steps(script, fired)[q].Made?
    ensures k < |fired| && fired[k] in script && l < |script[fired[k]]|
    ensures script[fired[k]][l] == Steps(script, fired)[q].c && Place(script, fired, k, l) == q
  {
    k := PlaceOf(script, fired, q);
    l := q - |Steps(script, fired[..k])| - 1;
  }

  /** The steps are in the order of the timers that fire, and of the calls of each callback. */
  lemma PlacesOrdered(script: Script, fired: seq<TimerId>, i: nat, j: nat, k: nat, l: nat)
    requires i < |fired| && fired[i] in script && j < |script[fired[i]]|
    requires k < |fired| && fired[k] in script && l < |script[fired[k]]|
    ensures Place(script, fired, i, j) < Place(script, fired, k, l) <==> i < k || (i == k && j < l)
  {
    hide Steps;
    if i < k {
      LaterRound(script, fired, i, k);
    } else if k < i {
      LaterRound(script, fired, k, i);
    }
  }

  // ---------------------------------------------------------------- the last call on a timer stands

  /**
   The `j`-th call of the callback of the `i`-th timer that fires holds at the end of the check, and whenever a later
   timer fires, if no call after it undoes it.
   */
  lemma LastCall(v: View, v': View, script: Script, fired: seq<TimerId>, i: nat, j: nat, d: int)
    requires Checked(v, v', script, fired) && i < |fired| && fired[i] in script && j < |script[fired[i]]|
    requires var c := script[fired[i]][j];
             && c.t in v.timers
             && (forall k, l |
                   i <= k < |fired| && fired[k] in script && 0 <= l < |script[fired[k]]| && (k == i ==> l > j)
                   :: !Undoes(script[fired[k]][l], c))
             && (c.Start? ==>
                   d > v.now
                   && d == v.now + After(v, Steps(script, fired)[..Place(script, fired, i, j)]).timers[c.t].initTick)
    ensures Holds(v', script[fired[i]][j], d)
    ensures script[fired[i]][j].Start? || script[fired[i]][j].Stop? ==> script[fired[i]][j].t !in fired[i + 1..]
  {
    hide Steps, After, Holds, Undoes, EachInTurn, InTurn;
    var c, steps, n := script[fired[i]][j], Steps(script, fired), Place(script, fired, i, j);
    CallPlaced(script, fired, i);
    forall q | n < q < |steps| && steps[q].Made? ensures !Undoes(steps[q].c, c) {
      var k, l := CallAt(script, fired, q);
      PlacesOrdered(script, fired, i, j, k, l);
    }
    CallHolds(v, steps, n, |steps|, c, d);
    assert steps[..|steps|] == steps;
    if (c.Start? || c.Stop?) && c.t in fired[i + 1..] {
      var k :| i + 1 <= k < |fired| && fired[k] == c.t;
      var q := |Steps(script, fired[..k])|;
      RoundPlaced(script, fired, k);
      LaterRound(script, fired, i, k);
      CallHolds(v, steps, n, q, c, d);
      FiresListed(v, steps, q, c, d);
    }
  }

  lemma LaterRound(script: Script, fired: seq<TimerId>, i: nat, k: nat)
    requires i < k < |fired|
    ensures |Steps(script, fired[..k])| >= |Steps(script, fired[..i])| + |Round(script, fired[i])|
    ensures |Round(script, fired[k])| >= 1 && Round(script, fired[k])[0] == Detached(fired[k])
  {
    hide Steps;
    StepsPrefix(script, fired[..k], i + 1);
    assert fired[..k][..i + 1] == fired[..i] + [fired[i]];
    StepsNext(script, fired[..i], fired[i]);
  }

  /** A timer that is off does not fire, nor one whose deadline is ahead. */
  lemma FiresListed(v: View, steps: seq<Step>, q: nat, c: Command, d: int)
    requires EachInTurn(v, steps) && q < |steps| && steps[q] == Detached(c.t) && (c.Stop? || (c.Start? && d > v.now))
    ensures !Holds(After(v, steps[..q]), c, d)
  {
  }

  /**
   A timer that the callback of an earlier one stops, and no later call starts, does not fire
   after that and ends up in no list.
   */
  lemma StoppedStaysOff(v: View, v': View, script: Script, fired: seq<TimerId>, i: nat, j: nat, x: TimerId)
    requires Checked(v, v', script, fired) && x in v.timers
    requires i < |fired| && fired[i] in script && j < |script[fired[i]]| && script[fired[i]][j] == Stop(x)
    requires forall k, l | i <= k < |fired| && fired[k] in script && 0 <= l < |script[fired[k]]| && (k == i ==> l > j)
               :: script[fired[k]][l] != Start(x)
    ensures x !in fired[i + 1..] && x !in v'.due && !v'.timers[x].activated
  {
    hide Steps, After, EachInTurn;
    LastCall(v, v', script, fired, i, j, 0);
  }

  /** A period that a callback gives stays if no later call gives another; so does a mode. */
  lemma SettingStands(v: View, v': View, script: Script, fired: seq<TimerId>, i: nat, j: nat, x: TimerId, p: nat)
    requires Checked(v, v', script, fired) && x in v.timers
    requires i < |fired| && fired[i] in script && j < |script[fired[i]]|
    ensures
      && script[fired[i]][j] == SetTime(x, p)
      && (forall k, l | i <= k < |fired| && fired[k] in script && 0 <= l < |script[fired[k]]| && (k == i ==> l > j)
            :: !script[fired[k]][l].SetTime? || script[fired[k]][l].t != x)
      ==> v'.timers[x].initTick == p
    ensures
      && script[fired[i]][j] == SetOneShot(x)
      && (forall k, l | i <= k < |fired| && fired[k] in script && 0 <= l < |script[fired[k]]| && (k == i ==> l > j)
            :: script[fired[k]][l] != SetPeriodic(x))
      ==> !v'.timers[x].periodic
    ensures
      && script[fired[i]][j] == SetPeriodic(x)
      && (forall k, l | i <= k < |fired| && fired[k] in script && 0 <= l < |script[fired[k]]| && (k == i ==> l > j)
            :: script[fired[k]][l] != SetOneShot(x))
      ==> v'.timers[x].periodic
  {
    hide Steps, After, EachInTurn;
    var c := script[fired[i]][j];
    if c.t == x && !c.Start? && !c.Stop?
       && forall k, l | i <= k < |fired| && fired[k] in script && 0 <= l < |script[fired[k]]| && (k == i ==> l > j)
            :: !Undoes(script[fired[k]][l], c) {
      LastCall(v, v', script, fired, i, j, 0);
    }
  }

  /**
   A timer that a callback starts, and no later call starts or stops, does not fire after that and is
   listed with a full period from now: the one the last call before gave it, or that it had.
   */
  lemma StartedStands(v: View, v': View, script: Script, fired: seq<TimerId>, i: nat, j: nat, x: TimerId, p: nat)
    requires Checked(v, v', script, fired) && x in v.timers && p > 0
    requires i < |fired| && fired[i] in script && j < |script[fired[i]]| && script[fired[i]][j] == Start(x)
    requires forall k, l | i <= k < |fired| && fired[k] in script && 0 <= l < |script[fired[k]]| && (k == i ==> l > j)
               :: script[fired[k]][l] != Start(x) && script[fired[k]][l] != Stop(x)
    requires
      || (p == v.timers[x].initTick
          && forall k, l | 0 <= k <= i && fired[k] in script && 0 <= l < |script[fired[k]]| && (k == i ==> l < j)
               :: !script[fired[k]][l].SetTime? || script[fired[k]][l].t != x)
      || (exists k0, l0 ::
            && 0 <= k0 <= i && fired[k0] in script && 0 <= l0 < |script[fired[k0]]| && (k0 == i ==> l0 < j)
            && script[fired[k0]][l0] == SetTime(x, p)
            && forall k, l | k0 <= k <= i && fired[k] in script && 0 <= l < |script[fired[k]]|
                             && (k == k0 ==> l > l0) && (k == i ==> l < j)
                 :: !script[fired[k]][l].SetTime? || script[fired[k]][l].t != x)
    ensures x !in fired[i + 1..] && v'.timers[x].activated && x in v'.due && v'.due[x] == v.now + p
  {
    hide Steps, After, EachInTurn;
    var n := Place(script, fired, i, j);
    if p == v.timers[x].initTick
       && forall k, l | 0 <= k <= i && fired[k] in script && 0 <= l < |script[fired[k]]| && (k == i ==> l < j)
            :: !script[fired[k]][l].SetTime? || script[fired[k]][l].t != x {
      PeriodUnset(v, script, fired, i, j, x);
    } else {
      var k0, l0 :|
            && 0 <= k0 <= i && fired[k0] in script && 0 <= l0 < |script[fired[k0]]| && (k0 == i ==> l0 < j)
            && script[fired[k0]][l0] == SetTime(x, p)
            && forall k, l | k0 <= k <= i && fired[k] in script && 0 <= l < |script[fired[k]]|
                             && (k == k0 ==> l > l0) && (k == i ==> l < j)
                 :: !script[fired[k]][l].SetTime? || script[fired[k]][l].t != x;
      PeriodSet(v, script, fired, i, j, x, k0, l0);
    }
    assert After(v, Steps(script, fired)[..n]).timers[x].initTick == p;
    LastCall(v, v', script, fired, i, j, v.now + p);
  }

  lemma PeriodUnset(v: View, script: Script, fired: seq<TimerId>, i: nat, j: nat, x: TimerId)
    requires Listed(v) && EachInTurn(v, Steps(script, fired)) && x in v.timers
    requires i < |fired| && fired[i] in script && j < |script[fired[i]]|
    requires forall k, l | 0 <= k <= i && fired[k] in script && 0 <= l < |script[fired[k]]| && (k == i ==> l < j)
               :: !script[fired[k]][l].SetTime? || script[fired[k]][l].t != x
    ensures After(v, Steps(script, fired)[..Place(script, fired, i, j)]).timers[x].initTick == v.timers[x].initTick
  {
    hide Steps, EachInTurn;
    var steps, n, c := Steps(script, fired), Place(script, fired, i, j), SetTime(x, v.timers[x].initTick);
    forall q | 0 <= q < n && steps[q].Made? ensures !Undoes(steps[q].c, c) {
      var k, l := CallAt(script, fired, q);
      PlacesOrdered(script, fired, k, l, i, j);
    }
    KeptTo(v, steps, 0, n, c, 0);
  }

  lemma PeriodSet(v: View, script: Script, fired: seq<TimerId>, i: nat, j: nat, x: TimerId, k0: nat, l0: nat)
    requires Listed(v) && EachInTurn(v, Steps(script, fired)) && x in v.timers
    requires i < |fired| && fired[i] in script && j < |script[fired[i]]|
    requires k0 <= i && fired[k0] in script && l0 < |script[fired[k0]]| && (k0 == i ==> l0 < j)
    requires script[fired[k0]][l0].SetTime? && script[fired[k0]][l0].t == x
    requires forall k, l | k0 <= k <= i && fired[k] in script && 0 <= l < |script[fired[k]]|
                           && (k == k0 ==> l > l0) && (k == i ==> l < j)
               :: !script[fired[k]][l].SetTime? || script[fired[k]][l].t != x
    ensures After(v, Steps(script, fired)[..Place(script, fired, i, j)]).timers[x].initTick
         == script[fired[k0]][l0].ticks
  {
    hide Steps, EachInTurn, After;
    var steps, m, n := Steps(script, fired), Place(script, fired, k0, l0), Place(script, fired, i, j);
    var c := script[fired[k0]][l0];
    CallPlaced(script, fired, k0);
    PlacesOrdered(script, fired, k0, l0, i, j);
    forall q | m < q < n && steps[q].Made? ensures !Undoes(steps[q].c, c) {
      var k, l := CallAt(script, fired, q);
      PlacesOrdered(script, fired, k, l, i, j);
      PlacesOrdered(script, fired, k0, l0, k, l);
    }
    CallHolds(v, steps, m, n, c, 0);
  }

  /** Every due timer fires unless some callback starts or stops it, even one whose period or mode is changed. */
  lemma DueFires(v: View, v': View, script: Script, fired: seq<TimerId>, x: TimerId)
    requires Checked(v, v', script, fired) && x in v.timers && x in v.due && v.due[x] <= v.now
    requires forall k, l | 0 <= k < |fired| && fired[k] in script && 0 <= l < |script[fired[k]]|
               :: script[fired[k]][l] != Start(x) && script[fired[k]][l] != Stop(x)
    ensures x in fired
  {
    hide Steps, EachInTurn;
    var steps, c := Steps(script, fired), Start(x);
    assert steps[..|steps|] == steps;
    if x !in fired {
      forall q | 0 <= q < |steps|
          ensures (steps[q].Made? ==> !Undoes(steps[q].c, c)) && steps[q] != Detached(x) {
        var k := PlaceOf(script, fired, q);
      }
      KeptTo(v, steps, 0, |steps|, c, v.due[x]);
    }
  }

  /** A timer whose callback runs is off the list. */
  ghost predicate Parked(v: View, x: TimerId, activated: bool) {
    x in v.timers && x !in v.due && v.timers[x].activated == activated
  }

  lemma ParkedKeeps(v: View, s: Step, x: TimerId, activated: bool)
    requires Parked(v, x, activated) && s.Made? && s.c != Start(x) && s.c != Stop(x)
    ensures Parked(Stepped(v, s), x, activated)
  {
  }

  lemma {:induction false} ParkedTo(v: View, steps: seq<Step>, m: nat, n: nat, x: TimerId, activated: bool)
    requires m <= n <= |steps| && Parked(After(v, steps[..m]), x, activated)
    requires forall q | m <= q < n :: steps[q].Made? && steps[q].c != Start(x) && steps[q].c != Stop(x)
    ensures Parked(After(v, steps[..n]), x, activated)
  {
    hide Parked, Stepped;
    if m < n {
      ParkedTo(v, steps, m, n - 1, x, activated);
      AfterNext(v, steps, n - 1);
      ParkedKeeps(After(v, steps[..n - 1]), steps[n - 1], x, activated);
    }
  }

  /** The mode of a timer that no call up to its own callback changes. */
  lemma ModeAt(v: View, script: Script, fired: seq<TimerId>, x: TimerId, n: nat)
    requires EachInTurn(v, Steps(script, fired)) && x in v.timers && n <= |Steps(script, fired)|
    requires forall q | 0 <= q < n && Steps(script, fired)[q].Made? ::
               Steps(script, fired)[q].c != SetOneShot(x) && Steps(script, fired)[q].c != SetPeriodic(x)
    ensures After(v, Steps(script, fired)[..n]).timers[x].periodic == v.timers[x].periodic
  {
    hide Steps, EachInTurn;
    KeptTo(v, Steps(script, fired), 0, n, if v.timers[x].periodic then SetPeriodic(x) else SetOneShot(x), 0);
  }

  /** A timer leaves the list, is parked while its callback leaves it alone, and then settles. */
  lemma SettlesAs(v: View, steps: seq<Step>, a: nat, b: nat, x: TimerId)
    requires a < b < |steps| && steps[a] == Detached(x) && steps[b] == Settled(x) && x in v.timers
    requires forall q | a < q < b :: steps[q].Made? && steps[q].c != Start(x) && steps[q].c != Stop(x)
    requires After(v, steps[..a]).timers[x].periodic == After(v, steps[..b]).timers[x].periodic
    ensures var w, t := After(v, steps[..b + 1]), After(v, steps[..b]).timers[x];
            && w.timers[x].initTick == t.initTick
            && if t.periodic then Holds(w, Start(x), v.now + t.initTick) else Holds(w, Stop(x), 0)
  {
    hide After, Steps;
    AfterNext(v, steps, a);
    ParkedTo(v, steps, a + 1, b, x, After(v, steps[..a]).timers[x].periodic);
    AfterNext(v, steps, b);
  }

  /**
   A timer that fires, and that neither its callback nor a later one starts or stops, ends up as its mode says: one-shot
   in no list, periodic listed for a full period from now, the one its callback left it.
   */
  lemma FiredSettles(v: View, v': View, script: Script, fired: seq<TimerId>, i: nat, x: TimerId)
    requires Checked(v, v', script, fired) && x in v.timers && i < |fired| && fired[i] == x
    requires forall k, l | i <= k < |fired| && fired[k] in script && 0 <= l < |script[fired[k]]|
               :: script[fired[k]][l] != Start(x) && script[fired[k]][l] != Stop(x)
    requires forall k, l | 0 <= k <= i && fired[k] in script && 0 <= l < |script[fired[k]]|
               :: script[fired[k]][l] != SetOneShot(x) && script[fired[k]][l] != SetPeriodic(x)
    requires forall k, l | i < k < |fired| && fired[k] in script && 0 <= l < |script[fired[k]]|
               :: !script[fired[k]][l].SetTime? || script[fired[k]][l].t != x
    requires v'.timers[x].initTick > 0
    ensures if v.timers[x].periodic
            then v'.timers[x].activated && x in v'.due && v'.due[x] == v.now + v'.timers[x].initTick
            else !v'.timers[x].activated && x !in v'.due
  {
    hide Steps, After, EachInTurn, Undoes;
    var steps, r := Steps(script, fired), Round(script, x);
    var a, b := |Steps(script, fired[..i])|, |Steps(script, fired[..i])| + |Round(script, x)| - 1;
    RoundPlaced(script, fired, i);
    RoundSteps(script, x);
    forall q | 0 <= q < |steps| && steps[q].Made?
        ensures q < b ==> steps[q].c != SetOneShot(x) && steps[q].c != SetPeriodic(x)
        ensures q > a ==> steps[q].c != Start(x) && steps[q].c != Stop(x)
        ensures q > b ==> !steps[q].c.SetTime? || steps[q].c.t != x {
      var k, l := CallAt(script, fired, q);
      if k < i {
        LaterRound(script, fired, k, i);
      } else if i < k {
        LaterRound(script, fired, i, k);
      }
    }
    forall q | a < q < b ensures steps[q].Made? {
      assert steps[a + (q - a)] == r[q - a];
    }
    assert steps[a + 0] == r[0] && steps[a + (|r| - 1)] == r[|r| - 1];
    ModeAt(v, script, fired, x, a);
    ModeAt(v, script, fired, x, b);
    SettlesAs(v, steps, a, b, x);
    SettledStands(v, steps, b + 1, x);
    assert steps[..|steps|] == steps;
  }

  lemma RoundSteps(script: Script, t: TimerId)
    ensures var r := Round(script, t);
            && |r| >= 2 && r[0] == Detached(t) && r[|r| - 1] == Settled(t)
            && forall k | 0 < k < |r| - 1 :: r[k].Made?
  {
  }

  /** What a timer settled as stands if no later call starts or stops it or gives it a period. */
  lemma SettledStands(v: View, steps: seq<Step>, n: nat, x: TimerId)
    requires n <= |steps| && EachInTurn(v, steps) && x in v.timers
    requires forall q | n <= q < |steps| && steps[q].Made? ::
               steps[q].c != Start(x) && steps[q].c != Stop(x) && (!steps[q].c.SetTime? || steps[q].c.t != x)
    requires After(v, steps).timers[x].initTick > 0
    ensures var w, w' := After(v, steps[..n]), After(v, steps);
            && w'.timers[x].initTick == w.timers[x].initTick
            && (Holds(w, Stop(x), 0) ==> Holds(w', Stop(x), 0))
            && (Holds(w, Start(x), v.now + w.timers[x].initTick) ==> Holds(w', Start(x), v.now + w.timers[x].initTick))
  {
    hide After, EachInTurn;
    assert steps[..|steps|] == steps;
    var w := After(v, steps[..n]);
    var p := w.timers[x].initTick;
    KeptTo(v, steps, n, |steps|, SetTime(x, p), 0);
    if Holds(w, Stop(x), 0) {
      KeptTo(v, steps, n, |steps|, Stop(x), 0);
    }
    if Holds(w, Start(x), v.now + p) {
      KeptTo(v, steps, n, |steps|, Start(x), v.now + p);
    }
  }
}
