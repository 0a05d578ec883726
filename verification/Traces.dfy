/** Records of whole runs: what every step was, what it answered, and the states around it. */
module Traces {

  datatype Entry<S, E, R> = Entry(before: S, event: E, result: R, after: S)

  /** The entries lead from `first` to `last` without a gap. */
  ghost predicate Joined<S, E, R>(trace: seq<Entry<S, E, R>>, first: S, last: S) {
    if trace == [] then first == last
    else
      && trace[0].before == first && trace[|trace| - 1].after == last
      && (forall i {:trigger trace[i].after} | 0 <= i < |trace| - 1 :: trace[i].after == trace[i + 1].before)
  }

  /** The entries are those of the events `events`, in order, with the answers `results`. */
  ghost predicate Recorded<S, E, R>(trace: seq<Entry<S, E, R>>, events: seq<E>, results: seq<R>) {
    && |trace| == |events| == |results|
    && (forall i | 0 <= i < |trace| :: trace[i].event == events[i] && trace[i].result == results[i])
  }

  lemma JoinedEmpty<S, E, R>(first: S)
    ensures Joined<S, E, R>([], first, first)
  {
  }

  lemma JoinedNext<S, E, R>(trace: seq<Entry<S, E, R>>, first: S, e: Entry<S, E, R>)
    requires Joined(trace, first, e.before)
    ensures Joined(trace + [e], first, e.after)
  {
    var longer := trace + [e];
    forall i | 0 <= i < |longer| - 1 ensures longer[i].after == longer[i + 1].before {
      assert i < |trace| - 1 ==> trace[i].after == trace[i + 1].before;
    }
  }

  lemma JoinedEnds<S, E, R>(trace: seq<Entry<S, E, R>>, first: S, last: S)
    requires Joined(trace, first, last)
    ensures if trace == [] then first == last else trace[0].before == first && trace[|trace| - 1].after == last
  {
  }

  lemma JoinedPrefix<S, E, R>(trace: seq<Entry<S, E, R>>, first: S, last: S, n: nat)
    requires Joined(trace, first, last) && n < |trace|
    ensures Joined(trace[..n], first, trace[n].before)
  {
    assert n > 0 ==> trace[n - 1].after == trace[n].before;
  }

  /** What holds now but did not at first was begun by some step, and held ever since. */
  lemma {:induction false} BegunBy<S, E, R>(trace: seq<Entry<S, E, R>>, first: S, last: S, holds: S -> bool,
                                            begins: Entry<S, E, R> -> bool)
    requires Joined(trace, first, last) && holds(last) && !holds(first)
    requires forall i | 0 <= i < |trace| && holds(trace[i].after) :: holds(trace[i].before) || begins(trace[i])
    ensures exists i :: 0 <= i < |trace| && begins(trace[i]) && forall k | i < k < |trace| :: holds(trace[k].before)
  {
    hide Joined;
    JoinedEnds(trace, first, last);
    var n := |trace| - 1;
    if holds(trace[n].before) {
      JoinedPrefix(trace, first, last, n);
      BegunBy(trace[..n], first, trace[n].before, holds, begins);
      var i :| 0 <= i < n && begins(trace[..n][i]) && forall k | i < k < n :: holds(trace[..n][k].before);
      forall k | i < k < |trace| ensures holds(trace[k].before) {
        assert k < n ==> trace[..n][k] == trace[k];
      }
      assert begins(trace[i]);
    } else {
      assert begins(trace[n]);
    }
  }

  /** The sum of what `f` counts in the entries. */
  function Summed<S, E, R>(trace: seq<Entry<S, E, R>>, f: Entry<S, E, R> -> nat): nat {
    if trace == [] then 0 else Summed(trace[..|trace| - 1], f) + f(trace[|trace| - 1])
  }

  // ---------------------------------------------------------------- what goes in and what comes out

  /** What the entries yield by `f`, in order. */
  function Gathered<S, E, R, T>(trace: seq<Entry<S, E, R>>, f: Entry<S, E, R> -> seq<T>): seq<T> {
    if trace == [] then [] else Gathered(trace[..|trace| - 1], f) + f(trace[|trace| - 1])
  }

  /** If every step appends what comes in and takes what goes out off the front, so does the run. */
  lemma {:induction false} GatheredInOrder<S, E, R, T>(trace: seq<Entry<S, E, R>>, first: S, last: S, held: S -> seq<T>,
                                                       ins: Entry<S, E, R> -> seq<T>, outs: Entry<S, E, R> -> seq<T>)
    requires Joined(trace, first, last)
    requires forall i | 0 <= i < |trace| ::
               held(trace[i].before) + ins(trace[i]) == outs(trace[i]) + held(trace[i].after)
    ensures held(first) + Gathered(trace, ins) == Gathered(trace, outs) + held(last)
  {
    if trace != [] {
      var n := |trace| - 1;
      var e := trace[n];
      JoinedPrefix(trace, first, last, n);
      GatheredInOrder(trace[..n], first, e.before, held, ins, outs);
      InOrder(held(first), held(e.before), held(e.after), Gathered(trace[..n], ins), Gathered(trace[..n], outs), ins(e),
              outs(e));
    }
  }

  lemma InOrder<T>(held0: seq<T>, held1: seq<T>, held2: seq<T>, ins: seq<T>, outs: seq<T>, newIns: seq<T>,
                   newOuts: seq<T>)
    requires held0 + ins == outs + held1 && held1 + newIns == newOuts + held2
    ensures held0 + (ins + newIns) == (outs + newOuts) + held2
  {
    calc {
      held0 + (ins + newIns);
      (held0 + ins) + newIns;
      outs + (held1 + newIns);
      (outs + newOuts) + held2;
    }
  }

  /** What was held and came in is what came out, was lost, or is held. */
  ghost predicate Conserved<T>(held: seq<T>, ins: seq<T>, outs: seq<T>, lost: seq<T>, held': seq<T>) {
    multiset(held + ins) == multiset(outs + lost + held')
  }

  lemma ConservedNext<T>(held0: seq<T>, held1: seq<T>, held2: seq<T>, ins: seq<T>, outs: seq<T>, lost: seq<T>,
                         newIns: seq<T>, newOuts: seq<T>, newLost: seq<T>)
    requires Conserved(held0, ins, outs, lost, held1) && Conserved(held1, newIns, newOuts, newLost, held2)
    ensures Conserved(held0, ins + newIns, outs + newOuts, lost + newLost, held2)
  {
    assert held0 + (ins + newIns) == (held0 + ins) + newIns;
    assert multiset((outs + newOuts) + (lost + newLost) + held2)
        == multiset(outs + lost) + multiset(newOuts + newLost + held2);
  }

  lemma NothingMoved<T>(held: seq<T>)
    ensures Conserved(held, [], [], [], held)
  {
    assert held + [] == [] + [] + held;
  }

  /** A step that appends, prepends, takes off the front or throws away conserves. */
  lemma StepConserved<T>(held: seq<T>, ins: seq<T>, outs: seq<T>, lost: seq<T>, held': seq<T>)
    requires || (lost == [] && held + ins == outs + held')
             || (lost == [] && outs == [] && held' == ins + held)
             || (lost == held && ins == [] && outs == [] && held' == [])
    ensures Conserved(held, ins, outs, lost, held')
  {
    assert outs + [] == outs && [] + lost == lost;
    assert lost == [] ==> outs + lost + held' == outs + held';
    if held' == ins + held {
      assert multiset(held + ins) == multiset(ins + held);
    }
    assert [] + [] + held' == held' && held + [] == held && [] + held + [] == held;
  }

  /** If every step conserves, so does the run. */
  lemma {:induction false} GatheredConserved<S, E, R, T>(trace: seq<Entry<S, E, R>>, first: S, last: S,
                                                         held: S -> seq<T>,
                                                         ins: Entry<S, E, R> -> seq<T>, outs: Entry<S, E, R> -> seq<T>,
                                                         lost: Entry<S, E, R> -> seq<T>)
    requires Joined(trace, first, last)
    requires forall i | 0 <= i < |trace| ::
               Conserved(held(trace[i].before), ins(trace[i]), outs(trace[i]), lost(trace[i]), held(trace[i].after))
    ensures Conserved(held(first), Gathered(trace, ins), Gathered(trace, outs), Gathered(trace, lost), held(last))
  {
    hide Conserved;
    if trace != [] {
      var n := |trace| - 1;
      var e := trace[n];
      JoinedPrefix(trace, first, last, n);
      GatheredConserved(trace[..n], first, e.before, held, ins, outs, lost);
      ConservedNext(held(first), held(e.before), held(e.after), Gathered(trace[..n], ins), Gathered(trace[..n], outs),
                    Gathered(trace[..n], lost), ins(e), outs(e), lost(e));
    } else {
      NothingMoved(held(first));
    }
  }
}
