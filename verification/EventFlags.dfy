/** Event objects of ipc.c: 32 flags, and threads that wait for all or any of some of them. */
module EventFlags {
  import opened Sequences
  import opened WaitList

  /** The numbers of the flags that are set in a 32-bit event set. */
  type Flags = set<nat>

  /** What a thread asks for: its flags and its option bits. */
  datatype Want = Want(bits: Flags, andFlag: bool, orFlag: bool, clear: bool)

  /** A resumed thread and the flags it received. */
  datatype Wake = Wake(t: ThreadId, bits: Flags)

  datatype Outcome = Pending | Ok(bits: Flags) | Failed | TimedOut

  predicate Satisfied(w: Want, flags: Flags) {
    if w.andFlag then w.bits <= flags else w.orFlag && w.bits * flags != {}
  }

  function Received(w: Want, flags: Flags): Flags {
    if w.andFlag then w.bits else w.bits * flags
  }

  /** The flags left once a waiter that wants `w` was looked at. */
  function After(w: Want, flags: Flags): Flags {
    if Satisfied(w, flags) && w.clear then flags - Received(w, flags) else flags
  }

  ghost predicate Wanted(waiters: seq<ThreadId>, want: map<ThreadId, Want>) {
    forall i | 0 <= i < |waiters| :: waiters[i] in want
  }

  // One pass over the list: the threads still waiting, those resumed, and the flags left.

  ghost function StillWaiting(waiters: seq<ThreadId>, want: map<ThreadId, Want>, flags: Flags): seq<ThreadId>
    requires Wanted(waiters, want)
  {
    if waiters == [] then []
    else
      var w := want[waiters[0]];
      (if Satisfied(w, flags) then [] else [waiters[0]]) + StillWaiting(waiters[1..], want, After(w, flags))
  }

  ghost function Resumed(waiters: seq<ThreadId>, want: map<ThreadId, Want>, flags: Flags): seq<Wake>
    requires Wanted(waiters, want)
  {
    if waiters == [] then []
    else
      var w := want[waiters[0]];
      (if Satisfied(w, flags) then [Wake(waiters[0], Received(w, flags))] else [])
      + Resumed(waiters[1..], want, After(w, flags))
  }

  ghost function FlagsLeft(waiters: seq<ThreadId>, want: map<ThreadId, Want>, flags: Flags): Flags
    requires Wanted(waiters, want)
  {
    if waiters == [] then flags else FlagsLeft(waiters[1..], want, After(want[waiters[0]], flags))
  }

  // ---------------------------------------------------------------- one pass suffices

  /** Fewer flags satisfy nobody new. */
  lemma FewerFlags(w: Want, fewer: Flags, flags: Flags)
    requires fewer <= flags && Satisfied(w, fewer)
    ensures Satisfied(w, flags)
  {
  }

  lemma {:induction false} FlagsShrink(waiters: seq<ThreadId>, want: map<ThreadId, Want>, flags: Flags)
    requires Wanted(waiters, want)
    ensures FlagsLeft(waiters, want, flags) <= flags
  {
    if waiters != [] {
      FlagsShrink(waiters[1..], want, After(want[waiters[0]], flags));
    }
  }

  /** Nobody in `left` is satisfied by `flags`. */
  ghost predicate NoneSatisfied(left: seq<ThreadId>, want: map<ThreadId, Want>, flags: Flags) {
    forall i | 0 <= i < |left| :: left[i] in want && !Satisfied(want[left[i]], flags)
  }

  /** Nobody left waiting is satisfied by the flags left, though resumed threads cleared some on the way. */
  lemma {:induction false} OnePassSuffices(waiters: seq<ThreadId>, want: map<ThreadId, Want>, flags: Flags)
    requires Wanted(waiters, want)
    ensures NoneSatisfied(StillWaiting(waiters, want, flags), want, FlagsLeft(waiters, want, flags))
  {
    if waiters != [] {
      var w := want[waiters[0]];
      OnePassSuffices(waiters[1..], want, After(w, flags));
      if !Satisfied(w, flags) {
        FlagsShrink(waiters[1..], want, flags);
        if Satisfied(w, FlagsLeft(waiters, want, flags)) {
          FewerFlags(w, FlagsLeft(waiters, want, flags), flags);
        }
      }
    }
  }

  /** A member of `waiters` is in `left` or has one entry in `woken`, and not both. */
  ghost predicate Split(waiters: seq<ThreadId>, left: seq<ThreadId>, woken: seq<Wake>) {
    && NoRepeats(left) && |left| + |woken| == |waiters|
    && (forall t | t in left :: t in waiters)
    && (forall i | 0 <= i < |woken| :: woken[i].t in waiters && woken[i].t !in left)
  }

  lemma SplitWake(waiters: seq<ThreadId>, left: seq<ThreadId>, woken: seq<Wake>, bits: Flags)
    requires NoRepeats(waiters) && waiters != [] && Split(waiters[1..], left, woken)
    ensures Split(waiters, left, [Wake(waiters[0], bits)] + woken)
  {
    hide NoRepeats;
    HeadRemoved(waiters);
    var woken' := [Wake(waiters[0], bits)] + woken;
    forall i | 0 <= i < |woken'| ensures woken'[i].t in waiters && woken'[i].t !in left {
      assert i > 0 ==> woken'[i] == woken[i - 1];
    }
  }

  lemma SplitKeep(waiters: seq<ThreadId>, left: seq<ThreadId>, woken: seq<Wake>)
    requires NoRepeats(waiters) && waiters != [] && Split(waiters[1..], left, woken)
    ensures Split(waiters, [waiters[0]] + left, woken)
  {
    hide NoRepeats;
    HeadRemoved(waiters);
    assert [waiters[0]] + left == left[..0] + [waiters[0]] + left[0..];
    InsertedMembers(left, [waiters[0]] + left, waiters[0], 0);
  }

  /** The pass splits the list: each thread is resumed or still waits. */
  lemma {:induction false} PassSplits(waiters: seq<ThreadId>, want: map<ThreadId, Want>, flags: Flags)
    requires Wanted(waiters, want) && NoRepeats(waiters)
    ensures Split(waiters, StillWaiting(waiters, want, flags), Resumed(waiters, want, flags))
  {
    if waiters != [] {
      hide Satisfied, After, Received, Split;
      HeadRemoved(waiters);
      var w := want[waiters[0]];
      PassSplits(waiters[1..], want, After(w, flags));
      var left := StillWaiting(waiters[1..], want, After(w, flags));
      var woken := Resumed(waiters[1..], want, After(w, flags));
      Unfold(waiters, want, flags);
      if Satisfied(w, flags) {
        SplitWake(waiters, left, woken, Received(w, flags));
      } else {
        SplitKeep(waiters, left, woken);
      }
    }
  }

  /** A resumed thread gets all its flags, or those of them that are set, at least one. */
  ghost predicate Fair(wake: Wake, want: map<ThreadId, Want>, flags: Flags) {
    && wake.t in want && wake.bits <= flags && wake.bits <= want[wake.t].bits
    && (if want[wake.t].andFlag then wake.bits == want[wake.t].bits else wake.bits != {})
  }

  lemma {:induction false} ReceivedFairly(waiters: seq<ThreadId>, want: map<ThreadId, Want>, flags: Flags)
    requires Wanted(waiters, want)
    ensures forall i | 0 <= i < |Resumed(waiters, want, flags)| :: Fair(Resumed(waiters, want, flags)[i], want, flags)
  {
    if waiters != [] {
      var w := want[waiters[0]];
      ReceivedFairly(waiters[1..], want, After(w, flags));
      var woken' := Resumed(waiters[1..], want, After(w, flags));
      forall i | 0 <= i < |woken'| ensures Fair(woken'[i], want, flags) {
        assert Fair(woken'[i], want, After(w, flags));
      }
    }
  }

  /** The flags of a clearing receiver reach no later receiver and are not left over. */
  ghost predicate Consumed(woken: seq<Wake>, want: map<ThreadId, Want>, left: Flags, i: nat) {
    i < |woken| && woken[i].t in want && want[woken[i].t].clear ==>
      woken[i].bits !! left && forall j | i < j < |woken| :: woken[i].bits !! woken[j].bits
  }

  /** A flag is consumed at most once in a pass. */
  lemma {:induction false} ConsumedOnce(waiters: seq<ThreadId>, want: map<ThreadId, Want>, flags: Flags, i: nat)
    requires Wanted(waiters, want)
    ensures Consumed(Resumed(waiters, want, flags), want, FlagsLeft(waiters, want, flags), i)
  {
    if waiters != [] {
      var w := want[waiters[0]];
      var rest, flags' := waiters[1..], After(w, flags);
      var woken, woken' := Resumed(waiters, want, flags), Resumed(rest, want, flags');
      if !Satisfied(w, flags) {
        ConsumedOnce(rest, want, flags', i);
      } else if i > 0 {
        ConsumedOnce(rest, want, flags', i - 1);
        assert forall j | 0 < j < |woken| :: woken[j] == woken'[j - 1];
      } else {
        FlagsShrink(rest, want, flags');
        ReceivedFairly(rest, want, flags');
        forall j | 0 < j < |woken| ensures w.clear ==> woken[0].bits !! woken[j].bits {
          assert Fair(woken'[j - 1], want, flags');
        }
      }
    }
  }

  /** No clearing thread received flag `f`. */
  ghost predicate Untaken(f: nat, woken: seq<Wake>, want: map<ThreadId, Want>) {
    forall i | 0 <= i < |woken| :: woken[i].t in want && (want[woken[i].t].clear ==> f !in woken[i].bits)
  }

  lemma UntakenNext(f: nat, wake: Wake, woken: seq<Wake>, want: map<ThreadId, Want>)
    ensures Untaken(f, [wake] + woken, want) <==>
            wake.t in want && (want[wake.t].clear ==> f !in wake.bits) && Untaken(f, woken, want)
  {
    var all := [wake] + woken;
    assert all[0] == wake && forall i | 0 <= i < |woken| :: all[i + 1] == woken[i];
  }

  /** The flags left are those there were, less exactly the flags that clearing threads received. */
  lemma {:induction false} LeftExact(waiters: seq<ThreadId>, want: map<ThreadId, Want>, flags: Flags, f: nat)
    requires Wanted(waiters, want)
    ensures f in FlagsLeft(waiters, want, flags) <==> f in flags && Untaken(f, Resumed(waiters, want, flags), want)
  {
    if waiters != [] {
      hide Untaken;
      var w := want[waiters[0]];
      LeftExact(waiters[1..], want, After(w, flags), f);
      Unfold(waiters, want, flags);
      if Satisfied(w, flags) {
        UntakenNext(f, Wake(waiters[0], Received(w, flags)), Resumed(waiters[1..], want, After(w, flags)), want);
      }
    }
  }

  lemma {:induction false} PassAppend(a: seq<ThreadId>, b: seq<ThreadId>, want: map<ThreadId, Want>, flags: Flags)
    requires Wanted(a, want) && Wanted(b, want) && Wanted(a + b, want)
    ensures var left := FlagsLeft(a, want, flags);
            && StillWaiting(a + b, want, flags) == StillWaiting(a, want, flags) + StillWaiting(b, want, left)
            && Resumed(a + b, want, flags) == Resumed(a, want, flags) + Resumed(b, want, left)
            && FlagsLeft(a + b, want, flags) == FlagsLeft(b, want, left)
  {
    if a == [] {
      assert a + b == b;
    } else {
      assert (a + b)[1..] == a[1..] + b && (a + b)[0] == a[0];
      hide Satisfied, Received, After, StillWaiting, Resumed, FlagsLeft;
      var w, flags' := want[a[0]], After(want[a[0]], flags);
      PassAppend(a[1..], b, want, flags');
      Unfold(a, want, flags);
      Unfold(a + b, want, flags);
      var left := FlagsLeft(a, want, flags);
      Assoc([a[0]], StillWaiting(a[1..], want, flags'), StillWaiting(b, want, left));
      Assoc([Wake(a[0], Received(w, flags))], Resumed(a[1..], want, flags'), Resumed(b, want, left));
    }
  }

  /** All the flags that `w` wants are set, or any of them, as it asks. */
  lemma SatisfiedExact(w: Want, flags: Flags)
    ensures Satisfied(w, flags) <==>
            if w.andFlag then forall f | f in w.bits :: f in flags
            else w.orFlag && exists f :: f in w.bits && f in flags
    ensures Satisfied(w, flags) ==> Received(w, flags) == w.bits * flags
  {
    if !w.andFlag && exists f :: f in w.bits && f in flags {
      var f :| f in w.bits && f in flags;
      assert f in w.bits * flags;
    }
    if !w.andFlag && w.bits * flags != {} {
      var f :| f in w.bits * flags;
      assert f in w.bits && f in flags;
    }
  }

  /**
   The `k`-th waiter is resumed exactly if all the flags it wants, or any as it asked, are set when the pass comes to
   it, and then with those of its flags that are set.
   */
  lemma PassStep(waiters: seq<ThreadId>, want: map<ThreadId, Want>, flags: Flags, k: nat)
    requires Wanted(waiters, want) && k < |waiters|
    ensures Wanted(waiters[..k], want) && Wanted(waiters[..k + 1], want)
    ensures var now, w := FlagsLeft(waiters[..k], want, flags), want[waiters[k]];
            var met := if w.andFlag then forall f | f in w.bits :: f in now
                       else w.orFlag && exists f :: f in w.bits && f in now;
            && StillWaiting(waiters[..k + 1], want, flags) ==
                 StillWaiting(waiters[..k], want, flags) + (if met then [] else [waiters[k]])
            && Resumed(waiters[..k + 1], want, flags) ==
                 Resumed(waiters[..k], want, flags) + (if met then [Wake(waiters[k], w.bits * now)] else [])
  {
    var now, w, one := FlagsLeft(waiters[..k], want, flags), want[waiters[k]], [waiters[k]];
    assert waiters[..k + 1] == waiters[..k] + one;
    PassAppend(waiters[..k], one, want, flags);
    assert one[1..] == [];
    SatisfiedExact(w, now);
    PassOne(waiters[k], want, now);
  }

  lemma PassOne(t: ThreadId, want: map<ThreadId, Want>, flags: Flags)
    requires t in want
    ensures StillWaiting([t], want, flags) == if Satisfied(want[t], flags) then [] else [t]
    ensures Resumed([t], want, flags)
         == if Satisfied(want[t], flags) then [Wake(t, Received(want[t], flags))] else []
  {
    hide Satisfied, Received;
    assert [t][1..] == [];
  }

  /** When nobody clears, the pass resumes exactly the threads that the flags satisfy, whatever the order. */
  lemma {:induction false} WithoutClearing(waiters: seq<ThreadId>, want: map<ThreadId, Want>, flags: Flags)
    requires Wanted(waiters, want) && forall i | 0 <= i < |waiters| :: !want[waiters[i]].clear
    ensures FlagsLeft(waiters, want, flags) == flags
    ensures forall t :: t in StillWaiting(waiters, want, flags) <==> t in waiters && !Satisfied(want[t], flags)
  {
    if waiters != [] {
      WithoutClearing(waiters[1..], want, flags);
      assert waiters == [waiters[0]] + waiters[1..];
    }
  }

  /** Part of a pass is done: `kept` wait on, `woken` were resumed, `rest` is still to be looked at. */
  ghost predicate Midway(waiters: seq<ThreadId>, want: map<ThreadId, Want>, start: Flags,
                         kept: seq<ThreadId>, woken: seq<Wake>, rest: seq<ThreadId>, flags: Flags) {
    && Wanted(waiters, want) && Wanted(rest, want)
    && StillWaiting(waiters, want, start) == kept + StillWaiting(rest, want, flags)
    && Resumed(waiters, want, start) == woken + Resumed(rest, want, flags)
    && FlagsLeft(waiters, want, start) == FlagsLeft(rest, want, flags)
  }

  lemma MidwayStart(waiters: seq<ThreadId>, want: map<ThreadId, Want>, start: Flags)
    requires Wanted(waiters, want)
    ensures Midway(waiters, want, start, [], [], waiters, start)
  {
  }

  lemma MidwayEnd(waiters: seq<ThreadId>, want: map<ThreadId, Want>, start: Flags, kept: seq<ThreadId>,
                  woken: seq<Wake>, flags: Flags)
    requires Midway(waiters, want, start, kept, woken, [], flags)
    ensures Wanted(waiters, want)
    ensures kept == StillWaiting(waiters, want, start) && woken == Resumed(waiters, want, start)
            && flags == FlagsLeft(waiters, want, start)
  {
  }

  lemma MidwayStep(waiters: seq<ThreadId>, want: map<ThreadId, Want>, start: Flags,
                   kept: seq<ThreadId>, woken: seq<Wake>, rest: seq<ThreadId>, flags: Flags)
    requires Midway(waiters, want, start, kept, woken, rest, flags) && rest != []
    ensures rest[0] in want
    ensures var t, w := rest[0], want[rest[0]];
            if Satisfied(w, flags) then Midway(waiters, want, start, kept, woken + [Wake(t, Received(w, flags))],
                                               rest[1..], After(w, flags))
            else Midway(waiters, want, start, kept + [t], woken, rest[1..], flags)
  {
    hide Satisfied, Received, StillWaiting, Resumed, FlagsLeft;
    var w := want[rest[0]];
    Unfold(rest, want, flags);
    var left', woken' := StillWaiting(rest[1..], want, After(w, flags)), Resumed(rest[1..], want, After(w, flags));
    Assoc(kept, [rest[0]], left');
    Assoc(woken, [Wake(rest[0], Received(w, flags))], woken');
  }

  lemma Unfold(rest: seq<ThreadId>, want: map<ThreadId, Want>, flags: Flags)
    requires Wanted(rest, want) && rest != []
    ensures var w, flags' := want[rest[0]], After(want[rest[0]], flags);
            && Wanted(rest[1..], want)
            && FlagsLeft(rest, want, flags) == FlagsLeft(rest[1..], want, flags')
            && StillWaiting(rest, want, flags) ==
                 (if Satisfied(w, flags) then StillWaiting(rest[1..], want, flags')
                  else [rest[0]] + StillWaiting(rest[1..], want, flags'))
            && Resumed(rest, want, flags) ==
                 (if Satisfied(w, flags) then [Wake(rest[0], Received(w, flags))] + Resumed(rest[1..], want, flags')
                  else Resumed(rest[1..], want, flags'))
  {
    hide Satisfied, Received, After;
  }

  lemma Assoc<T>(a: seq<T>, b: seq<T>, c: seq<T>)
    ensures a + (b + c) == (a + b) + c
  {
  }

  // ---------------------------------------------------------------- the object

  class Event {
    const flag: Discipline
    const prio: map<ThreadId, nat>
    var flags: Flags
    var waiters: seq<ThreadId>
    var want: map<ThreadId, Want>     // event_set and event_info of the waiting threads

    /** Nobody waits for what is already there; every waiter asks for all or any of something. */
    ghost predicate Valid()
      reads this
    {
      && NoRepeats(waiters) && Wanted(waiters, want)
      && NoneSatisfied(waiters, want, flags)
      && (forall i | 0 <= i < |waiters| :: waiters[i] in prio && (want[waiters[i]].andFlag || want[waiters[i]].orFlag))
    }

    constructor (flag: Discipline, prio: map<ThreadId, nat>)
      ensures Valid() && flags == {} && waiters == []
    {
      this.flag, this.prio, flags, waiters, want := flag, prio, {}, [], map[];
    }

    /** rt_event_send; the -RT_EINVAL exit in the middle of the list is never taken. */
    method Send(bits: Flags) returns (r: Outcome, ghost woken: seq<Wake>)
      requires Valid()
      modifies this`flags, this`waiters
      ensures Valid()
      ensures bits == {} ==> r.Failed? && woken == [] && flags == old(flags) && waiters == old(waiters)
      ensures bits != {} ==>
                && r.Ok?
                && waiters == StillWaiting(old(waiters), want, old(flags) + bits)
                && woken == Resumed(old(waiters), want, old(flags) + bits)
                && flags == FlagsLeft(old(waiters), want, old(flags) + bits)
                && forall f :: f in flags <==> (f in old(flags) || f in bits) && Untaken(f, woken, want)
    {
      woken := [];
      if bits == {} {
        return Failed, woken;
      }
      hide Midway, NoneSatisfied, Received, Untaken;
      flags := flags + bits;
      ghost var all, start, rest := waiters, flags, waiters;
      MidwayStart(all, want, start);
      var i := 0;
      while i < |waiters|
        invariant i <= |waiters| && waiters[i..] == rest
        invariant Midway(all, want, start, waiters[..i], woken, rest, flags)
        invariant forall k | 0 <= k < |rest| :: rest[k] in want && (want[rest[k]].andFlag || want[rest[k]].orFlag)
        decreases |waiters| - i
      {
        var t := waiters[i];
        assert t == rest[0] && rest[1..] == waiters[i + 1..];
        var w := want[t];
        MidwayStep(all, want, start, waiters[..i], woken, rest, flags);
        var satisfied := false;
        if w.andFlag {
          satisfied := w.bits <= flags;
        } else if w.orFlag {
          satisfied := w.bits * flags != {};
        } else {
          assert false;
        }
        if satisfied {
          woken := woken + [Wake(t, Received(w, flags))];
          if w.clear {
            flags := flags - Received(w, flags);
          }
          waiters := waiters[..i] + waiters[i + 1..];
        } else {
          assert waiters[..i + 1] == waiters[..i] + [t];
          i := i + 1;
        }
        rest := rest[1..];
      }
      MidwayEnd(all, want, start, waiters[..i], woken, flags);
      SendOutcome(all, want, start, prio);
      forall f ensures f in flags <==> f in start && Untaken(f, woken, want) {
        LeftExact(all, want, start, f);
      }
      return Ok({}), woken;
    }

    /** rt_event_recv up to its answer or its suspension. */
    method Recv(t: ThreadId, bits: Flags, andFlag: bool, orFlag: bool, clear: bool, timeout: int) returns (r: Outcome)
      requires Valid() && t in prio && t !in waiters && (andFlag || orFlag)
      modifies this
      ensures Valid()
      ensures bits == {} <==> r.Failed?
      ensures var met := if andFlag then forall f | f in bits :: f in old(flags)
                         else exists f :: f in bits && f in old(flags);
              && (bits != {} && met ==>
                    && r.Ok? && (forall f :: f in r.bits <==> f in bits && f in old(flags))
                    && forall f :: f in flags <==> f in old(flags) && (clear ==> f !in bits))
              && (bits != {} && !met ==> flags == old(flags) && r == if timeout == 0 then TimedOut else Pending)
              && (bits == {} ==> flags == old(flags))
              && (r.Pending? ==> want == old(want)[t := Want(bits, andFlag, orFlag, clear)]
                                 && Queued(old(waiters), waiters, t, flag, prio))
              && (!r.Pending? ==> waiters == old(waiters))
    {
      hide Queued;
      if bits == {} {
        return Failed;
      }
      var w := Want(bits, andFlag, orFlag, clear);
      var satisfied := if andFlag then bits <= flags else bits * flags != {};
      SatisfiedExact(w, flags);
      if satisfied {
        r := Ok(flags * bits);
        if clear {
          flags := flags - bits;
        }
        return;
      }
      if timeout == 0 {
        return TimedOut;
      }
      var list, i := Suspend(waiters, t, flag, prio);
      InsertedMembers(waiters, list, t, i);
      want := want[t := w];
      waiters := list;
      return Pending;
    }

    /** A waiting thread is resumed with an error, by its timer or by a reset. */
    method GiveUp(t: ThreadId)
      requires Valid() && t in waiters
      modifies this`waiters
      ensures Valid() && |waiters| == |old(waiters)| - 1 && Dropped(old(waiters), waiters, t)
    {
      var list := Remove(waiters, t);
      forall i | 0 <= i < |list| ensures list[i] in waiters {
        assert list[i] in list;
      }
      waiters := list;
    }

    /** rt_event_control with RT_IPC_CMD_RESET */
    method Reset()
      requires Valid()
      modifies this`flags, this`waiters
      ensures Valid() && flags == {} && waiters == []
    {
      while waiters != []
        invariant Valid()
        decreases |waiters|
      {
        GiveUp(waiters[0]);
      }
      flags := {};
    }
  }

  /** After a pass the object is as its invariant says. */
  lemma SendOutcome(waiters: seq<ThreadId>, want: map<ThreadId, Want>, flags: Flags, prio: map<ThreadId, nat>)
    requires NoRepeats(waiters) && Wanted(waiters, want)
    requires forall i | 0 <= i < |waiters| ::
               waiters[i] in prio
               && (want[waiters[i]].andFlag || want[waiters[i]].orFlag)
    ensures var left := StillWaiting(waiters, want, flags);
            && NoRepeats(left) && NoneSatisfied(left, want, FlagsLeft(waiters, want, flags))
            && forall i | 0 <= i < |left| :: left[i] in prio && (want[left[i]].andFlag || want[left[i]].orFlag)
  {
    OnePassSuffices(waiters, want, flags);
    PassSplits(waiters, want, flags);
    var left := StillWaiting(waiters, want, flags);
    forall i | 0 <= i < |left| ensures left[i] in waiters {
      assert left[i] in left;
    }
  }
}
