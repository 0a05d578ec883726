/**
 Where the threads using a message queue are: each call is a few locked regions
 with unlocked work between them, and a thread stands before one of them.
 */
module QueueThreads {
  import opened Machine
  import opened WaitList
  import opened WaitStates
  import opened QueueStore

  /** The unlocked work of a call on the block it holds. */
  datatype Work =
    | Filling(m: seq<byte>, urgent: bool, b: Block)
    | Filled(m: seq<byte>, urgent: bool, b: Block)
    | Draining(size: nat, b: Block)
    | Drained(b: Block)

  /** A sender brings a message, a receiver the size of its buffer. */
  type Pc = Stand<seq<byte>, nat, Work>

  type Threads = Stands<seq<byte>, nat, Work>

  predicate IsFilling(p: Pc) {
    p.Busy? && p.work.Filling?
  }

  predicate IsFilled(p: Pc) {
    p.Busy? && p.work.Filled?
  }

  predicate IsDraining(p: Pc) {
    p.Busy? && p.work.Draining?
  }

  predicate IsDrained(p: Pc) {
    p.Busy? && p.work.Drained?
  }

  ghost predicate HolderOk(pc: Pc, t: ThreadId, next: map<Block, int>, data: map<Block, seq<byte>>,
                           place: map<Block, Place>,
                           taken: map<ThreadId, seq<byte>>, msgSize: nat) {
    && (pc.Busy? ==> pc.work.b in place && place[pc.work.b] == Held(t) && pc.work.b in next && pc.work.b in data)
    && (pc.SendWait? || pc.SendWoken? ==> 0 < |pc.m| <= msgSize)
    && (IsFilling(pc) ==> 0 < |pc.work.m| <= msgSize)
    && (IsFilled(pc) ==>
          pc.work.m != [] && pc.work.m <= data[pc.work.b]
          && (!pc.work.urgent ==> next[pc.work.b] == NIL))
    && (IsDraining(pc) ==> t in taken && taken[t] <= data[pc.work.b])
  }

  /** A block is held by at most one thread, which knows it; what a thread holds is as it left it. */
  ghost predicate Holders(pc: Threads, next: map<Block, int>, data: map<Block, seq<byte>>, place: map<Block, Place>,
                          taken: map<ThreadId, seq<byte>>, msgSize: nat) {
    && (forall t {:trigger pc[t]} | t in pc :: HolderOk(pc[t], t, next, data, place, taken, msgSize))
    && (forall b {:trigger place[b]} | b in place && place[b].Held? ::
          place[b].t in pc && pc[place[b].t].Busy?
          && pc[place[b].t].work.b == b)
  }

  /** Thread `t` moves on without taking, dropping or changing a block; the pool may change where nobody holds it. */
  lemma HoldersMove(pc: Threads, next: map<Block, int>, data: map<Block, seq<byte>>, place: map<Block, Place>,
                    taken: map<ThreadId, seq<byte>>, msgSize: nat, t: ThreadId, p: Pc)
    requires Holders(pc, next, data, place, taken, msgSize) && t in pc && !pc[t].Busy? && !p.Busy?
    requires p.SendWait? || p.SendWoken? ==> 0 < |p.m| <= msgSize
    ensures Holders(pc[t := p], next, data, place, taken, msgSize)
  {
  }

  /** Thread `t` takes block `b`, which nobody held. */
  lemma HoldersTake(pc: Threads, next: map<Block, int>, data: map<Block, seq<byte>>, place: map<Block, Place>,
                    taken: map<ThreadId, seq<byte>>, taken': map<ThreadId, seq<byte>>, msgSize: nat, t: ThreadId,
                    b: Block, p: Pc)
    requires Holders(pc, next, data, place, taken, msgSize) && t in pc && !pc[t].Busy?
    requires b in place && !place[b].Held? && b in next && b in data
    requires (IsFilling(p) || IsDraining(p)) && p.work.b == b && (IsFilling(p) ==> 0 < |p.work.m| <= msgSize)
    requires forall u | u in taken && u != t :: u in taken' && taken'[u] == taken[u]
    requires IsDraining(p) ==> t in taken' && taken'[t] <= data[b]
    ensures Holders(pc[t := p], next, data, place[b := Held(t)], taken', msgSize)
  {
    var pc', place' := pc[t := p], place[b := Held(t)];
    forall u | u in pc' ensures HolderOk(pc'[u], u, next, data, place', taken', msgSize) {
      assert u != t ==> HolderOk(pc[u], u, next, data, place, taken, msgSize);
    }
  }

  /** The links of blocks held by other threads are as they were. */
  ghost predicate LinksKept(next: map<Block, int>, next': map<Block, int>, place: map<Block, Place>, b: Block) {
    && (forall x | x in next :: x in next')
    && (forall x | x in next && x in place && place[x].Held? && x != b :: next'[x] == next[x])
  }

  /** Thread `t` gives up the block it held; the links of unheld blocks may change with it. */
  lemma HoldersDrop(pc: Threads, next: map<Block, int>, next': map<Block, int>, data: map<Block, seq<byte>>,
                    place: map<Block, Place>,
                    taken: map<ThreadId, seq<byte>>, msgSize: nat, t: ThreadId, where: Place)
    requires Holders(pc, next, data, place, taken, msgSize) && t in pc && pc[t].Busy? && !where.Held?
    requires LinksKept(next, next', place, pc[t].work.b)
    ensures Holders(pc[t := Idle], next', data, place[pc[t].work.b := where], taken, msgSize)
  {
    var b := pc[t].work.b;
    var pc', place' := pc[t := Idle], place[b := where];
    assert HolderOk(pc[t], t, next, data, place, taken, msgSize);
    forall u | u in pc' ensures HolderOk(pc'[u], u, next', data, place', taken, msgSize) {
      if u != t {
        assert HolderOk(pc[u], u, next, data, place, taken, msgSize);
      }
    }
  }

  /** Thread `t` works on the block it holds. */
  lemma HoldersWork(pc: Threads, next: map<Block, int>, data: map<Block, seq<byte>>, place: map<Block, Place>,
                    taken: map<ThreadId, seq<byte>>, msgSize: nat, t: ThreadId, link: int, d: seq<byte>, p: Pc)
    requires Holders(pc, next, data, place, taken, msgSize) && t in pc && pc[t].Busy? && p.Busy?
             && p.work.b == pc[t].work.b
    requires IsFilled(p) || IsDrained(p)
    requires IsFilled(p) ==> p.work.m != [] && p.work.m <= d && (!p.work.urgent ==> link == NIL)
    ensures Holders(pc[t := p], next[p.work.b := link], data[p.work.b := d], place, taken, msgSize)
  {
    var b := p.work.b;
    assert HolderOk(pc[t], t, next, data, place, taken, msgSize);
    var pc', next', data' := pc[t := p], next[b := link], data[b := d];
    forall u | u in pc' ensures HolderOk(pc'[u], u, next', data', place, taken, msgSize) {
      if u != t {
        assert HolderOk(pc[u], u, next, data, place, taken, msgSize);
      }
    }
  }

  lemma HoldersSee(pc: Threads, next: map<Block, int>, data: map<Block, seq<byte>>, place: map<Block, Place>,
                   taken: map<ThreadId, seq<byte>>, msgSize: nat, t: ThreadId)
    requires Holders(pc, next, data, place, taken, msgSize) && t in pc && IsDraining(pc[t])
    ensures Holders(pc[t := Busy(Drained(pc[t].work.b))], next, data, place, taken, msgSize)
  {
  }

  /** A block that nobody held goes from one list to the other. */
  lemma HoldersShift(pc: Threads, next: map<Block, int>, next': map<Block, int>, data: map<Block, seq<byte>>,
                     place: map<Block, Place>,
                     taken: map<ThreadId, seq<byte>>, msgSize: nat, b: Block, where: Place)
    requires Holders(pc, next, data, place, taken, msgSize) && b in place && !place[b].Held? && !where.Held?
    requires LinksKept(next, next', place, b)
    ensures Holders(pc, next', data, place[b := where], taken, msgSize)
  {
    forall u | u in pc ensures HolderOk(pc[u], u, next', data, place[b := where], taken, msgSize) {
      assert HolderOk(pc[u], u, next, data, place, taken, msgSize);
    }
  }
}
