/**
 The message pool of an ipc.c message queue as values: blocks linked into a free
 list and a queue, or held by the one thread that fills or drains them.
 */
module QueueStore {
  import opened Sequences
  import opened Machine
  import opened WaitList

  type Block = int

  const NIL: int := -1
  const ENTRY_MAX: int := 65535   // RT_MQ_ENTRY_MAX

  datatype Place = InFree | InQueue | Held(t: ThreadId)

  /** Following `next` from `head` visits exactly the blocks `s`. */
  ghost predicate Chain(next: map<Block, int>, head: int, s: seq<Block>) {
    && head == (if s == [] then NIL else s[0])
    && (forall i {:trigger s[i]} | 0 <= i < |s| ::
          s[i] in next && s[i] != NIL
          && next[s[i]] == (if i + 1 < |s| then s[i + 1] else NIL))
  }

  ghost predicate Located(s: seq<Block>, place: map<Block, Place>, where: Place) {
    NoRepeats(s) && forall b :: b in s <==> b in place && place[b] == where
  }

  /** Each queued block starts with the message sent in it. */
  ghost predicate Carries(data: map<Block, seq<byte>>, queue: seq<Block>, sent: seq<seq<byte>>) {
    |sent| == |queue| && forall i | 0 <= i < |queue| :: queue[i] in data && sent[i] <= data[queue[i]]
  }

  /** The blocks, the queue with its head, tail and count, and the free list. */
  ghost predicate Stored(blocks: set<Block>, next: map<Block, int>, data: map<Block, seq<byte>>,
                         place: map<Block, Place>, msgSize: nat,
                         head: int, tail: int, entry: nat, queue: seq<Block>, free: int, freeList: seq<Block>,
                         sent: seq<seq<byte>>) {
    && next.Keys == blocks && data.Keys == blocks && place.Keys == blocks && NIL !in blocks
    && (forall b | b in data :: |data[b]| == msgSize)
    && Chain(next, free, freeList) && Located(freeList, place, InFree)
    && Chain(next, head, queue) && Located(queue, place, InQueue)
    && tail == (if queue == [] then NIL else queue[|queue| - 1])
    && entry == |queue|
    && Carries(data, queue, sent)
  }

  lemma ChainMembers(next: map<Block, int>, head: int, s: seq<Block>)
    requires Chain(next, head, s)
    ensures forall b | b in s :: b in next
  {
  }

  lemma {:induction false} PoolSize(s: set<Block>, n: nat)
    requires forall b: int :: b in s <==> 0 <= b < n
    ensures |s| == n
  {
    if n == 0 {
      assert forall b :: b !in s;
    } else {
      PoolSize(s - {n - 1}, n - 1);
    }
  }

  lemma {:induction false} MembersCount(s: seq<Block>)
    requires NoRepeats(s)
    ensures |set b | b in s| == |s|
  {
    if s != [] {
      MembersCount(s[1..]);
      HeadRemoved(s);
      assert (set b | b in s) == (set b | b in s[1..]) + {s[0]};
    } else {
      assert (set b: Block | b in s) == {};
    }
  }

  lemma ChainFrame(next: map<Block, int>, next': map<Block, int>, head: int, s: seq<Block>)
    requires Chain(next, head, s)
    requires forall i | 0 <= i < |s| :: s[i] in next' && next'[s[i]] == next[s[i]]
    ensures Chain(next', head, s)
  {
  }

  lemma ChainPop(next: map<Block, int>, head: int, s: seq<Block>)
    requires Chain(next, head, s) && s != []
    ensures head == s[0] && head in next && Chain(next, next[head], s[1..])
  {
    assert next[s[0]] == if 1 < |s| then s[1] else NIL;
    var r := s[1..];
    forall i | 0 <= i < |r| ensures r[i] in next && r[i] != NIL && next[r[i]] == if i + 1 < |r| then r[i + 1] else NIL {
      assert r[i] == s[i + 1];
    }
  }

  lemma ChainPush(next: map<Block, int>, head: int, s: seq<Block>, b: Block)
    requires Chain(next, head, s) && b !in s && b != NIL
    ensures Chain(next[b := head], b, [b] + s)
  {
    var s' := [b] + s;
    assert forall i | 1 <= i < |s'| :: s'[i] == s[i - 1] && s[i - 1] in s;
  }

  lemma ChainAppend(next: map<Block, int>, head: int, s: seq<Block>, b: Block)
    requires Chain(next, head, s) && NoRepeats(s) && b !in s && b in next && next[b] == NIL && b != NIL
    ensures Chain(if s == [] then next else next[s[|s| - 1] := b], if s == [] then b else head, s + [b])
  {
  }

  lemma LocatedTake(s: seq<Block>, place: map<Block, Place>, here: Place, t: ThreadId)
    requires Located(s, place, here) && s != [] && !here.Held?
    ensures s[0] in place && Located(s[1..], place[s[0] := Held(t)], here)
  {
    HeadRemoved(s);
  }

  lemma LocatedOther(s: seq<Block>, place: map<Block, Place>, here: Place, b: Block, there: Place)
    requires Located(s, place, here) && b in place && place[b] != here && there != here
    ensures Located(s, place[b := there], here)
  {
  }

  lemma LocatedPush(s: seq<Block>, place: map<Block, Place>, here: Place, b: Block)
    requires Located(s, place, here) && b in place && place[b] != here
    ensures Located([b] + s, place[b := here], here)
  {
  }

  lemma LocatedAppend(s: seq<Block>, place: map<Block, Place>, here: Place, b: Block)
    requires Located(s, place, here) && b in place && place[b] != here
    ensures Located(s + [b], place[b := here], here)
  {
  }

  /** A sender takes the first free block. */
  lemma TakeFree(blocks: set<Block>, next: map<Block, int>, data: map<Block, seq<byte>>, place: map<Block, Place>,
                 msgSize: nat,
                 head: int, tail: int, entry: nat, queue: seq<Block>, free: int, freeList: seq<Block>,
                 sent: seq<seq<byte>>, t: ThreadId)
    requires Stored(blocks, next, data, place, msgSize, head, tail, entry, queue, free, freeList, sent) && free != NIL
    ensures freeList != [] && free == freeList[0] && free in next && free in data && free in place
            && place[free] == InFree
    ensures Stored(blocks, next, data, place[free := Held(t)], msgSize, head, tail, entry, queue, next[free],
                   freeList[1..], sent)
  {
    hide Located, Carries, NoRepeats;
    ChainPop(next, free, freeList);
    LocatedTake(freeList, place, InFree, t);
    FirstLocated(freeList, place, InFree);
    LocatedOther(queue, place, InQueue, free, Held(t));
  }

  lemma FirstLocated(s: seq<Block>, place: map<Block, Place>, here: Place)
    requires Located(s, place, here)
    ensures forall i | 0 <= i < |s| :: s[i] in place && place[s[i]] == here
    ensures NoRepeats(s)
  {
    forall i | 0 <= i < |s| ensures s[i] in place && place[s[i]] == here {
      assert s[i] in s;
    }
  }

  /** A receiver takes the first queued block; its message leaves the queue. */
  lemma TakeHead(blocks: set<Block>, next: map<Block, int>, data: map<Block, seq<byte>>, place: map<Block, Place>,
                 msgSize: nat,
                 head: int, tail: int, entry: nat, queue: seq<Block>, free: int, freeList: seq<Block>,
                 sent: seq<seq<byte>>, t: ThreadId)
    requires Stored(blocks, next, data, place, msgSize, head, tail, entry, queue, free, freeList, sent) && entry > 0
    ensures queue != [] && head == queue[0] && head in next && head in data && head in place && place[head] == InQueue
            && |sent| == |queue| && sent[0] <= data[head]
    ensures Stored(blocks, next, data, place[head := Held(t)], msgSize, next[head], if tail == head then NIL else tail,
                   entry - 1, queue[1..],
                   free, freeList, sent[1..])
  {
    hide Located;
    ChainPop(next, head, queue);
    LocatedTake(queue, place, InQueue, t);
    FirstLocated(queue, place, InQueue);
    LocatedOther(freeList, place, InFree, head, Held(t));
    assert queue[1..] != [] ==> queue[1..][|queue| - 2] == queue[|queue| - 1];
    forall i | 0 <= i < |queue[1..]| ensures queue[1..][i] in data && sent[1..][i] <= data[queue[1..][i]] {
      assert queue[1..][i] == queue[i + 1];
    }
  }

  /** A thread changes only the block it holds. */
  lemma WriteHeld(blocks: set<Block>, next: map<Block, int>, data: map<Block, seq<byte>>, place: map<Block, Place>,
                  msgSize: nat,
                  head: int, tail: int, entry: nat, queue: seq<Block>, free: int, freeList: seq<Block>,
                  sent: seq<seq<byte>>,
                  b: Block, link: int, d: seq<byte>)
    requires Stored(blocks, next, data, place, msgSize, head, tail, entry, queue, free, freeList, sent)
    requires b in place && place[b].Held? && |d| == msgSize
    ensures Stored(blocks, next[b := link], data[b := d], place, msgSize, head, tail, entry, queue, free, freeList,
                   sent)
  {
    hide Located;
    FirstLocated(queue, place, InQueue);
    FirstLocated(freeList, place, InFree);
    ChainFrame(next, next[b := link], head, queue);
    ChainFrame(next, next[b := link], free, freeList);
  }

  /** A filled block is linked behind the tail. */
  lemma LinkTail(blocks: set<Block>, next: map<Block, int>, data: map<Block, seq<byte>>, place: map<Block, Place>,
                 msgSize: nat,
                 head: int, tail: int, entry: nat, queue: seq<Block>, free: int, freeList: seq<Block>,
                 sent: seq<seq<byte>>, b: Block, m: seq<byte>)
    requires Stored(blocks, next, data, place, msgSize, head, tail, entry, queue, free, freeList, sent)
    requires b in place && place[b].Held? && next[b] == NIL && m <= data[b]
    ensures tail != NIL ==> tail in next
    ensures Stored(blocks, if tail != NIL then next[tail := b] else next, data, place[b := InQueue], msgSize,
                   if head == NIL then b else head, b, entry + 1, queue + [b], free, freeList, sent + [m])
  {
    hide Located, NoRepeats;
    FirstLocated(queue, place, InQueue);
    FirstLocated(freeList, place, InFree);
    ChainAppend(next, head, queue, b);
    LocatedAppend(queue, place, InQueue, b);
    LocatedOther(freeList, place, InFree, b, InQueue);
    ChainFrame(next, if tail != NIL then next[tail := b] else next, free, freeList);
  }

  /** An urgent block is linked before the head. */
  lemma LinkHead(blocks: set<Block>, next: map<Block, int>, data: map<Block, seq<byte>>, place: map<Block, Place>,
                 msgSize: nat,
                 head: int, tail: int, entry: nat, queue: seq<Block>, free: int, freeList: seq<Block>,
                 sent: seq<seq<byte>>, b: Block, m: seq<byte>)
    requires Stored(blocks, next, data, place, msgSize, head, tail, entry, queue, free, freeList, sent)
    requires b in place && place[b].Held? && m <= data[b]
    ensures Stored(blocks, next[b := head], data, place[b := InQueue], msgSize,
                   b, if tail == NIL then b else tail, entry + 1, [b] + queue, free, freeList, [m] + sent)
  {
    hide Located, NoRepeats, Chain;
    FirstLocated(queue, place, InQueue);
    FirstLocated(freeList, place, InFree);
    ChainPush(next, head, queue, b);
    LocatedPush(queue, place, InQueue, b);
    LocatedOther(freeList, place, InFree, b, InQueue);
    ChainFrame(next, next[b := head], free, freeList);
  }

  /** A drained block goes back to the free list. */
  lemma GiveBack(blocks: set<Block>, next: map<Block, int>, data: map<Block, seq<byte>>, place: map<Block, Place>,
                 msgSize: nat,
                 head: int, tail: int, entry: nat, queue: seq<Block>, free: int, freeList: seq<Block>,
                 sent: seq<seq<byte>>, b: Block)
    requires Stored(blocks, next, data, place, msgSize, head, tail, entry, queue, free, freeList, sent)
    requires b in place && place[b].Held?
    ensures Stored(blocks, next[b := free], data, place[b := InFree], msgSize, head, tail, entry, queue, b,
                   [b] + freeList, sent)
  {
    hide Located, NoRepeats;
    FirstLocated(queue, place, InQueue);
    FirstLocated(freeList, place, InFree);
    ChainPush(next, free, freeList, b);
    LocatedPush(freeList, place, InFree, b);
    LocatedOther(queue, place, InQueue, b, InFree);
    ChainFrame(next, next[b := free], head, queue);
  }

  lemma {:induction false} CountDistinct(s: seq<Block>, all: set<Block>)
    requires NoRepeats(s) && forall i | 0 <= i < |s| :: s[i] in all
    ensures |s| <= |all|
  {
    if s != [] {
      HeadRemoved(s);
      forall i | 0 <= i < |s[1..]| ensures s[1..][i] in all - {s[0]} {
        assert s[1..][i] in s[1..];
      }
      CountDistinct(s[1..], all - {s[0]});
    }
  }

  /** While somebody holds a block, the queue is shorter than the pool: the RT_MQ_ENTRY_MAX branch is never taken. */
  lemma EntryBelowMax(blocks: set<Block>, next: map<Block, int>, data: map<Block, seq<byte>>, place: map<Block, Place>,
                      msgSize: nat,
                      head: int, tail: int, entry: nat, queue: seq<Block>, free: int, freeList: seq<Block>,
                      sent: seq<seq<byte>>, b: Block)
    requires Stored(blocks, next, data, place, msgSize, head, tail, entry, queue, free, freeList, sent)
    requires |blocks| <= ENTRY_MAX && b in place && place[b] != InQueue
    ensures entry < ENTRY_MAX
  {
    FirstLocated(queue, place, InQueue);
    CountDistinct(queue, blocks - {b});
  }
}
