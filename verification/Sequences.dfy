/** Lists of numbers: threads, blocks, timers and zones are all named by one. */
module Sequences {

  ghost predicate NoRepeats(s: seq<int>) {
    forall i, j | 0 <= i < j < |s| :: s[i] != s[j]
  }

  /** `t` left the list; the others keep their order. */
  ghost predicate Dropped(before: seq<int>, after: seq<int>, t: int) {
    exists i: nat :: i < |before| && before[i] == t && after == before[..i] + before[i + 1..]
  }
}
