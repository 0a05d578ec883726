/** The doubly linked ring of rtservice.h, on the heap: a list is a ring of nodes, one of them its head. */
module IntrusiveList {

  class Node {
    var next: Node
    var prev: Node

    /** rt_list_init */
    constructor ()
      ensures next == this && prev == this && Ring([this])
    {
      next, prev := this, this;
    }
  }

  function After(i: nat, n: nat): nat {
    if i + 1 < n then i + 1 else 0
  }

  /** The nodes `s` are linked into a ring in this order, forward and back. */
  ghost predicate Ring(s: seq<Node>)
    reads s
  {
    && |s| > 0
    && (forall i, j | 0 <= i < j < |s| :: s[i] != s[j])
    && (forall i | 0 <= i < |s| :: s[i].next == s[After(i, |s|)] && s[After(i, |s|)].prev == s[i])
  }

  /** A ring read from another node on. */
  lemma Rotate(s: seq<Node>, k: nat)
    requires Ring(s) && k < |s|
    ensures Ring(s[k..] + s[..k])
  {
    var r := s[k..] + s[..k];
    forall i | 0 <= i < |r| ensures r[i].next == r[After(i, |r|)] && r[After(i, |r|)].prev == r[i] {
      var j := if i + k < |s| then i + k else i + k - |s|;
      assert r[i] == s[j] && r[After(i, |r|)] == s[After(j, |s|)];
    }
  }

  lemma Neighbours(s: seq<Node>, i: nat)
    requires Ring(s) && i < |s|
    ensures s[i].next == s[After(i, |s|)]
    ensures s[i].prev == s[if i > 0 then i - 1 else |s| - 1]
  {
    var j := if i > 0 then i - 1 else |s| - 1;
    assert After(j, |s|) == i;
  }

  /** rt_list_insert_after: `n` comes first in the list headed by `l`. */
  method InsertAfter(l: Node, n: Node, ghost s: seq<Node>)
    requires Ring(s) && s[0] == l && n !in s
    modifies l, l.next, n
    ensures Ring([l, n] + s[1..])
  {
    Neighbours(s, 0);
    l.next.prev := n;
    n.next := l.next;
    l.next := n;
    n.prev := l;
    ghost var r := [l, n] + s[1..];
    forall i | 0 <= i < |r| ensures r[i].next == r[After(i, |r|)] && r[After(i, |r|)].prev == r[i] {
      if i >= 2 {
        assert r[i] == s[i - 1] && s[i - 1].next == old(s[i - 1].next);
      }
    }
  }

  /** rt_list_insert_before: `n` comes last in the list headed by `l`. */
  method InsertBefore(l: Node, n: Node, ghost s: seq<Node>)
    requires Ring(s) && s[0] == l && n !in s
    modifies l, l.prev, n
    ensures Ring(s + [n])
  {
    Neighbours(s, 0);
    l.prev.next := n;
    n.prev := l.prev;
    l.prev := n;
    n.next := l;
    ghost var r := s + [n];
    forall i | 0 <= i < |r| ensures r[i].next == r[After(i, |r|)] && r[After(i, |r|)].prev == r[i] {
      if i + 1 < |s| {
        assert s[i].next == old(s[i].next);
      }
    }
  }

  /** rt_list_remove: `n` becomes a ring of its own, and the others close up. */
  method Remove(n: Node, ghost s: seq<Node>)
    requires Ring(s) && s[0] == n
    modifies n, n.next, n.prev
    ensures Ring([n])
    ensures |s| > 1 ==> Ring(s[1..])
  {
    Neighbours(s, 0);
    n.next.prev := n.prev;
    n.prev.next := n.next;
    n.next := n;
    n.prev := n;
    ghost var r := s[1..];
    forall i | 0 <= i < |r| ensures r[i].next == r[After(i, |r|)] && r[After(i, |r|)].prev == r[i] {
      assert r[i] == s[i + 1];
      assert i + 1 < |r| ==> s[i + 1].next == old(s[i + 1].next);
    }
  }

  /** rt_list_isempty */
  method IsEmpty(l: Node, ghost s: seq<Node>) returns (empty: bool)
    requires Ring(s) && s[0] == l
    ensures empty <==> s == [l]
  {
    Neighbours(s, 0);
    return l.next == l;
  }

  /** rt_list_len */
  method Length(l: Node, ghost s: seq<Node>) returns (len: nat)
    requires Ring(s) && s[0] == l
    ensures len == |s| - 1
  {
    len := 0;
    var p := l;
    Neighbours(s, 0);
    while p.next != l
      invariant len < |s| && p == s[len]
      decreases |s| - len
    {
      p := p.next;
      len := len + 1;
      Neighbours(s, len);
    }
  }
}
