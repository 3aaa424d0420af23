/** The structures that the macros of utlist.h link through `next` and `prev`. */
module Nodes {

  class Node<T> {
    var next: Node?<T>
    var prev: Node?<T>
    const val: T

    constructor (v: T)
      ensures val == v && next == null && prev == null
    {
      val := v;
      next, prev := null, null;
    }
  }

  ghost predicate Distinct<N>(s: seq<N>) {
    forall i, j :: 0 <= i < j < |s| ==> s[i] != s[j]
  }

  /** What the link behind position `i - 1` points to in a list that closes with `end`. */
  ghost function At<T>(s: seq<Node<T>>, i: nat, end: Node?<T>): Node?<T> {
    if i < |s| then s[i] else end
  }

  /** The nodes `s[lo..hi]` are each linked to the node after them in `s`. */
  ghost predicate Linked<T>(s: seq<Node<T>>, lo: nat, hi: nat, end: Node?<T>)
    requires hi <= |s|
    reads s
  {
    forall i :: lo <= i < hi ==> s[i].next == At(s, i + 1, end)
  }

  /** The node before position `i`, where `first` stands before the first. */
  ghost function Before<T>(s: seq<Node<T>>, i: nat, first: Node?<T>): Node?<T>
    requires i <= |s|
  {
    if i == 0 then first else s[i - 1]
  }

  ghost predicate BackLinked<T>(s: seq<Node<T>>, first: Node?<T>)
    reads s
  {
    forall i :: 0 <= i < |s| ==> s[i].prev == Before(s, i, first)
  }

  ghost function Last<T>(s: seq<Node<T>>): Node?<T> {
    if s == [] then null else s[|s| - 1]
  }

  /** A singly linked list (`LL_`): `next` leads from the head through `s` to null. */
  ghost predicate IsLL<T>(head: Node?<T>, s: seq<Node<T>>)
    reads s
  {
    Distinct(s) && head == At(s, 0, null) && Linked(s, 0, |s|, null)
  }

  /** A doubly linked list (`DL_`): `prev` leads back, and `head->prev` is the last node. */
  ghost predicate IsDL<T>(head: Node?<T>, s: seq<Node<T>>)
    reads s
  {
    Distinct(s) && head == At(s, 0, null) && Linked(s, 0, |s|, null) && BackLinked(s, Last(s))
  }

  /** A circular doubly linked list (`CDL_`): moreover the last node leads to the head. */
  ghost predicate IsCDL<T>(head: Node?<T>, s: seq<Node<T>>)
    reads s
  {
    Distinct(s) && head == At(s, 0, null) && Linked(s, 0, |s|, head) && BackLinked(s, Last(s))
  }

  // ---- taking lists apart and putting them together -----------------------------------------------

  lemma SplitLinks<T>(s: seq<Node<T>>, k: nat, end: Node?<T>)
    requires k <= |s| && Linked(s, 0, |s|, end)
    ensures Linked(s[..k], 0, k, At(s, k, end)) && Linked(s[k..], 0, |s| - k, end)
  {
    forall i | 0 <= i < |s| - k
      ensures s[k..][i].next == At(s[k..], i + 1, end)
    {
      assert s[k + i].next == At(s, k + i + 1, end);
    }
  }

  lemma JoinLinks<T>(a: seq<Node<T>>, b: seq<Node<T>>, end: Node?<T>)
    requires Linked(a, 0, |a|, At(b, 0, end)) && Linked(b, 0, |b|, end)
    ensures Linked(a + b, 0, |a + b|, end)
  {
    forall i | 0 <= i < |a + b|
      ensures (a + b)[i].next == At(a + b, i + 1, end)
    {
      if i < |a| {
        assert a[i].next == At(a, i + 1, At(b, 0, end));
      } else {
        assert b[i - |a|].next == At(b, i - |a| + 1, end);
      }
    }
  }

  /** A stretch of a doubly linked list, between the nodes `first` and `end` that its ends point to. */
  ghost predicate Stretch<T>(s: seq<Node<T>>, first: Node?<T>, end: Node?<T>)
    reads s
  {
    Linked(s, 0, |s|, end) && BackLinked(s, first)
  }

  lemma SplitStretch<T>(s: seq<Node<T>>, k: nat, first: Node?<T>, end: Node?<T>)
    requires k <= |s| && Stretch(s, first, end)
    ensures Stretch(s[..k], first, At(s, k, end))
    ensures Stretch(s[k..], Before(s, k, first), end)
  {
    SplitLinks(s, k, end);
    forall i | 0 <= i < |s| - k
      ensures s[k..][i].prev == Before(s[k..], i, Before(s, k, first))
    {
      assert s[k + i].prev == Before(s, k + i, first);
    }
  }

  lemma JoinStretch<T>(a: seq<Node<T>>, b: seq<Node<T>>, first: Node?<T>, end: Node?<T>)
    requires Stretch(a, first, At(b, 0, end)) && Stretch(b, Before(a, |a|, first), end)
    ensures Stretch(a + b, first, end)
  {
    JoinLinks(a, b, end);
    forall i | 0 <= i < |a + b|
      ensures (a + b)[i].prev == Before(a + b, i, first)
    {
      if i < |a| {
        assert a[i].prev == Before(a, i, first);
      } else {
        assert b[i - |a|].prev == Before(b, i - |a|, Before(a, |a|, first));
      }
    }
  }

  /** `n->next = to` on the last node of a stretch. */
  method AssignNext<T>(n: Node<T>, to: Node?<T>, ghost s: seq<Node<T>>, ghost first: Node?<T>, ghost end: Node?<T>)
    requires s != [] && n == s[|s| - 1] && Distinct(s) && Stretch(s, first, end)
    modifies n`next
    ensures n.next == to && Stretch(s, first, to)
  {
    n.next := to;
    forall i | 0 <= i < |s|
      ensures s[i].next == At(s, i + 1, to)
    {
      assert old(s[i].next) == At(s, i + 1, end);
    }
  }

  /** `n->prev = to` on the first node of a stretch. */
  method AssignPrev<T>(n: Node<T>, to: Node?<T>, ghost s: seq<Node<T>>, ghost first: Node?<T>, ghost end: Node?<T>)
    requires s != [] && n == s[0] && Distinct(s) && Stretch(s, first, end)
    modifies n`prev
    ensures n.prev == to && Stretch(s, to, end)
  {
    n.prev := to;
    forall i | 0 <= i < |s|
      ensures s[i].prev == Before(s, i, to)
    {
      assert old(s[i].prev) == Before(s, i, first);
    }
  }

  /** The outer links of a stretch. */
  lemma StretchEnds<T>(s: seq<Node<T>>, first: Node?<T>, end: Node?<T>)
    requires s != [] && Stretch(s, first, end)
    ensures s[0].prev == first && s[|s| - 1].next == end
  {
    assert s[0].prev == Before(s, 0, first);
    assert s[|s| - 1].next == At(s, |s|, end);
  }

  ghost predicate Disjoint<N>(a: seq<N>, b: seq<N>) {
    forall i, j :: 0 <= i < |a| && 0 <= j < |b| ==> a[i] != b[j]
  }

  lemma DistinctConcat<N>(a: seq<N>, b: seq<N>)
    requires Distinct(a) && Distinct(b) && Disjoint(a, b)
    ensures Distinct(a + b)
  {
  }

  lemma DistinctParts<N>(s: seq<N>, k: nat)
    requires Distinct(s) && k < |s|
    ensures var a, b := s[..k], s[k + 1..];
      && Distinct(a) && Distinct(b) && Disjoint(a, b) && Distinct(a + b)
      && s[k] !in a && s[k] !in b && s == a + [s[k]] + b
  {
  }

  /** In a circular list `prev` and `next` undo each other. */
  lemma LinksAreInverse<T>(head: Node?<T>, s: seq<Node<T>>, i: nat)
    requires IsCDL(head, s) && i < |s|
    ensures s[i].next != null && s[i].next.prev == s[i]
    ensures s[i].prev != null && s[i].prev.next == s[i]
  {
    assert s[i].next == At(s, i + 1, head);
    assert s[i].prev == Before(s, i, Last(s));
    if i + 1 < |s| {
      assert s[i + 1].prev == Before(s, i + 1, Last(s));
    } else {
      assert s[0].prev == Before(s, 0, Last(s));
    }
    if i > 0 {
      assert s[i - 1].next == At(s, i, head);
    } else {
      assert s[|s| - 1].next == At(s, |s|, head);
    }
  }
}
