/** The macros of utlist.h for circular doubly linked lists: the last node leads back to the head. */
module RingMacros {
  import opened Nodes
  import opened ListMacros

  /** A circular list that has elements. */
  ghost predicate Ring<T>(s: seq<Node<T>>)
    reads s
  {
    s != [] && Chain(s, s[0])
  }

  lemma RingIsCDL<T>(head: Node?<T>, s: seq<Node<T>>)
    ensures Ring(s) && head == s[0] ==> IsCDL(head, s)
    ensures s != [] && IsCDL(head, s) ==> Ring(s) && head == s[0]
  {
  }

  /** A ring has no first node but the one that `head` names. */
  lemma RotateRing<T>(a: seq<Node<T>>, b: seq<Node<T>>)
    requires Ring(a + b)
    ensures Ring(b + a)
  {
    if a == [] || b == [] {
      assert a + b == b + a;
    } else {
      var s := a + b;
      assert s[..|a|] == a && s[|a|..] == b;
      DistinctHalves(s, |a|);
      SplitStretch(s, |a|, Last(s), s[0]);
      JoinChain(b, a, b[0]);
    }
  }

  lemma Regroup<N>(a: seq<N>, x: N, b: seq<N>)
    ensures [x] + (b + a) == ([x] + b) + a
    ensures ([x] + (b + a))[..0] == [] && ([x] + (b + a))[1..] == b + a
  {
  }

  /** What lies on either side of `x`. */
  lemma Sides<T>(s: seq<Node<T>>, x: Node<T>, y: Node<T>) returns (a: seq<Node<T>>, b: seq<Node<T>>)
    requires Distinct(s) && x in s
    ensures s == a + ([x] + b)
    ensures forall i :: 0 <= i < |a| ==> a[i] in s
    ensures forall i :: 0 <= i < |b| ==> b[i] in s
    ensures Without(s, x) == a + b
    ensures Exchanged(s, x, y) == a + ([y] + b)
    ensures Inserted(s, x, y) == a + ([y] + ([x] + b))
    ensures x == s[0] <==> a == []
    ensures |s| == 1 <==> b + a == []
  {
    var k := IndexOf(s, x);
    a, b := s[..k], s[k + 1..];
    WithoutAt(s, k);
    assert s[k..] == [x] + b;
    assert s == a + s[k..];
    ExchangedAt(s, k, y);
    InsertedAt(s, k, y);
  }

  /** Seen from any of its nodes, the others are one stretch that starts and ends there. */
  lemma OpenRing<T>(a: seq<Node<T>>, x: Node<T>, b: seq<Node<T>>)
    requires Ring(a + ([x] + b)) && b + a != []
    ensures Distinct(b + a) && x !in b + a
    ensures Stretch(b + a, x, x) && x.next == (b + a)[0] && x.prev == (b + a)[|b + a| - 1]
  {
    RotateRing(a, [x] + b);
    Regroup(a, x, b);
    OpenFirst(x, b + a);
  }

  lemma OpenFirst<T>(x: Node<T>, r: seq<Node<T>>)
    requires Ring([x] + r) && r != []
    ensures Distinct(r) && x !in r
    ensures Stretch(r, x, x) && x.next == r[0] && x.prev == r[|r| - 1]
  {
    var t := [x] + r;
    assert t[1..] == r && t[0] == x && Last(t) == r[|r| - 1];
    ApartAround(t, 0, x);
  }

  /** `n->prev = p; p->next = n` on the two ends of a stretch: it is closed to a ring. */
  method CloseRing<T>(p: Node<T>, n: Node<T>, ghost s: seq<Node<T>>, ghost first: Node?<T>, ghost end: Node?<T>)
    requires s != [] && p == s[|s| - 1] && n == s[0] && Distinct(s) && Stretch(s, first, end)
    modifies p`next, n`prev
    ensures Ring(s)
  {
    AssignPrev(n, p, s, first, end);
    AssignNext(p, n, s, p, end);
  }

  /** `add` in front of the ring `s`, which then ends at `add`. */
  method CloseAround<T>(add: Node<T>, ghost s: seq<Node<T>>, ghost first: Node?<T>, ghost end: Node?<T>)
    requires s != [] && Distinct(s) && Stretch(s, first, end) && add !in s
    requires add.next == s[0] && add.prev == s[|s| - 1]
    modifies s
    ensures Ring([add] + s)
  {
    AssignPrev(add.next, add, s, first, end);
    AssignNext(add.prev, add, s, add, end);
    LastOfConcat([add], s);
    JoinAround([], add, s, add);
    assert [] + ([add] + s) == [add] + s;
  }

  method AloneInRing<T>(add: Node<T>)
    modifies add
    ensures Ring([add])
  {
    add.next := add;
    add.prev := add;
  }

  lemma RingEnds<T>(s: seq<Node<T>>, k: nat)
    requires Ring(s) && k < |s|
    ensures s[k].next == s[k] <==> |s| == 1
    ensures s[k] == s[0] <==> k == 0
    ensures s[0].prev == s[|s| - 1] && s[|s| - 1].next == s[0]
  {
    assert s[k].next == At(s, k + 1, s[0]);
    StretchEnds(s, Last(s), s[0]);
  }

  lemma DelIsAlone<T>(head: Node<T>, del: Node<T>, s: seq<Node<T>>)
    requires Ring(s) && head == s[0] && del in s
    ensures del.next == del <==> |s| == 1
    ensures head == del ==> (head.next == head <==> |s| == 1)
  {
    var k :| 0 <= k < |s| && s[k] == del;
    RingEnds(s, k);
  }

  /** `CDL_PREPEND`. */
  method CDLPrepend<T>(head: Node?<T>, add: Node<T>, ghost s: seq<Node<T>>) returns (newHead: Node<T>)
    requires IsCDL(head, s) && add !in s
    modifies s, add
    ensures IsCDL(newHead, [add] + s)
  {
    if head != null {
      RingIsCDL(head, s);
      RingEnds(s, 0);
      add.prev := head.prev;
      add.next := head;
      CloseAround(add, s, Last(s), s[0]);
    } else {
      AloneInRing(add);
      assert [add] + s == [add];
    }
    newHead := add;
    RingIsCDL(newHead, [add] + s);
  }

  /** `CDL_DELETE`. */
  method CDLDelete<T>(head: Node<T>, del: Node<T>, ghost s: seq<Node<T>>) returns (newHead: Node?<T>)
    requires IsCDL(head, s) && del in s
    modifies s
    ensures IsCDL(newHead, Without(s, del))
  {
    RingIsCDL(head, s);
    ghost var a, b := Sides(s, del, del);
    DelIsAlone(head, del, s);
    newHead := head;
    if head == del && head.next == head {
      newHead := null;
    } else {
      Unlink(del, a, b);
      if del == head {
        newHead := del.next;
      }
      RingIsCDL(newHead, a + b);
    }
  }

  method Unlink<T>(del: Node<T>, ghost a: seq<Node<T>>, ghost b: seq<Node<T>>)
    requires Ring(a + ([del] + b)) && b + a != []
    modifies a, b
    ensures Ring(a + b)
    ensures a == [] ==> del.next == b[0]
  {
    OpenRing(a, del, b);
    CloseRing(del.prev, del.next, b + a, del, del);
    RotateRing(b, a);
  }

  /** `CDL_REPLACE_ELEM`. */
  method CDLReplaceElem<T>(head: Node<T>, el: Node<T>, add: Node<T>, ghost s: seq<Node<T>>) returns (newHead: Node<T>)
    requires IsCDL(head, s) && el in s && add !in s
    modifies s, add
    ensures IsCDL(newHead, Exchanged(s, el, add))
  {
    RingIsCDL(head, s);
    ghost var a, b := Sides(s, el, add);
    DelIsAlone(head, el, s);
    newHead := head;
    if el.next == el {
      AloneInRing(add);
      newHead := add;
    } else {
      Supplant(el, add, a, b);
      if head == el {
        newHead := add;
      }
    }
    RingIsCDL(newHead, a + ([add] + b));
  }

  method Supplant<T>(el: Node<T>, add: Node<T>, ghost a: seq<Node<T>>, ghost b: seq<Node<T>>)
    requires Ring(a + ([el] + b)) && b + a != [] && add !in b + a && add != el
    modifies a, b, add
    ensures Ring(a + ([add] + b))
  {
    OpenRing(a, el, b);
    add.next := el.next;
    add.prev := el.prev;
    CloseAround(add, b + a, el, el);
    Regroup(a, add, b);
    RotateRing([add] + b, a);
  }

  /** `CDL_PREPEND_ELEM`. */
  method CDLPrependElem<T>(head: Node<T>, el: Node<T>, add: Node<T>, ghost s: seq<Node<T>>) returns (newHead: Node<T>)
    requires IsCDL(head, s) && el in s && add !in s
    modifies s, add
    ensures IsCDL(newHead, Inserted(s, el, add))
  {
    RingIsCDL(head, s);
    ghost var a, b := Sides(s, el, add);
    newHead := head;
    ghost var b' := [el] + b;
    PutBefore(el, add, a, b');
    if head == el {
      newHead := add;
    }
    RingIsCDL(newHead, a + ([add] + b'));
  }

  method PutBefore<T>(el: Node<T>, add: Node<T>, ghost a: seq<Node<T>>, ghost b: seq<Node<T>>)
    requires Ring(a + b) && b != [] && el == b[0] && add !in b + a
    modifies a, b, add
    ensures Ring(a + ([add] + b))
  {
    RotateRing(a, b);
    RingEnds(b + a, 0);
    add.next := el;
    add.prev := el.prev;
    CloseAround(add, b + a, Last(b + a), el);
    Regroup(a, add, b);
    RotateRing([add] + b, a);
  }
}
