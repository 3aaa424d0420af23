/** The macros of utlist.h that add, remove and exchange elements, on a list variable `head`. */
module ListMacros {
  import opened Nodes

  // ---- what they do to the sequence of elements --------------------------------------------------

  function IndexOf<N(==)>(s: seq<N>, x: N): (i: nat)
    requires x in s
    ensures i < |s| && s[i] == x && x !in s[..i]
  {
    if s[0] == x then 0 else 1 + IndexOf(s[1..], x)
  }

  /** `s` without the first `x`. */
  function Without<N(==)>(s: seq<N>, x: N): seq<N> {
    if x in s then var i := IndexOf(s, x); s[..i] + s[i + 1..] else s
  }

  /** `s` with `y` in the place of `x`. */
  function Exchanged<N(==)>(s: seq<N>, x: N, y: N): seq<N> {
    if x in s then s[IndexOf(s, x) := y] else s
  }

  /** `s` with `y` in front of `x`. */
  function Inserted<N(==)>(s: seq<N>, x: N, y: N): seq<N> {
    if x in s then var i := IndexOf(s, x); s[..i] + [y] + s[i..] else s
  }

  lemma DistinctIndex<N>(s: seq<N>, i: nat)
    requires Distinct(s) && i < |s|
    ensures IndexOf(s, s[i]) == i
  {
  }

  lemma InsertDistinct<N>(s: seq<N>, k: nat, x: N)
    requires Distinct(s) && k <= |s| && x !in s
    ensures Distinct(s[..k] + [x] + s[k..])
    ensures s[..k] + [x] + s[k..] == s[..k] + ([x] + s[k..])
  {
  }

  lemma ExchangeDistinct<N>(s: seq<N>, k: nat, x: N)
    requires Distinct(s) && k < |s| && x !in s
    ensures Distinct(s[k := x])
    ensures s[k := x] == s[..k] + ([x] + s[k + 1..])
  {
  }

  // ---- singly linked -----------------------------------------------------------------------------

  /** A variable `head` used with the `LL_` macros. */
  class LList<T> {
    var head: Node?<T>
    ghost var nodes: seq<Node<T>>

    ghost predicate Valid()
      reads this, nodes
    {
      IsLL(head, nodes)
    }

    constructor ()
      ensures Valid() && nodes == []
    {
      head, nodes := null, [];
    }

    /** `LL_PREPEND`. */
    method Prepend(add: Node<T>)
      requires Valid() && add !in nodes
      modifies this, add`next
      ensures Valid() && nodes == [add] + old(nodes)
    {
      add.next := head;
      head := add;
      nodes := [add] + nodes;
    }

    /** The walk of the macros to the element in front of `el`, or to the last one. */
    method FindBefore(el: Node?<T>) returns (tmp: Node<T>, ghost k: nat)
      requires Valid() && nodes != [] && nodes[0] != el
      ensures k < |nodes| && tmp == nodes[k]
      ensures if el != null && el in nodes then k + 1 == IndexOf(nodes, el) else k + 1 == |nodes|
    {
      tmp, k := head, 0;
      assert tmp.next == At(nodes, k + 1, null);
      while tmp.next != null && tmp.next != el
        invariant k < |nodes| && tmp == nodes[k] && tmp.next == At(nodes, k + 1, null)
        invariant el !in nodes[..k + 1]
        decreases |nodes| - k
      {
        tmp, k := tmp.next, k + 1;
        assert tmp.next == At(nodes, k + 1, null);
      }
      assert nodes[..k + 1] + nodes[k + 1..] == nodes;
    }

    /** `LL_APPEND`. */
    method Append(add: Node<T>)
      requires Valid() && add !in nodes
      modifies this, nodes, add`next
      ensures Valid() && nodes == old(nodes) + [add]
    {
      add.next := null;
      if head != null {
        var tmp, k := FindBefore(null);
        tmp.next := add;
      } else {
        head := add;
      }
      nodes := nodes + [add];
    }

    /** `LL_CONCAT`. */
    method Concat(head2: Node?<T>, ghost nodes2: seq<Node<T>>)
      requires Valid() && IsLL(head2, nodes2) && Disjoint(nodes, nodes2)
      modifies this, nodes
      ensures Valid() && nodes == old(nodes) + nodes2
    {
      if head != null {
        var tmp, k := FindBefore(null);
        tmp.next := head2;
        assert Linked(nodes, 0, |nodes|, head2);
      } else {
        head := head2;
      }
      JoinLinks(nodes, nodes2, null);
      nodes := nodes + nodes2;
    }

    /** `tmp->next = to` on the node at position `k`: the list now ends behind it, with `to`. */
    method Relink(tmp: Node<T>, to: Node?<T>, ghost k: nat)
      requires Valid() && k < |nodes| && tmp == nodes[k]
      modifies tmp`next
      ensures Linked(nodes[..k + 1], 0, k + 1, to)
      ensures Linked(nodes[k + 1..], 0, |nodes| - k - 1, null)
    {
      SplitLinks(nodes, k + 1, null);
      tmp.next := to;
    }

    /** `tmp->next = del->next`. */
    method UnlinkNext(tmp: Node<T>, del: Node<T>, ghost k: nat)
      requires Valid() && k + 1 < |nodes| && tmp == nodes[k] && del == nodes[k + 1]
      modifies this`nodes, tmp`next
      ensures Valid() && nodes == old(nodes)[..k + 1] + old(nodes)[k + 2..]
    {
      ghost var a, b := nodes[..k + 1], nodes[k + 1..];
      assert del.next == At(nodes, k + 2, null);
      Relink(tmp, del.next, k);
      SplitLinks(b, 1, null);
      assert b[1..] == nodes[k + 2..];
      JoinLinks(a, b[1..], null);
      DistinctParts(nodes, k + 1);
      nodes := a + nodes[k + 2..];
    }

    method UnlinkFirst()
      requires Valid() && nodes != []
      modifies this
      ensures Valid() && nodes == old(nodes)[1..]
    {
      SplitLinks(nodes, 1, null);
      assert nodes[0].next == At(nodes, 1, null);
      head := head.next;
      nodes := nodes[1..];
    }

    /** `LL_DELETE`: an element that is not in the list leaves it alone. */
    method Delete(del: Node<T>)
      requires Valid() && nodes != []
      modifies this, nodes
      ensures Valid() && nodes == Without(old(nodes), del)
    {
      if head == del {
        UnlinkFirst();
      } else {
        var tmp, k := FindBefore(del);
        assert tmp.next == At(nodes, k + 1, null);
        if tmp.next != null {
          UnlinkNext(tmp, del, k);
        }
      }
    }

    /** `tmp->next = add`, `add` leading on. */
    method InsertNext(tmp: Node<T>, add: Node<T>, ghost k: nat)
      requires Valid() && k + 1 < |nodes| && tmp == nodes[k] && add !in nodes && add.next == nodes[k + 1]
      modifies this`nodes, tmp`next
      ensures Valid() && nodes == old(nodes)[..k + 1] + [add] + old(nodes)[k + 1..]
    {
      ghost var a, b := nodes[..k + 1], nodes[k + 1..];
      Relink(tmp, add, k);
      JoinLinks([add], b, null);
      JoinLinks(a, [add] + b, null);
      InsertDistinct(nodes, k + 1, add);
      nodes := a + [add] + b;
    }

    method InsertFirst(add: Node<T>)
      requires Valid() && nodes != [] && add !in nodes && add.next == head
      modifies this
      ensures Valid() && nodes == [add] + old(nodes)
    {
      JoinLinks([add], nodes, null);
      head := add;
      nodes := [add] + nodes;
    }

    /** `LL_PREPEND_ELEM`. */
    method PrependElem(el: Node<T>, add: Node<T>)
      requires Valid() && nodes != [] && add !in nodes
      modifies this, nodes, add`next
      ensures Valid() && nodes == Inserted(old(nodes), el, add)
    {
      add.next := el;
      if head == el {
        InsertFirst(add);
      } else {
        var tmp, k := FindBefore(el);
        assert tmp.next == At(nodes, k + 1, null);
        if tmp.next != null {
          InsertNext(tmp, add, k);
        }
      }
    }

    /** `tmp->next = add`, `add` leading past the next node. */
    method ExchangeNext(tmp: Node<T>, add: Node<T>, ghost k: nat)
      requires Valid() && k + 1 < |nodes| && tmp == nodes[k] && add !in nodes && add.next == nodes[k + 1].next
      modifies this`nodes, tmp`next
      ensures Valid() && nodes == old(nodes)[k + 1 := add]
    {
      ghost var a, b := nodes[..k + 1], nodes[k + 1..];
      assert add.next == At(nodes, k + 2, null);
      Relink(tmp, add, k);
      SplitLinks(b, 1, null);
      assert b[1..] == nodes[k + 2..];
      JoinLinks([add], b[1..], null);
      JoinLinks(a, [add] + b[1..], null);
      ExchangeDistinct(nodes, k + 1, add);
      nodes := nodes[k + 1 := add];
    }

    method ExchangeFirst(add: Node<T>)
      requires Valid() && nodes != [] && add !in nodes && add.next == head.next
      modifies this
      ensures Valid() && nodes == old(nodes)[0 := add]
    {
      assert add.next == At(nodes, 1, null);
      SplitLinks(nodes, 1, null);
      JoinLinks([add], nodes[1..], null);
      ExchangeDistinct(nodes, 0, add);
      assert [] + ([add] + nodes[1..]) == [add] + nodes[1..];
      head := add;
      nodes := nodes[0 := add];
    }

    /** `LL_REPLACE_ELEM`. */
    method Replace(el: Node<T>, add: Node<T>)
      requires Valid() && nodes != [] && add !in nodes
      modifies this, nodes, add`next
      ensures Valid() && nodes == Exchanged(old(nodes), el, add)
    {
      add.next := el.next;
      if head == el {
        ExchangeFirst(add);
      } else {
        var tmp, k := FindBefore(el);
        assert tmp.next == At(nodes, k + 1, null);
        if tmp.next != null {
          ExchangeNext(tmp, add, k);
        }
      }
    }
  }

  // ---- doubly linked, closed at the end with null or with the head -------------------------------

  /** The nodes of a doubly linked list: `prev` of the first is the last. */
  ghost predicate Chain<T>(s: seq<Node<T>>, end: Node?<T>)
    reads s
  {
    Distinct(s) && Stretch(s, Last(s), end)
  }

  lemma LastOfConcat<T>(a: seq<Node<T>>, b: seq<Node<T>>)
    requires b != []
    ensures Last(a + b) == Last(b)
  {
  }

  /** Two stretches that point at each other's ends make one list. */
  lemma JoinChain<T>(a: seq<Node<T>>, b: seq<Node<T>>, end: Node?<T>)
    requires b != [] && Distinct(a) && Distinct(b) && Disjoint(a, b)
    requires Stretch(a, Last(b), b[0]) && Stretch(b, Before(a, |a|, Last(b)), end)
    ensures Chain(a + b, end)
  {
    JoinStretch(a, b, Last(b), end);
    DistinctConcat(a, b);
    LastOfConcat(a, b);
  }

  /** `x` between `a` and `b`, all pointing at each other. */
  lemma JoinAround<T>(a: seq<Node<T>>, x: Node<T>, b: seq<Node<T>>, end: Node?<T>)
    requires Distinct(a) && Distinct(b) && Disjoint(a, b) && x !in a && x !in b
    requires Stretch(a, Last([x] + b), x) && Stretch(b, x, end)
    requires x.prev == Before(a, |a|, Last([x] + b)) && x.next == At(b, 0, end)
    ensures Chain(a + ([x] + b), end)
  {
    assert Stretch([x], x.prev, At(b, 0, end));
    JoinStretch([x], b, x.prev, end);
    DistinctConcat([x], b);
    JoinChain(a, [x] + b, end);
  }

  /** A list taken apart around position `k`. */
  lemma ApartAround<T>(s: seq<Node<T>>, k: nat, end: Node?<T>)
    requires Chain(s, end) && k < |s|
    ensures var a, x, b := s[..k], s[k], s[k + 1..];
      && Distinct(a) && Distinct(b) && Disjoint(a, b) && x !in a && x !in b && Distinct(a + b)
      && Stretch(a, Last(s), x) && Stretch(b, x, end)
      && x.prev == Before(a, |a|, Last(s)) && x.next == At(b, 0, end)
  {
    DistinctParts(s, k);
    SplitStretch(s, k, Last(s), end);
    SplitStretch(s, k + 1, Last(s), end);
    assert s[k].prev == Before(s, k, Last(s));
    assert s[k].next == At(s, k + 1, end);
  }

  // ---- doubly linked: `head` goes in and comes out ------------------------------------------------

  /** A node that is linked to itself at its back only. */
  method Alone<T>(add: Node<T>)
    modifies add
    ensures IsDL(add, [add])
  {
    add.next := null;
    add.prev := add;
  }

  method DLPrependToSome<T>(head: Node<T>, add: Node<T>, ghost s: seq<Node<T>>)
    requires Chain(s, null) && s != [] && head == s[0] && add !in s
    modifies head`prev, add
    ensures Chain([add] + s, null)
  {
    ghost var last := Last(s);
    StretchEnds(s, last, null);
    add.next := head;
    add.prev := head.prev;
    AssignPrev(head, add, s, last, null);
    LastOfConcat([add], s);
    JoinAround([], add, s, null);
    assert [] + ([add] + s) == [add] + s;
  }

  /** `DL_PREPEND`. */
  method DLPrepend<T>(head: Node?<T>, add: Node<T>, ghost s: seq<Node<T>>) returns (newHead: Node<T>)
    requires IsDL(head, s) && add !in s
    modifies s, add
    ensures IsDL(newHead, [add] + s)
  {
    if head != null {
      DLPrependToSome(head, add, s);
    } else {
      assert [add] + s == [add];
      Alone(add);
    }
    newHead := add;
  }

  method DLAppendToSome<T>(head: Node<T>, add: Node<T>, ghost s: seq<Node<T>>)
    requires Chain(s, null) && s != [] && head == s[0] && add !in s
    modifies s, add
    ensures Chain(s + [add], null)
  {
    ghost var last := Last(s);
    StretchEnds(s, last, null);
    add.prev := head.prev;
    AssignNext(head.prev, add, s, last, null);
    AssignPrev(head, add, s, last, add);
    add.next := null;
    assert [add] + [] == [add];
    JoinAround(s, add, [], null);
  }

  /** `DL_APPEND`. */
  method DLAppend<T>(head: Node?<T>, add: Node<T>, ghost s: seq<Node<T>>) returns (newHead: Node<T>)
    requires IsDL(head, s) && add !in s
    modifies s, add
    ensures IsDL(newHead, s + [add])
  {
    if head != null {
      DLAppendToSome(head, add, s);
      newHead := head;
    } else {
      assert s + [add] == [add];
      Alone(add);
      newHead := add;
    }
  }

  method DLConcatSome<T>(head: Node<T>, head2: Node<T>, ghost s: seq<Node<T>>, ghost s2: seq<Node<T>>)
    requires Chain(s, null) && s != [] && head == s[0]
    requires Chain(s2, null) && s2 != [] && head2 == s2[0] && Disjoint(s, s2)
    modifies s, s2
    ensures Chain(s + s2, null)
  {
    ghost var last, last2 := Last(s), Last(s2);
    StretchEnds(s, last, null);
    StretchEnds(s2, last2, null);
    var tmp := head2.prev;
    AssignPrev(head2, head.prev, s2, last2, null);
    AssignNext(head.prev, head2, s, last, null);
    AssignPrev(head, tmp, s, last, head2);
    JoinChain(s, s2, null);
  }

  /** `DL_CONCAT`. */
  method DLConcat<T>(head: Node?<T>, head2: Node?<T>, ghost s: seq<Node<T>>, ghost s2: seq<Node<T>>)
      returns (newHead: Node?<T>)
    requires IsDL(head, s) && IsDL(head2, s2) && Disjoint(s, s2)
    modifies s, s2
    ensures IsDL(newHead, s + s2)
  {
    newHead := head;
    if head2 != null {
      if head != null {
        DLConcatSome(head, head2, s, s2);
      } else {
        assert s + s2 == s2;
        newHead := head2;
      }
    } else {
      assert s + s2 == s;
    }
  }

  /** `p->next = n; n->prev = p` between two stretches that `x` used to separate. */
  method Bridge<T>(p: Node<T>, n: Node<T>, ghost a: seq<Node<T>>, ghost b: seq<Node<T>>, ghost x: Node<T>,
                   ghost end: Node?<T>)
    requires a != [] && b != [] && p == a[|a| - 1] && n == b[0]
    requires Distinct(a) && Distinct(b) && Disjoint(a, b)
    requires Stretch(a, Last(b), x) && Stretch(b, x, end)
    modifies p`next, n`prev
    ensures Chain(a + b, end)
  {
    AssignNext(p, n, a, Last(b), x);
    AssignPrev(n, p, b, x, end);
    JoinChain(a, b, end);
  }

  /** `del` is taken out from between two neighbours. */
  method DeleteInside<T>(del: Node<T>, ghost s: seq<Node<T>>, ghost k: nat, ghost end: Node?<T>)
    requires Chain(s, end) && 0 < k < |s| - 1 && del == s[k]
    modifies s
    ensures Chain(s[..k] + s[k + 1..], end)
  {
    ApartAround(s, k, end);
    Bridge(del.prev, del.next, s[..k], s[k + 1..], del, end);
  }

  method DLDeleteLast<T>(head: Node<T>, del: Node<T>, ghost s: seq<Node<T>>)
    requires Chain(s, null) && |s| > 1 && head == s[0] && del == s[|s| - 1]
    modifies s
    ensures Chain(s[..|s| - 1], null)
  {
    ghost var a := s[..|s| - 1];
    ApartAround(s, |s| - 1, null);
    AssignNext(del.prev, del.next, a, del, del);
    AssignPrev(head, del.prev, a, del, null);
  }

  method DLDeleteFirst<T>(del: Node<T>, ghost s: seq<Node<T>>)
    requires Chain(s, null) && |s| > 1 && del == s[0]
    modifies s
    ensures del.next == s[1] && Chain(s[1..], null)
  {
    ApartAround(s, 0, null);
    AssignPrev(del.next, del.prev, s[1..], del, null);
  }

  /** Which of its three cases `DL_DELETE` takes. */
  lemma DeleteCase<T>(head: Node<T>, s: seq<Node<T>>, k: nat)
    requires IsDL(head, s) && k < |s|
    ensures s[k].prev == s[k] <==> |s| == 1
    ensures s[k] == head <==> k == 0
    ensures s[k].next == null <==> k == |s| - 1
  {
    assert s[k].prev == Before(s, k, Last(s));
    assert s[k].next == At(s, k + 1, null);
  }

  lemma WithoutAt<T>(s: seq<Node<T>>, k: nat)
    requires Distinct(s) && k < |s|
    ensures Without(s, s[k]) == s[..k] + s[k + 1..]
    ensures k == 0 ==> Without(s, s[k]) == s[1..]
    ensures k == |s| - 1 ==> Without(s, s[k]) == s[..k]
  {
    DistinctIndex(s, k);
  }

  lemma ChainIsDL<T>(head: Node?<T>, s: seq<Node<T>>)
    requires Chain(s, null) && head == At(s, 0, null)
    ensures IsDL(head, s)
  {
  }

  /** `DL_DELETE`. */
  method DLDelete<T>(head: Node<T>, del: Node<T>, ghost s: seq<Node<T>>) returns (newHead: Node?<T>)
    requires IsDL(head, s) && del in s
    modifies s
    ensures IsDL(newHead, Without(s, del))
  {
    ghost var k := IndexOf(s, del);
    assert Chain(s, null);
    WithoutAt(s, k);
    DeleteCase(head, s, k);
    newHead := head;
    if del.prev == del {
      newHead := null;
    } else if del == head {
      DLDeleteFirst(del, s);
      newHead := del.next;
      ChainIsDL(newHead, s[1..]);
    } else if del.next != null {
      DeleteInside(del, s, k, null);
      ChainIsDL(newHead, s[..k] + s[k + 1..]);
    } else {
      DLDeleteLast(head, del, s);
      ChainIsDL(newHead, s[..k]);
    }
  }

  lemma InsertedAt<T>(s: seq<Node<T>>, k: nat, add: Node<T>)
    requires Distinct(s) && k < |s|
    ensures Inserted(s, s[k], add) == s[..k] + ([add] + s[k..])
    ensures k == 0 ==> Inserted(s, s[k], add) == [add] + s
  {
    DistinctIndex(s, k);
  }

  lemma DistinctHalves<N>(s: seq<N>, k: nat)
    requires Distinct(s) && k <= |s|
    ensures Distinct(s[..k]) && Distinct(s[k..]) && Disjoint(s[..k], s[k..])
  {
  }

  /** A list taken apart in front of position `k`. */
  lemma ApartAt<T>(s: seq<Node<T>>, k: nat, end: Node?<T>, a: seq<Node<T>>, b: seq<Node<T>>)
    requires Chain(s, end) && 0 < k < |s| && a == s[..k] && b == s[k..]
    ensures Distinct(a) && Distinct(b) && Disjoint(a, b)
    ensures Stretch(a, Last(b), b[0]) && Stretch(b, Last(a), end)
  {
    DistinctHalves(s, k);
    SplitStretch(s, k, Last(s), end);
    assert Last(b) == Last(s) && Last(a) == Before(s, k, Last(s)) && b[0] == At(s, k, end);
  }

  /** `add` goes between `a` and `b`, in front of the first node of `b`. */
  method InsertBetween<T>(el: Node<T>, add: Node<T>, ghost a: seq<Node<T>>, ghost b: seq<Node<T>>,
                          ghost end: Node?<T>)
    requires a != [] && b != [] && el == b[0] && Distinct(a) && Distinct(b) && Disjoint(a, b)
    requires add !in a && add !in b
    requires Stretch(a, Last(b), el) && Stretch(b, Last(a), end)
    modifies a, b, add
    ensures Chain(a + ([add] + b), end)
  {
    StretchEnds(b, Last(a), end);
    add.next := el;
    add.prev := el.prev;
    AssignPrev(el, add, b, Last(a), end);
    AssignNext(add.prev, add, a, Last(b), el);
    LastOfConcat([add], b);
    JoinAround(a, add, b, end);
  }

  method PrependElemInside<T>(el: Node<T>, add: Node<T>, ghost s: seq<Node<T>>, ghost k: nat, ghost end: Node?<T>)
    requires Chain(s, end) && 0 < k < |s| && el == s[k] && add !in s
    modifies s, add
    ensures Chain(s[..k] + ([add] + s[k..]), end)
  {
    ghost var a, b := s[..k], s[k..];
    ApartAt(s, k, end, a, b);
    InsertBetween(el, add, a, b, end);
  }

  /** `DL_PREPEND_ELEM`. */
  method DLPrependElem<T>(head: Node<T>, el: Node<T>, add: Node<T>, ghost s: seq<Node<T>>) returns (newHead: Node<T>)
    requires IsDL(head, s) && el in s && add !in s
    modifies s, add
    ensures IsDL(newHead, Inserted(s, el, add))
  {
    ghost var k := IndexOf(s, el);
    assert Chain(s, null);
    ghost var t := Inserted(s, el, add);
    InsertedAt(s, k, add);
    DeleteCase(head, s, k);
    if head == el {
      DLPrependToSome(head, add, s);
      newHead := add;
    } else {
      PrependElemInside(el, add, s, k, null);
      newHead := head;
    }
    ChainIsDL(newHead, t);
  }

  lemma JoinInFront<T>(x: Node<T>, b: seq<Node<T>>)
    requires Distinct(b) && x !in b && Stretch(b, x, null)
    requires x.prev == Last([x] + b) && x.next == At(b, 0, null)
    ensures Chain([x] + b, null)
  {
    assert [] + ([x] + b) == [x] + b;
    JoinAround([], x, b, null);
  }

  method DLReplaceFirst<T>(el: Node<T>, add: Node<T>, ghost s: seq<Node<T>>)
    requires Chain(s, null) && s != [] && el == s[0] && add !in s
    modifies s, add
    ensures Chain([add] + s[1..], null)
  {
    ghost var b := s[1..];
    ApartAround(s, 0, null);
    add.next := el.next;
    if el.next == null {
      add.prev := add;
    } else {
      add.prev := el.prev;
      AssignPrev(add.next, add, b, el, null);
    }
    JoinInFront(add, b);
  }

  method DLReplaceLast<T>(head: Node<T>, el: Node<T>, add: Node<T>, ghost s: seq<Node<T>>)
    requires Chain(s, null) && |s| > 1 && head == s[0] && el == s[|s| - 1] && add !in s
    modifies s, add
    ensures Chain(s[..|s| - 1] + [add], null)
  {
    ghost var a := s[..|s| - 1];
    ApartAround(s, |s| - 1, null);
    add.next := el.next;
    add.prev := el.prev;
    AssignNext(add.prev, add, a, el, el);
    AssignPrev(head, add, a, el, add);
    assert [add] + [] == [add];
    JoinAround(a, add, [], null);
  }

  /** `add` goes between `a` and `b`, which point at `x`. */
  method Interpose<T>(add: Node<T>, ghost a: seq<Node<T>>, ghost b: seq<Node<T>>, ghost x: Node<T>,
                      ghost end: Node?<T>)
    requires a != [] && b != [] && Distinct(a) && Distinct(b) && Disjoint(a, b)
    requires add !in a && add !in b && add.next == b[0] && add.prev == a[|a| - 1]
    requires Stretch(a, Last(b), x) && Stretch(b, x, end)
    modifies a, b
    ensures Chain(a + ([add] + b), end)
  {
    AssignNext(add.prev, add, a, Last(b), x);
    AssignPrev(add.next, add, b, x, end);
    LastOfConcat([add], b);
    JoinAround(a, add, b, end);
  }

  /** `add` takes the place of `el` between its two neighbours. */
  method TakePlace<T>(el: Node<T>, add: Node<T>, ghost a: seq<Node<T>>, ghost b: seq<Node<T>>, ghost end: Node?<T>)
    requires a != [] && b != [] && Distinct(a) && Distinct(b) && Disjoint(a, b)
    requires add !in a && add !in b && el != add && el.next == b[0] && el.prev == a[|a| - 1]
    requires Stretch(a, Last(b), el) && Stretch(b, el, end)
    modifies a, b, add
    ensures Chain(a + ([add] + b), end)
  {
    add.next := el.next;
    add.prev := el.prev;
    Interpose(add, a, b, el, end);
  }

  method ReplaceInside<T>(el: Node<T>, add: Node<T>, ghost s: seq<Node<T>>, ghost k: nat, ghost end: Node?<T>)
    requires Chain(s, end) && 0 < k < |s| - 1 && el == s[k] && add !in s
    modifies s, add
    ensures Chain(s[..k] + ([add] + s[k + 1..]), end)
  {
    ApartAround(s, k, end);
    TakePlace(el, add, s[..k], s[k + 1..], end);
  }

  lemma ExchangedAt<T>(s: seq<Node<T>>, k: nat, add: Node<T>)
    requires Distinct(s) && k < |s|
    ensures Exchanged(s, s[k], add) == s[..k] + ([add] + s[k + 1..])
    ensures k == 0 ==> Exchanged(s, s[k], add) == [add] + s[1..]
    ensures k == |s| - 1 ==> Exchanged(s, s[k], add) == s[..|s| - 1] + [add]
  {
    DistinctIndex(s, k);
  }

  /** `DL_REPLACE_ELEM`. */
  method DLReplaceElem<T>(head: Node<T>, el: Node<T>, add: Node<T>, ghost s: seq<Node<T>>) returns (newHead: Node<T>)
    requires IsDL(head, s) && el in s && add !in s
    modifies s, add
    ensures IsDL(newHead, Exchanged(s, el, add))
  {
    ghost var k := IndexOf(s, el);
    assert Chain(s, null);
    ExchangedAt(s, k, add);
    DeleteCase(head, s, k);
    if head == el {
      DLReplaceFirst(el, add, s);
      newHead := add;
      ChainIsDL(add, [add] + s[1..]);
    } else {
      newHead := head;
      if el.next == null {
        DLReplaceLast(head, el, add, s);
        ChainIsDL(head, s[..|s| - 1] + [add]);
      } else {
        ReplaceInside(el, add, s, k, null);
        ChainIsDL(head, s[..k] + ([add] + s[k + 1..]));
      }
    }
  }
}
