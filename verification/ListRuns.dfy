/** Runs of the `DL_` and `CDL_` macros on one list. */
module ListRuns {
  import opened Nodes
  import opened ListMacros
  import opened RingMacros

  datatype Edit<N> =
    | Prepend(add: N)
    | Append(add: N)
    | Delete(el: N)
    | ReplaceElem(el: N, add: N)
    | PrependElem(el: N, add: N)

  /** What the macros ask: `el` is in the list, `add` is not. */
  predicate Fits<N(==)>(s: seq<N>, e: Edit<N>) {
    match e
    case Prepend(add) => add !in s
    case Append(add) => add !in s
    case Delete(el) => el in s
    case ReplaceElem(el, add) => el in s && add !in s
    case PrependElem(el, add) => el in s && add !in s
  }

  function Edited<N(==)>(s: seq<N>, e: Edit<N>): seq<N> {
    match e
    case Prepend(add) => [add] + s
    case Append(add) => s + [add]
    case Delete(el) => Without(s, el)
    case ReplaceElem(el, add) => Exchanged(s, el, add)
    case PrependElem(el, add) => Inserted(s, el, add)
  }

  /** The edit that takes the result of `e` on `s` back to `s`. */
  function Undo<N(==)>(s: seq<N>, e: Edit<N>): Edit<N>
    requires Fits(s, e)
  {
    match e
    case Prepend(add) => Delete(add)
    case Append(add) => Delete(add)
    case Delete(el) =>
      var i := IndexOf(s, el);
      if i + 1 < |s| then PrependElem(s[i + 1], el) else Append(el)
    case ReplaceElem(el, add) => ReplaceElem(add, el)
    case PrependElem(_, add) => Delete(add)
  }

  lemma TakeHas<N>(s: seq<N>, i: nat, j: nat)
    requires i < |s| && j <= |s|
    ensures i < j ==> s[i] in s[..j]
  {
    assert i < j ==> s[..j][i] == s[i];
  }

  lemma IndexIs<N>(s: seq<N>, x: N, i: nat)
    requires i < |s| && s[i] == x && x !in s[..i]
    ensures IndexOf(s, x) == i
  {
    TakeHas(s, IndexOf(s, x), i);
    TakeHas(s, i, IndexOf(s, x));
  }

  lemma AddIsUndone<N>(a: seq<N>, x: N, b: seq<N>)
    requires Distinct(a + b) && x !in a && x !in b
    ensures Distinct(a + [x] + b) && Without(a + [x] + b, x) == a + b
  {
    var t := a + [x] + b;
    assert t[..|a|] == a && t[|a| + 1..] == b && t[|a|] == x;
    IndexIs(t, x, |a|);
    forall i, j | 0 <= i < j < |t|
      ensures t[i] != t[j]
    {
      var i', j' := if i < |a| then i else i - 1, if j < |a| then j else j - 1;
      assert i != |a| ==> t[i] == (a + b)[i'];
      assert j != |a| ==> t[j] == (a + b)[j'];
    }
  }

  lemma ReplaceIsUndone<N>(s: seq<N>, i: nat, y: N)
    requires Distinct(s) && i < |s| && y !in s
    ensures Distinct(s[i := y]) && s[i] !in s[i := y] && Exchanged(s[i := y], y, s[i]) == s
  {
    ExchangeDistinct(s, i, y);
    IndexIs(s[i := y], y, i);
  }

  lemma AddBack<N>(a: seq<N>, x: N, b: seq<N>)
    requires b != [] && b[0] !in a
    ensures b[0] in a + b && Inserted(a + b, b[0], x) == a + [x] + b
  {
    var t := a + b;
    assert t[|a|] == b[0] && t[..|a|] == a && t[|a|..] == b;
    IndexIs(t, b[0], |a|);
  }

  lemma DeleteIsUndone<N>(s: seq<N>, i: nat)
    requires Distinct(s) && i < |s|
    ensures Distinct(s[..i] + s[i + 1..]) && s[i] !in s[..i] + s[i + 1..]
    ensures i + 1 < |s| ==> s[i + 1] in s[..i] + s[i + 1..] && Inserted(s[..i] + s[i + 1..], s[i + 1], s[i]) == s
    ensures i + 1 == |s| ==> s[..i] + s[i + 1..] + [s[i]] == s
  {
    DistinctParts(s, i);
    if i + 1 < |s| {
      AddBack(s[..i], s[i], s[i + 1..]);
    }
  }

  /** Every edit can be undone by one other edit, which is allowed where it left the list. */
  lemma EditIsUndone<N>(s: seq<N>, e: Edit<N>)
    requires Distinct(s) && Fits(s, e)
    ensures Distinct(Edited(s, e)) && Fits(Edited(s, e), Undo(s, e))
    ensures Edited(Edited(s, e), Undo(s, e)) == s
  {
    match e
    case Prepend(add) =>
      assert [] + s == s && [] + [add] + s == [add] + s;
      AddIsUndone([], add, s);
    case Append(add) =>
      assert s + [] == s && s + [add] + [] == s + [add];
      AddIsUndone(s, add, []);
    case Delete(el) =>
      DeleteIsUndone(s, IndexOf(s, el));
    case ReplaceElem(el, add) =>
      ReplaceIsUndone(s, IndexOf(s, el), add);
    case PrependElem(el, add) =>
      var i := IndexOf(s, el);
      assert s[..i] + s[i..] == s;
      AddIsUndone(s[..i], add, s[i..]);
  }

  // ---- runs --------------------------------------------------------------------------------------

  /** A step of a `DL_` run: an edit, or `DL_CONCAT` with a second list. */
  datatype ListOp<N> = One(edit: Edit<N>) | Concat(second: seq<N>)

  /** The nodes a step brings with it. */
  function Brings<N>(op: ListOp<N>): seq<N> {
    match op
    case One(e) => if e.Delete? then [] else [e.add]
    case Concat(second) => second
  }

  predicate OpFits<N(==)>(s: seq<N>, op: ListOp<N>) {
    match op
    case One(e) => Fits(s, e)
    case Concat(second) => forall n <- second :: n !in s
  }

  function Done<N(==)>(s: seq<N>, op: ListOp<N>): seq<N> {
    match op
    case One(e) => Edited(s, e)
    case Concat(second) => s + second
  }

  predicate AllFit<N(==)>(s: seq<N>, ops: seq<ListOp<N>>)
    decreases |ops|
  {
    ops == [] || (OpFits(s, ops[0]) && AllFit(Done(s, ops[0]), ops[1..]))
  }

  function DoneAll<N(==)>(s: seq<N>, ops: seq<ListOp<N>>): seq<N>
    decreases |ops|
  {
    if ops == [] then s else DoneAll(Done(s, ops[0]), ops[1..])
  }

  ghost function HeadOf<T>(s: seq<Node<T>>): Node?<T> {
    At(s, 0, null)
  }

  /** When a step comes to its second list, no node of it is among those touched before: `touched`, and what earlier
      steps brought. */
  predicate Apart<N(==)>(touched: seq<N>, ops: seq<ListOp<N>>)
    decreases |ops|
  {
    ops == [] || (
      && (ops[0].Concat? ==> forall n <- ops[0].second :: n !in touched)
      && Apart(touched + Brings(ops[0]), ops[1..]))
  }

  lemma {:induction false} ApartForFewer<N>(t: seq<N>, t': seq<N>, ops: seq<ListOp<N>>)
    requires Apart(t, ops) && forall n <- t' :: n in t
    ensures Apart(t', ops)
    decreases |ops|
  {
    if ops != [] {
      ApartForFewer(t + Brings(ops[0]), t' + Brings(ops[0]), ops[1..]);
    }
  }

  lemma {:induction false} ApartAt<N>(t: seq<N>, ops: seq<ListOp<N>>, k: nat)
    requires Apart(t, ops) && k < |ops| && ops[k].Concat?
    ensures forall n <- ops[k].second :: n !in t
    decreases |ops|
  {
    if k > 0 {
      ApartAt(t + Brings(ops[0]), ops[1..], k - 1);
      assert forall n <- t :: n in t + Brings(ops[0]);
    }
  }

  ghost predicate AllIn<T>(ops: seq<ListOp<Node<T>>>, all: set<Node<T>>) {
    forall k :: 0 <= k < |ops| ==> forall n <- Brings(ops[k]) :: n in all
  }

  /** The second lists among the arguments are doubly linked lists. */
  ghost predicate Lists<T>(ops: seq<ListOp<Node<T>>>, all: set<Node<T>>)
    requires AllIn(ops, all)
    reads all
  {
    forall k :: 0 <= k < |ops| && ops[k].Concat? ==> IsDL(HeadOf(ops[k].second), ops[k].second)
  }

  twostate predicate Same<T>(n: Node<T>)
    reads n
  {
    (n.next, n.prev) == old((n.next, n.prev))
  }

  twostate lemma ListStays<T>(s: seq<Node<T>>)
    requires old(IsDL(HeadOf(s), s))
    requires forall i :: 0 <= i < |s| ==> Same(s[i])
    ensures IsDL(HeadOf(s), s)
  {
    forall i | 0 <= i < |s|
      ensures s[i].next == At(s, i + 1, null)
    {
      assert Same(s[i]) && old(s[i].next) == At(s, i + 1, null);
    }
    forall i | 0 <= i < |s|
      ensures s[i].prev == Before(s, i, Last(s))
    {
      assert Same(s[i]) && old(s[i].prev) == Before(s, i, Last(s));
    }
  }

  method DLEdit<T>(head: Node?<T>, e: Edit<Node<T>>, ghost s: seq<Node<T>>) returns (newHead: Node?<T>)
    requires IsDL(head, s) && Fits(s, e)
    modifies s, Brings(One(e))
    ensures IsDL(newHead, Edited(s, e))
  {
    match e
    case Prepend(add) => newHead := DLPrepend(head, add, s);
    case Append(add) => newHead := DLAppend(head, add, s);
    case Delete(el) => newHead := DLDelete(head, el, s);
    case ReplaceElem(el, add) => newHead := DLReplaceElem(head, el, add, s);
    case PrependElem(el, add) => newHead := DLPrependElem(head, el, add, s);
  }

  method DLJoin<T>(head: Node?<T>, second: seq<Node<T>>, ghost s: seq<Node<T>>) returns (newHead: Node?<T>)
    requires IsDL(head, s) && IsDL(HeadOf(second), second) && forall n <- second :: n !in s
    modifies s, second
    ensures IsDL(newHead, s + second)
  {
    var head2: Node?<T> := if |second| > 0 then second[0] else null;
    NoneInIsDisjoint(s, second);
    newHead := DLConcat(head, head2, s, second);
  }

  lemma NoneInIsDisjoint<N>(a: seq<N>, b: seq<N>)
    requires forall n <- b :: n !in a
    ensures Disjoint(a, b)
  {
    assert forall i :: 0 <= i < |a| ==> a[i] in a;
  }

  method DLStep<T>(head: Node?<T>, op: ListOp<Node<T>>, ghost s: seq<Node<T>>, ghost brought: seq<Node<T>>)
      returns (newHead: Node?<T>)
    requires IsDL(head, s) && OpFits(s, op) && brought == Brings(op)
    requires op.Concat? ==> IsDL(HeadOf(op.second), op.second)
    modifies s, brought
    ensures IsDL(newHead, Done(s, op))
  {
    match op
    case One(e) => newHead := DLEdit(head, e, s);
    case Concat(second) => newHead := DLJoin(head, second, s);
  }

  method CDLEdit<T>(head: Node?<T>, e: Edit<Node<T>>, ghost s: seq<Node<T>>) returns (newHead: Node?<T>)
    requires IsCDL(head, s) && Fits(s, e) && !e.Append?
    modifies s, Brings(One(e))
    ensures IsCDL(newHead, Edited(s, e))
  {
    match e
    case Prepend(add) => newHead := CDLPrepend(head, add, s);
    case Delete(el) => newHead := CDLDelete(head, el, s);
    case ReplaceElem(el, add) => newHead := CDLReplaceElem(head, el, add, s);
    case PrependElem(el, add) => newHead := CDLPrependElem(head, el, add, s);
  }

  lemma StepStays<N>(s: seq<N>, op: ListOp<N>)
    requires OpFits(s, op)
    ensures forall n <- Done(s, op) :: n in s + Brings(op)
  {
  }

  /** The second lists that are still to come are made of these nodes. */
  ghost predicate MadeOf<N>(rest: seq<ListOp<N>>, nodes: set<N>) {
    forall k :: 0 <= k < |rest| && rest[k].Concat? ==> forall i :: 0 <= i < |rest[k].second| ==> rest[k].second[i] in nodes
  }

  lemma RestIsFar<N>(s: seq<N>, brought: seq<N>, rest: seq<ListOp<N>>, all: set<N>) returns (far: set<N>)
    requires Apart(s + brought, rest) && forall k :: 0 <= k < |rest| ==> forall n <- Brings(rest[k]) :: n in all
    ensures far <= all && MadeOf(rest, far) && forall n <- far :: n !in s && n !in brought
  {
    far := set n <- all | n !in s && n !in brought;
    forall k | 0 <= k < |rest| && rest[k].Concat?
      ensures forall i :: 0 <= i < |rest[k].second| ==> rest[k].second[i] in far
    {
      ApartAt(s + brought, rest, k);
      forall i | 0 <= i < |rest[k].second|
        ensures rest[k].second[i] in far
      {
        assert rest[k].second[i] in Brings(rest[k]);
      }
    }
  }

  /** A step, after which the lists that are still to come are as they were. */
  method DLNext<T>(head: Node?<T>, op: ListOp<Node<T>>, ghost rest: seq<ListOp<Node<T>>>, ghost s: seq<Node<T>>,
                   ghost brought: seq<Node<T>>, ghost all: set<Node<T>>) returns (newHead: Node?<T>)
    requires IsDL(head, s) && OpFits(s, op) && brought == Brings(op)
    requires op.Concat? ==> IsDL(HeadOf(op.second), op.second)
    requires AllIn(rest, all) && Lists(rest, all) && Apart(s + brought, rest)
    modifies s, brought
    ensures IsDL(newHead, Done(s, op)) && Lists(rest, all)
  {
    ghost var far := RestIsFar(s, brought, rest, all);
    newHead := DLStep(head, op, s, brought);
    forall k | 0 <= k < |rest| && rest[k].Concat?
      ensures IsDL(HeadOf(rest[k].second), rest[k].second)
    {
      assert forall i :: 0 <= i < |rest[k].second| ==> rest[k].second[i] in far;
      ListStays(rest[k].second);
    }
  }

  /** The rest of a run, after its first step. */
  lemma RestOfRun<T>(s: seq<Node<T>>, ops: seq<ListOp<Node<T>>>, all: set<Node<T>>)
    requires ops != [] && AllFit(s, ops) && (forall n <- s :: n in all) && AllIn(ops, all) && Apart(s, ops)
    ensures OpFits(s, ops[0]) && AllFit(Done(s, ops[0]), ops[1..]) && AllIn(ops[1..], all)
    ensures forall n <- Done(s, ops[0]) :: n in all
    ensures Apart(s + Brings(ops[0]), ops[1..]) && Apart(Done(s, ops[0]), ops[1..])
    ensures forall n <- Brings(ops[0]) :: n in all
  {
    StepStays(s, ops[0]);
    ApartForFewer(s + Brings(ops[0]), Done(s, ops[0]), ops[1..]);
  }

  lemma RestOfLists<T>(ops: seq<ListOp<Node<T>>>, all: set<Node<T>>)
    requires ops != [] && AllIn(ops, all) && AllIn(ops[1..], all) && Lists(ops, all)
    ensures Lists(ops[1..], all)
    ensures ops[0].Concat? ==> IsDL(HeadOf(ops[0].second), ops[0].second)
  {
    assert forall k :: 0 <= k < |ops| - 1 ==> ops[1..][k] == ops[k + 1];
  }

  /** Any run of the `DL_` macros does to the list what its steps do to the sequence. */
  method DLRun<T>(head: Node?<T>, ops: seq<ListOp<Node<T>>>, ghost s: seq<Node<T>>, ghost all: set<Node<T>>)
      returns (newHead: Node?<T>)
    requires IsDL(head, s) && AllFit(s, ops) && (forall n <- s :: n in all)
    requires AllIn(ops, all) && Lists(ops, all) && Apart(s, ops)
    modifies all
    ensures IsDL(newHead, DoneAll(s, ops))
    decreases |ops|
  {
    if ops == [] {
      newHead := head;
    } else {
      RestOfRun(s, ops, all);
      RestOfLists(ops, all);
      var mid := DLNext(head, ops[0], ops[1..], s, Brings(ops[0]), all);
      newHead := DLRun(mid, ops[1..], Done(s, ops[0]), all);
    }
  }

  function Ones<N>(es: seq<Edit<N>>): (ops: seq<ListOp<N>>)
    ensures |ops| == |es|
  {
    seq(|es|, i requires 0 <= i < |es| => One(es[i]))
  }

  lemma OnesParts<T>(s: seq<Node<T>>, es: seq<Edit<Node<T>>>)
    requires es != []
    ensures AllFit(s, Ones(es)) <==> Fits(s, es[0]) && AllFit(Edited(s, es[0]), Ones(es[1..]))
    ensures DoneAll(s, Ones(es)) == DoneAll(Edited(s, es[0]), Ones(es[1..]))
  {
    assert Ones(es)[0] == One(es[0]) && Ones(es)[1..] == Ones(es[1..]);
  }

  /** Any run of the `CDL_` macros likewise; there is neither append nor concat among them. */
  method CDLRun<T>(head: Node?<T>, es: seq<Edit<Node<T>>>, ghost s: seq<Node<T>>, ghost all: set<Node<T>>)
      returns (newHead: Node?<T>)
    requires IsCDL(head, s) && AllFit(s, Ones(es))
    requires forall n <- s :: n in all
    requires forall e <- es :: !e.Append? && (e.Delete? || e.add in all)
    modifies all
    ensures IsCDL(newHead, DoneAll(s, Ones(es)))
    decreases |es|
  {
    if es == [] {
      newHead := head;
    } else {
      OnesParts(s, es);
      StepStays(s, One(es[0]));
      assert forall n <- Brings(One(es[0])) :: n in all;
      var mid := CDLEdit(head, es[0], s);
      newHead := CDLRun(mid, es[1..], Edited(s, es[0]), all);
    }
  }
}
