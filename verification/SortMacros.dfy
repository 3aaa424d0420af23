/** `LL_SORT2`, `DL_SORT2` and `CDL_SORT2` (utlist.h): the merge sort on the nodes themselves, by relinking.
    The three macros share one pass and differ in two points of it, which are parameters here: `oldhead` is the
    node that ends the walk (null in the two macros that end at null), `back` whether `prev` is set. */
module SortMacros {
  import opened Bytes
  import opened MergeSort
  import opened Nodes

  /** The macros count in `int`. */
  newtype int32 = x: int | -0x8000_0000 <= x < 0x8000_0000

  ghost predicate EndMark<T>(s: seq<Node<T>>, end: Node?<T>) {
    end == null || (s != [] && end == s[0])
  }

  /** The list built so far: `tail` is its last node, whose `next` is not set yet. */
  ghost predicate Output<T>(head: Node?<T>, tail: Node?<T>, out: seq<Node<T>>, back: bool)
    reads out
  {
    && head == At(out, 0, null) && tail == Last(out)
    && (forall i :: 0 < i < |out| ==> out[i - 1].next == out[i])
    && (back ==> BackLinked(out, null))
  }

  ghost predicate Apart<T>(out: seq<Node<T>>, s: seq<Node<T>>, lo: nat, hi: nat)
    requires hi <= |s|
  {
    forall k, i :: 0 <= k < |out| && lo <= i < hi ==> out[k] != s[i]
  }

  /** In the middle of a merge: `s` is the list at the start of the pass, `s[pi..mid]` and `s[qi..hi]` are what
      is left of the two runs, everything before is in `out`. */
  ghost predicate Merging<T>(s: seq<Node<T>>, pi: nat, mid: nat, qi: nat, hi: nat, oldhead: Node?<T>,
                             head: Node?<T>, tail: Node?<T>, out: seq<Node<T>>, back: bool)
    reads s, out
  {
    && pi <= mid <= qi <= hi <= |s|
    && Linked(s, pi, mid, oldhead) && Linked(s, qi, |s|, oldhead)
    && Output(head, tail, out, back) && Distinct(out)
    && Apart(out, s, pi, mid) && Apart(out, s, qi, |s|)
    && (tail == null || tail in s)
  }

  /** `x = x->next`, and null instead of the old head. */
  method Follow<T>(x: Node<T>, oldhead: Node?<T>, ghost s: seq<Node<T>>, ghost i: nat) returns (n: Node?<T>)
    requires i < |s| && x == s[i] && x.next == At(s, i + 1, oldhead) && Distinct(s) && EndMark(s, oldhead)
    ensures n == At(s, i + 1, null)
  {
    n := x.next;
    if n == oldhead {
      n := null;
    }
  }

  /** The `for` loop that steps `q` along the first run and counts it. */
  method SkipRun<T>(p: Node<T>, insize: int32, oldhead: Node?<T>, ghost s: seq<Node<T>>, ghost lo: nat, ghost mid: nat)
    returns (q: Node?<T>, psize: int32)
    requires 0 < insize && lo < |s| && p == s[lo] && mid == Min(lo + insize as int, |s|)
    requires Distinct(s) && EndMark(s, oldhead) && Linked(s, lo, |s|, oldhead)
    ensures psize as int == mid - lo && q == At(s, mid, null)
  {
    q := p;
    psize := 0;
    ghost var at: nat := lo;
    var i: int32 := 0;
    while i < insize
      invariant 0 <= i == psize <= insize && at == lo + i as int <= |s|
      invariant q == At(s, at, null) && (i < insize ==> at < |s|)
    {
      psize := psize + 1;
      assert s[at].next == At(s, at + 1, oldhead);
      q := Follow(q, oldhead, s, at);
      at := at + 1;
      if q == null {
        break;
      }
      i := i + 1;
    }
    assert at == mid && psize as int == at - lo;
  }

  /** The end of the inner loop: `e` goes behind `tail`. */
  method Emit<T>(e: Node<T>, head0: Node?<T>, tail: Node?<T>, back: bool, ghost out: seq<Node<T>>)
    returns (head: Node?<T>)
    requires Output(head0, tail, out, back) && Distinct(out) && e !in out
    modifies e, if tail == null then {} else {tail}
    ensures Output(head, e, out + [e], back) && Distinct(out + [e])
    ensures e.next == old(e.next) && (tail != null ==> tail.prev == old(tail.prev))
    ensures !back ==> e.prev == old(e.prev)
  {
    head := head0;
    if tail != null {
      tail.next := e;
    } else {
      head := e;
    }
    if back {
      e.prev := tail;
    }
    ghost var out' := out + [e];
    forall i | 0 < i < |out'|
      ensures out'[i - 1].next == out'[i]
    {
      if i < |out| { assert out[i - 1] != tail; }
    }
    forall i | back && 0 <= i < |out'|
      ensures out'[i].prev == Before(out', i, null)
    {
      if i < |out| { assert out[i] != e && out[i].prev == Before(out, i, null); }
    }
  }

  /** The four branches of the inner loop: which run the next node comes from. */
  method TakeNext<T>(cmp: Cmp<Node<T>>, p: Node?<T>, q: Node?<T>, psize: int32, qsize: int32, oldhead: Node?<T>,
                     ghost s: seq<Node<T>>, ghost pi: nat, ghost mid: nat, ghost qi: nat, ghost hi: nat)
    returns (e: Node<T>, p': Node?<T>, q': Node?<T>, psize': int32, qsize': int32, ghost fromP: bool, ghost calls: nat)
    requires pi <= mid <= qi <= hi <= |s|
    requires psize as int == mid - pi && 0 <= qsize && (qi < hi <==> qsize > 0 && q != null)
    requires psize > 0 || (qsize > 0 && q != null)
    requires q == At(s, qi, null) && (psize > 0 ==> p == s[pi])
    requires Distinct(s) && EndMark(s, oldhead)
    requires Linked(s, pi, mid, oldhead) && Linked(s, qi, |s|, oldhead)
    ensures fromP ==> pi < mid && e == s[pi] && q' == q && psize' == psize - 1 && qsize' == qsize
    ensures fromP ==> (psize' > 0 ==> p' == s[pi + 1])
    ensures !fromP ==> qi < hi && e == s[qi] && p' == p && psize' == psize && qsize' == qsize - 1
    ensures !fromP ==> q' == At(s, qi + 1, null)
    ensures var pi', qi' := if fromP then pi + 1 else pi, if fromP then qi else qi + 1;
      && Merge(cmp, s[pi..mid], s[qi..hi]) == [e] + Merge(cmp, s[pi'..mid], s[qi'..hi])
      && MergeCost(cmp, s[pi..mid], s[qi..hi]) == calls + MergeCost(cmp, s[pi'..mid], s[qi'..hi])
  {
    p', q', psize', qsize', calls := p, q, psize, qsize, 0;
    if psize == 0 {
      e := q; q' := Follow(q, oldhead, s, qi); qsize' := qsize - 1; fromP := false;
    } else if qsize == 0 || q == null {
      e := p; p' := Follow(p, oldhead, s, pi); psize' := psize - 1; fromP := true;
    } else {
      calls := 1;
      if cmp(p, q) <= 0 {
        e := p; p' := Follow(p, oldhead, s, pi); psize' := psize - 1; fromP := true;
      } else {
        e := q; q' := Follow(q, oldhead, s, qi); qsize' := qsize - 1; fromP := false;
      }
    }
    if pi < mid { assert s[pi..mid][1..] == s[pi + 1..mid]; }
    if qi < hi { assert s[qi..hi][1..] == s[qi + 1..hi]; }
  }

  /** The node just taken leaves its run and goes behind `tail`. */
  method MoveNode<T>(e: Node<T>, oldhead: Node?<T>, head: Node?<T>, tail: Node?<T>, back: bool, ghost s: seq<Node<T>>,
                     ghost pi: nat, ghost mid: nat, ghost qi: nat, ghost hi: nat, ghost fromP: bool, ghost out: seq<Node<T>>)
    returns (head': Node?<T>)
    requires Merging(s, pi, mid, qi, hi, oldhead, head, tail, out, back) && Distinct(s)
    requires if fromP then pi < mid && e == s[pi] else qi < hi && e == s[qi]
    modifies s
    ensures Merging(s, if fromP then pi + 1 else pi, mid, if fromP then qi else qi + 1, hi, oldhead, head', e, out + [e], back)
    ensures !back ==> forall i :: 0 <= i < |s| ==> s[i].prev == old(s[i].prev)
  {
    head' := Emit(e, head, tail, back, out);
  }

  /** One turn of the inner loop. */
  method MergeStep<T>(cmp: Cmp<Node<T>>, p: Node?<T>, q: Node?<T>, psize: int32, qsize: int32, oldhead: Node?<T>,
                      head: Node?<T>, tail: Node?<T>, back: bool,
                      ghost s: seq<Node<T>>, ghost pi: nat, ghost mid: nat, ghost qi: nat, ghost hi: nat, ghost out: seq<Node<T>>)
    returns (p': Node?<T>, q': Node?<T>, psize': int32, qsize': int32, head': Node?<T>, e: Node<T>,
             ghost pi': nat, ghost qi': nat, ghost calls: nat)
    requires Merging(s, pi, mid, qi, hi, oldhead, head, tail, out, back)
    requires psize as int == mid - pi && 0 <= qsize && (qi < hi <==> qsize > 0 && q != null)
    requires psize > 0 || (qsize > 0 && q != null)
    requires q == At(s, qi, null) && (psize > 0 ==> p == s[pi])
    requires Distinct(s) && EndMark(s, oldhead)
    modifies s
    ensures Merging(s, pi', mid, qi', hi, oldhead, head', e, out + [e], back)
    ensures (pi' == pi + 1 && qi' == qi) || (pi' == pi && qi' == qi + 1)
    ensures psize' as int == mid - pi' && qsize' as int == qsize as int - (qi' - qi)
    ensures q' == At(s, qi', null) && (psize' > 0 ==> p' == s[pi'])
    ensures Merge(cmp, s[pi..mid], s[qi..hi]) == [e] + Merge(cmp, s[pi'..mid], s[qi'..hi])
    ensures MergeCost(cmp, s[pi..mid], s[qi..hi]) == calls + MergeCost(cmp, s[pi'..mid], s[qi'..hi])
    ensures !back ==> forall i :: 0 <= i < |s| ==> s[i].prev == old(s[i].prev)
  {
    ghost var fromP;
    e, p', q', psize', qsize', fromP, calls := TakeNext(cmp, p, q, psize, qsize, oldhead, s, pi, mid, qi, hi);
    pi', qi' := if fromP then pi + 1 else pi, if fromP then qi else qi + 1;
    head' := MoveNode(e, oldhead, head, tail, back, s, pi, mid, qi, hi, fromP, out);
  }

  /** The inner loop. */
  method MergeRuns<T>(cmp: Cmp<Node<T>>, p0: Node<T>, q0: Node?<T>, psize0: int32, insize: int32, oldhead: Node?<T>,
                      head0: Node?<T>, tail0: Node?<T>, back: bool,
                      ghost s: seq<Node<T>>, ghost lo: nat, ghost mid: nat, ghost hi: nat, ghost out0: seq<Node<T>>)
    returns (q: Node?<T>, head: Node?<T>, tail: Node?<T>, ghost out: seq<Node<T>>, ghost calls: nat)
    requires 0 <= insize && lo < mid <= hi <= |s| && p0 == s[lo] && psize0 as int == mid - lo
    requires hi == Min(mid + insize as int, |s|)
    requires q0 == At(s, mid, null)
    requires Distinct(s) && EndMark(s, oldhead)
    requires Merging(s, lo, mid, mid, hi, oldhead, head0, tail0, out0, back)
    modifies s
    ensures out == out0 + Merge(cmp, s[lo..mid], s[mid..hi])
    ensures calls == MergeCost(cmp, s[lo..mid], s[mid..hi])
    ensures Merging(s, mid, mid, hi, hi, oldhead, head, tail, out, back)
    ensures q == At(s, hi, null)
    ensures !back ==> forall i :: 0 <= i < |s| ==> s[i].prev == old(s[i].prev)
  {
    var p: Node?<T> := p0;
    q, head, tail, out := q0, head0, tail0, out0;
    var psize, qsize := psize0, insize;
    ghost var pi: nat, qi: nat := lo, mid;
    ghost var rest := Merge(cmp, s[lo..mid], s[mid..hi]);
    ghost var total := out0 + rest;
    calls := 0;
    while psize > 0 || (qsize > 0 && q != null)
      invariant Merging(s, pi, mid, qi, hi, oldhead, head, tail, out, back)
      invariant psize as int == mid - pi && qsize as int == insize as int - (qi - mid)
      invariant q == At(s, qi, null) && (psize > 0 ==> p == s[pi])
      invariant rest == Merge(cmp, s[pi..mid], s[qi..hi]) && out + rest == total
      invariant calls + MergeCost(cmp, s[pi..mid], s[qi..hi]) == MergeCost(cmp, s[lo..mid], s[mid..hi])
      invariant !back ==> forall i :: 0 <= i < |s| ==> s[i].prev == old(s[i].prev)
      decreases psize as int + qsize as int
    {
      var e: Node<T>;
      ghost var c: nat;
      p, q, psize, qsize, head, e, pi, qi, c :=
        MergeStep(cmp, p, q, psize, qsize, oldhead, head, tail, back, s, pi, mid, qi, hi, out);
      rest := Merge(cmp, s[pi..mid], s[qi..hi]);
      Assoc(out, [e], rest);
      tail, out, calls := e, out + [e], calls + c;
    }
    assert pi == mid && qi == hi;
    assert s[pi..mid] == [] && s[qi..hi] == [];
    assert out == total;
  }

  // ---- a pass ------------------------------------------------------------------------------------

  /** `Pass` on what is left from position `lo` on. */
  lemma PassFrom<N>(cmp: Cmp<N>, s: seq<N>, lo: nat, k: nat)
    requires k > 0 && lo < |s|
    ensures var mid, hi := Min(lo + k, |s|), Min(lo + 2 * k, |s|);
      && Pass(cmp, s[lo..], k) == Merge(cmp, s[lo..mid], s[mid..hi]) + Pass(cmp, s[hi..], k)
      && PassCost(cmp, s[lo..], k) == MergeCost(cmp, s[lo..mid], s[mid..hi]) + PassCost(cmp, s[hi..], k)
  {
    var t, mid, hi := s[lo..], Min(lo + k, |s|), Min(lo + 2 * k, |s|);
    Slices(s, lo, mid, hi);
    PassStep(cmp, t, k, t[..mid - lo], t[mid - lo..hi - lo], t[hi - lo..]);
  }

  lemma PassStep<N>(cmp: Cmp<N>, t: seq<N>, k: nat, a: seq<N>, b: seq<N>, c: seq<N>)
    requires k > 0 && t != []
    requires a == t[..Min(k, |t|)] && b == t[Min(k, |t|)..Min(2 * k, |t|)] && c == t[Min(2 * k, |t|)..]
    ensures Pass(cmp, t, k) == Merge(cmp, a, b) + Pass(cmp, c, k)
    ensures PassCost(cmp, t, k) == MergeCost(cmp, a, b) + PassCost(cmp, c, k)
  {
  }

  lemma Slices<N>(s: seq<N>, lo: nat, mid: nat, hi: nat)
    requires lo <= mid <= hi <= |s|
    ensures s[lo..][..mid - lo] == s[lo..mid]
    ensures s[lo..][mid - lo..hi - lo] == s[mid..hi]
    ensures s[lo..][hi - lo..] == s[hi..]
  {
  }

  /** So far the pass has put out `out` and compared `calls` times; `s[lo..]` is still to be merged. */
  ghost predicate Progress<N>(cmp: Cmp<N>, s: seq<N>, lo: nat, k: nat, out: seq<N>, calls: nat)
    requires k > 0 && lo <= |s|
  {
    && out + Pass(cmp, s[lo..], k) == Pass(cmp, s, k)
    && calls + PassCost(cmp, s[lo..], k) == PassCost(cmp, s, k)
  }

  lemma ProgressStart<N>(cmp: Cmp<N>, s: seq<N>, k: nat)
    requires k > 0
    ensures Progress(cmp, s, 0, k, [], 0)
  {
    assert s[0..] == s;
    assert [] + Pass(cmp, s, k) == Pass(cmp, s, k);
  }

  lemma ProgressStep<N>(cmp: Cmp<N>, s: seq<N>, lo: nat, mid: nat, hi: nat, k: nat, out: seq<N>, calls: nat)
    requires k > 0 && lo < |s| && mid == Min(lo + k, |s|) && hi == Min(lo + 2 * k, |s|)
    requires Progress(cmp, s, lo, k, out, calls)
    ensures Progress(cmp, s, hi, k, out + Merge(cmp, s[lo..mid], s[mid..hi]), calls + MergeCost(cmp, s[lo..mid], s[mid..hi]))
  {
    PassFrom(cmp, s, lo, k);
    Assoc(out, Merge(cmp, s[lo..mid], s[mid..hi]), Pass(cmp, s[hi..], k));
  }

  lemma ProgressEnd<N>(cmp: Cmp<N>, s: seq<N>, k: nat, out: seq<N>, calls: nat)
    requires k > 0 && Progress(cmp, s, |s|, k, out, calls)
    ensures out == Pass(cmp, s, k) && calls == PassCost(cmp, s, k)
  {
    assert s[|s|..] == [];
    assert out + [] == out;
  }

  /** Between two merges of a pass. */
  ghost predicate Passing<T>(s: seq<Node<T>>, lo: nat, oldhead: Node?<T>, head: Node?<T>, tail: Node?<T>,
                             out: seq<Node<T>>, back: bool)
    reads s, out
  {
    Merging(s, lo, lo, lo, lo, oldhead, head, tail, out, back)
  }

  lemma RunsAhead<T>(s: seq<Node<T>>, lo: nat, mid: nat, hi: nat, oldhead: Node?<T>, head: Node?<T>, tail: Node?<T>,
                     out: seq<Node<T>>, back: bool)
    requires lo <= mid <= hi <= |s| && Passing(s, lo, oldhead, head, tail, out, back)
    ensures Merging(s, lo, mid, mid, hi, oldhead, head, tail, out, back)
    ensures Linked(s, lo, |s|, oldhead)
  {
  }

  /** Count off a run and merge it with the next one. */
  method MergePair<T>(cmp: Cmp<Node<T>>, p: Node<T>, insize: int32, oldhead: Node?<T>, head0: Node?<T>, tail0: Node?<T>,
                      back: bool, ghost s: seq<Node<T>>, ghost lo: nat, ghost mid: nat, ghost hi: nat, ghost out0: seq<Node<T>>)
    returns (q: Node?<T>, head: Node?<T>, tail: Node?<T>, ghost out: seq<Node<T>>, ghost calls: nat)
    requires 0 < insize && lo < |s| && p == s[lo]
    requires mid == Min(lo + insize as int, |s|) && hi == Min(mid + insize as int, |s|)
    requires Distinct(s) && EndMark(s, oldhead) && Passing(s, lo, oldhead, head0, tail0, out0, back)
    modifies s
    ensures out == out0 + Merge(cmp, s[lo..mid], s[mid..hi])
    ensures calls == MergeCost(cmp, s[lo..mid], s[mid..hi])
    ensures q == At(s, hi, null) && Passing(s, hi, oldhead, head, tail, out, back)
    ensures !back ==> forall i :: 0 <= i < |s| ==> s[i].prev == old(s[i].prev)
  {
    RunsAhead(s, lo, mid, hi, oldhead, head0, tail0, out0, back);
    var q0, psize := SkipRun(p, insize, oldhead, s, lo, mid);
    q, head, tail, out, calls := MergeRuns(cmp, p, q0, psize, insize, oldhead, head0, tail0, back, s, lo, mid, hi, out0);
  }

  /** One turn of the middle loop. */
  method PassTurn<T>(cmp: Cmp<Node<T>>, p: Node<T>, insize: int32, oldhead: Node?<T>, head0: Node?<T>, tail0: Node?<T>,
                     back: bool, ghost s: seq<Node<T>>, ghost lo: nat, ghost k: nat, ghost out0: seq<Node<T>>, ghost calls0: nat)
    returns (q: Node?<T>, head: Node?<T>, tail: Node?<T>, ghost out: seq<Node<T>>, ghost calls: nat, ghost hi: nat)
    requires 0 < insize as int == k && lo < |s| && p == s[lo]
    requires Distinct(s) && EndMark(s, oldhead) && Passing(s, lo, oldhead, head0, tail0, out0, back)
    requires Progress(cmp, s, lo, k, out0, calls0)
    modifies s
    ensures hi == Min(lo + 2 * k, |s|) && q == At(s, hi, null)
    ensures Passing(s, hi, oldhead, head, tail, out, back)
    ensures Progress(cmp, s, hi, k, out, calls)
    ensures !back ==> forall i :: 0 <= i < |s| ==> s[i].prev == old(s[i].prev)
  {
    ghost var mid: nat := Min(lo + k, |s|);
    hi := Min(mid + k, |s|);
    ProgressStep(cmp, s, lo, mid, hi, k, out0, calls0);
    q, head, tail, out, calls := MergePair(cmp, p, insize, oldhead, head0, tail0, back, s, lo, mid, hi, out0);
    calls := calls0 + calls;
  }

  /** A pass over the list, up to the closing of its last link. */
  method MergePass<T>(cmp: Cmp<Node<T>>, list: Node<T>, insize: int32, oldhead: Node?<T>, back: bool, ghost s: seq<Node<T>>)
    returns (head: Node?<T>, tail: Node?<T>, nmerges: int32, ghost out: seq<Node<T>>, ghost calls: nat)
    requires 0 < insize && 0 < |s| <= 0x4000_0000 && list == s[0]
    requires Distinct(s) && EndMark(s, oldhead) && Linked(s, 0, |s|, oldhead)
    modifies s
    ensures out == Pass(cmp, s, insize as int) && calls == PassCost(cmp, s, insize as int)
    ensures Output(head, tail, out, back) && Distinct(out) && tail != null && tail in s
    ensures nmerges <= 1 <==> |s| <= 2 * insize as int
    ensures !back ==> forall i :: 0 <= i < |s| ==> s[i].prev == old(s[i].prev)
  {
    var p: Node?<T> := list;
    head, tail, nmerges, out, calls := null, null, 0, [], 0;
    ghost var lo: nat, k: nat := 0, insize as int;
    ProgressStart(cmp, s, k);
    while p != null
      invariant lo <= |s| && p == At(s, lo, null)
      invariant Passing(s, lo, oldhead, head, tail, out, back)
      invariant Progress(cmp, s, lo, k, out, calls)
      invariant 0 <= nmerges as int <= lo && (nmerges == 0 ==> lo == 0)
      invariant nmerges == 1 ==> lo == Min(2 * k, |s|)
      invariant nmerges >= 2 ==> 2 * k < |s|
      invariant !back ==> forall i :: 0 <= i < |s| ==> s[i].prev == old(s[i].prev)
      decreases |s| - lo
    {
      nmerges := nmerges + 1;
      p, head, tail, out, calls, lo := PassTurn(cmp, p, insize, oldhead, head, tail, back, s, lo, k, out, calls);
    }
    ProgressEnd(cmp, s, k, out, calls);
  }

  // ---- the macros --------------------------------------------------------------------------------

  /** Where the outer loop stands: the list is `r`, the next pass is over runs of `k`. */
  ghost predicate Sorting<N>(cmp: Cmp<N>, s: seq<N>, r: seq<N>, k: nat, looping: bool, calls: nat, passes: nat)
    requires k > 0
  {
    && |r| == |s| && multiset(r) == multiset(s)
    && if looping then
         && SortFrom(cmp, r, k) == Sort(cmp, s)
         && calls + SortCost(cmp, r, k) == SortCost(cmp, s, 1)
         && passes + Passes(|s|, k) == Passes(|s|, 1)
       else r == Sort(cmp, s) && calls == SortCost(cmp, s, 1) && passes == Passes(|s|, 1)
  }

  lemma SortingStep<N>(cmp: Cmp<N>, s: seq<N>, r: seq<N>, k: nat, calls: nat, passes: nat)
    requires k > 0 && Sorting(cmp, s, r, k, true, calls, passes)
    ensures Sorting(cmp, s, Pass(cmp, r, k), 2 * k, |s| > 2 * k, calls + PassCost(cmp, r, k), passes + 1)
  {
    PassPermutes(cmp, r, k);
  }

  lemma SameNodes<N>(s: seq<N>, r: seq<N>)
    requires multiset(r) == multiset(s)
    ensures forall i :: 0 <= i < |r| ==> r[i] in s
  {
    forall i | 0 <= i < |r|
      ensures r[i] in s
    {
      assert r[i] in multiset(r);
    }
  }

  /** A pass of `LL_SORT2`, closed. */
  method LLPass<T>(cmp: Cmp<Node<T>>, list0: Node<T>, insize: int32, ghost s: seq<Node<T>>)
    returns (list: Node?<T>, nmerges: int32, ghost r: seq<Node<T>>, ghost calls: nat)
    requires 0 < insize && 0 < |s| <= 0x4000_0000 && IsLL(list0, s)
    modifies s
    ensures r == Pass(cmp, s, insize as int) && calls == PassCost(cmp, s, insize as int)
    ensures IsLL(list, r)
    ensures nmerges <= 1 <==> |s| <= 2 * insize as int
    ensures forall i :: 0 <= i < |s| ==> s[i].prev == old(s[i].prev)
  {
    var tail;
    list, tail, nmerges, r, calls := MergePass(cmp, list0, insize, null, false, s);
    if tail != null {
      EndList(list, tail, r);
    }
  }

  /** `tail->next = NULL`. */
  method EndList<T>(list: Node?<T>, tail: Node<T>, ghost r: seq<Node<T>>)
    requires Output(list, tail, r, false) && Distinct(r) && r != []
    modifies tail`next
    ensures Linked(r, 0, |r|, null)
  {
    tail.next := null;
    CloseLinks(r, null);
  }

  /** The links inside the list and the one that closes it make a list. */
  lemma CloseLinks<T>(r: seq<Node<T>>, end: Node?<T>)
    requires r != [] && (forall i :: 0 < i < |r| ==> r[i - 1].next == r[i]) && r[|r| - 1].next == end
    ensures Linked(r, 0, |r|, end)
  {
    forall i | 0 <= i < |r|
      ensures r[i].next == At(r, i + 1, end)
    {
      if i + 1 < |r| { assert r[i + 1 - 1].next == r[i + 1]; }
    }
  }

  /** `LL_SORT2`.  `calls` and `passes` count the comparisons and the turns of the outer loop. */
  method LLSort<T>(cmp: Cmp<Node<T>>, list0: Node?<T>, ghost s: seq<Node<T>>)
    returns (list: Node?<T>, ghost r: seq<Node<T>>, ghost calls: nat, ghost passes: nat)
    requires IsLL(list0, s) && |s| <= 0x4000_0000
    modifies s
    ensures IsLL(list, r) && r == Sort(cmp, s)
    ensures calls == SortCost(cmp, s, 1) && passes == if s == [] then 0 else Passes(|s|, 1)
    ensures forall i :: 0 <= i < |s| ==> s[i].prev == old(s[i].prev)
  {
    list, r, calls, passes := list0, s, 0, 0;
    if list != null {
      var insize: int32, looping := 1, true;
      while looping
        invariant 0 < insize && (looping ==> insize == 1 || insize as int < |s|)
        invariant IsLL(list, r) && Sorting(cmp, s, r, insize as int, looping, calls, passes)
        invariant forall i :: 0 <= i < |s| ==> s[i].prev == old(s[i].prev)
        decreases looping, |s| - insize as int
      {
        SortingStep(cmp, s, r, insize as int, calls, passes);
        SameNodes(s, r);
        SameNodes(r, s);
        var nmerges;
        ghost var c: nat;
        list, nmerges, r, c := LLPass(cmp, list, insize, r);
        if nmerges <= 1 {
          looping := false;
        }
        insize := insize * 2;
        calls, passes := calls + c, passes + 1;
      }
    }
  }

  /** `list->prev = tail; tail->next = end`: what closes a pass of the doubly linked macros. */
  method Close<T>(list: Node<T>, tail: Node<T>, end: Node?<T>, ghost r: seq<Node<T>>)
    requires Output(list, tail, r, true) && Distinct(r)
    modifies list, tail
    ensures Linked(r, 0, |r|, end) && BackLinked(r, tail)
  {
    list.prev := tail;
    tail.next := end;
    forall i | 0 <= i < |r|
      ensures r[i].next == At(r, i + 1, end) && r[i].prev == Before(r, i, tail)
    {
      if i + 1 < |r| { assert r[i + 1 - 1] != tail; }
      if i > 0 { assert r[i] != list; }
    }
  }

  /** A pass of `DL_SORT2`, closed. */
  method DLPass<T>(cmp: Cmp<Node<T>>, list0: Node<T>, insize: int32, ghost s: seq<Node<T>>)
    returns (list: Node?<T>, nmerges: int32, ghost r: seq<Node<T>>, ghost calls: nat)
    requires 0 < insize && 0 < |s| <= 0x4000_0000 && IsDL(list0, s)
    modifies s
    ensures r == Pass(cmp, s, insize as int) && calls == PassCost(cmp, s, insize as int)
    ensures IsDL(list, r)
    ensures nmerges <= 1 <==> |s| <= 2 * insize as int
  {
    var tail;
    list, tail, nmerges, r, calls := MergePass(cmp, list0, insize, null, true, s);
    HeadInList(cmp, s, insize as int, r);
    Close(list, tail, null, r);
  }

  lemma HeadInList<N>(cmp: Cmp<N>, s: seq<N>, k: nat, r: seq<N>)
    requires k > 0 && r == Pass(cmp, s, k) && s != []
    ensures r[0] in s
  {
    PassPermutes(cmp, s, k);
    SameNodes(s, r);
  }

  /** `DL_SORT2`. */
  method DLSort<T>(cmp: Cmp<Node<T>>, list0: Node?<T>, ghost s: seq<Node<T>>)
    returns (list: Node?<T>, ghost r: seq<Node<T>>, ghost calls: nat, ghost passes: nat)
    requires IsDL(list0, s) && |s| <= 0x4000_0000
    modifies s
    ensures IsDL(list, r) && r == Sort(cmp, s)
    ensures calls == SortCost(cmp, s, 1) && passes == if s == [] then 0 else Passes(|s|, 1)
  {
    list, r, calls, passes := list0, s, 0, 0;
    if list != null {
      var insize: int32, looping := 1, true;
      while looping
        invariant 0 < insize && (looping ==> insize == 1 || insize as int < |s|)
        invariant IsDL(list, r) && Sorting(cmp, s, r, insize as int, looping, calls, passes)
        decreases looping, |s| - insize as int
      {
        SortingStep(cmp, s, r, insize as int, calls, passes);
        SameNodes(s, r);
        var nmerges;
        ghost var c: nat;
        list, nmerges, r, c := DLPass(cmp, list, insize, r);
        if nmerges <= 1 {
          looping := false;
        }
        insize := insize * 2;
        calls, passes := calls + c, passes + 1;
      }
    }
  }

  /** A pass of `CDL_SORT2`, closed: the walk ends where the old head comes round, the result on the new one. */
  method CDLPass<T>(cmp: Cmp<Node<T>>, list0: Node<T>, insize: int32, ghost s: seq<Node<T>>)
    returns (list: Node?<T>, nmerges: int32, ghost r: seq<Node<T>>, ghost calls: nat)
    requires 0 < insize && 0 < |s| <= 0x4000_0000 && IsCDL(list0, s)
    modifies s
    ensures r == Pass(cmp, s, insize as int) && calls == PassCost(cmp, s, insize as int)
    ensures IsCDL(list, r)
    ensures nmerges <= 1 <==> |s| <= 2 * insize as int
  {
    var oldhead, tail := list0, null;
    list, tail, nmerges, r, calls := MergePass(cmp, list0, insize, oldhead, true, s);
    HeadInList(cmp, s, insize as int, r);
    Close(list, tail, list, r);
  }

  /** `CDL_SORT2`. */
  method CDLSort<T>(cmp: Cmp<Node<T>>, list0: Node?<T>, ghost s: seq<Node<T>>)
    returns (list: Node?<T>, ghost r: seq<Node<T>>, ghost calls: nat, ghost passes: nat)
    requires IsCDL(list0, s) && |s| <= 0x4000_0000
    modifies s
    ensures IsCDL(list, r) && r == Sort(cmp, s)
    ensures calls == SortCost(cmp, s, 1) && passes == if s == [] then 0 else Passes(|s|, 1)
  {
    list, r, calls, passes := list0, s, 0, 0;
    if list != null {
      var insize: int32, looping := 1, true;
      while looping
        invariant 0 < insize && (looping ==> insize == 1 || insize as int < |s|)
        invariant IsCDL(list, r) && Sorting(cmp, s, r, insize as int, looping, calls, passes)
        decreases looping, |s| - insize as int
      {
        SortingStep(cmp, s, r, insize as int, calls, passes);
        SameNodes(s, r);
        var nmerges;
        ghost var c: nat;
        list, nmerges, r, c := CDLPass(cmp, list, insize, r);
        if nmerges <= 1 {
          looping := false;
        }
        insize := insize * 2;
        calls, passes := calls + c, passes + 1;
      }
    }
  }
}
