/** The bottom-up merge sort of the utlist.h sort macros, on sequences: what the macros are proved to compute,
    and why that is a sort. */
module MergeSort {
  import opened Bytes

  /** The comparison a sort macro is given: negative or 0 if the first may come first. */
  type Cmp<!N> = (N, N) -> int

  /** The macro's inner loop: two runs become one; on a tie the first run goes first. */
  function Merge<N>(cmp: Cmp<N>, a: seq<N>, b: seq<N>): (r: seq<N>)
    ensures |r| == |a| + |b|
    decreases |a| + |b|
  {
    if a == [] then b
    else if b == [] then a
    else if cmp(a[0], b[0]) <= 0 then [a[0]] + Merge(cmp, a[1..], b)
    else [b[0]] + Merge(cmp, a, b[1..])
  }

  /** One pass: the runs of length `k` are merged two by two. */
  function Pass<N>(cmp: Cmp<N>, s: seq<N>, k: nat): (r: seq<N>)
    requires k > 0
    ensures |r| == |s|
    decreases |s|
  {
    if s == [] then []
    else
      var m, h := Min(k, |s|), Min(2 * k, |s|);
      Merge(cmp, s[..m], s[m..h]) + Pass(cmp, s[h..], k)
  }

  /** Passes with runs of `k`, `2 * k`, ... until one merge did it all. */
  function SortFrom<N>(cmp: Cmp<N>, s: seq<N>, k: nat): (r: seq<N>)
    requires k > 0
    ensures |r| == |s|
    decreases |s| - k
  {
    if |s| <= 2 * k then Pass(cmp, s, k) else SortFrom(cmp, Pass(cmp, s, k), 2 * k)
  }

  /** What the sort macros compute. */
  function Sort<N>(cmp: Cmp<N>, s: seq<N>): seq<N> {
    SortFrom(cmp, s, 1)
  }

  // ---- a sort rearranges -------------------------------------------------------------------------

  lemma FirstAndRest<N>(s: seq<N>)
    requires s != []
    ensures multiset(s) == multiset{s[0]} + multiset(s[1..])
  {
    assert s == [s[0]] + s[1..];
  }

  lemma {:induction false} MergePermutes<N>(cmp: Cmp<N>, a: seq<N>, b: seq<N>)
    ensures multiset(Merge(cmp, a, b)) == multiset(a) + multiset(b)
    decreases |a| + |b|
  {
    if a != [] && b != [] {
      if cmp(a[0], b[0]) <= 0 {
        MergePermutes(cmp, a[1..], b);
        FirstAndRest(a);
      } else {
        MergePermutes(cmp, a, b[1..]);
        FirstAndRest(b);
      }
    }
  }

  lemma ThreeParts<N>(s: seq<N>, m: nat, h: nat)
    requires m <= h <= |s|
    ensures s == s[..m] + s[m..h] + s[h..]
    ensures multiset(s) == multiset(s[..m]) + multiset(s[m..h]) + multiset(s[h..])
  {
    assert s == s[..m] + s[m..h] + s[h..];
  }

  lemma {:induction false} PassPermutes<N>(cmp: Cmp<N>, s: seq<N>, k: nat)
    requires k > 0
    ensures multiset(Pass(cmp, s, k)) == multiset(s)
    decreases |s|
  {
    if s != [] {
      var m, h := Min(k, |s|), Min(2 * k, |s|);
      MergePermutes(cmp, s[..m], s[m..h]);
      PassPermutes(cmp, s[h..], k);
      ThreeParts(s, m, h);
    }
  }

  lemma {:induction false} SortFromPermutes<N>(cmp: Cmp<N>, s: seq<N>, k: nat)
    requires k > 0
    ensures multiset(SortFrom(cmp, s, k)) == multiset(s)
    decreases |s| - k
  {
    PassPermutes(cmp, s, k);
    if |s| > 2 * k {
      SortFromPermutes(cmp, Pass(cmp, s, k), 2 * k);
    }
  }

  // ---- a sort sorts ------------------------------------------------------------------------------

  ghost predicate TotalPreorder<N>(cmp: Cmp<N>, s: multiset<N>) {
    && (forall x, y :: x in s && y in s ==> cmp(x, y) <= 0 || cmp(y, x) <= 0)
    && (forall x, y, z :: x in s && y in s && z in s && cmp(x, y) <= 0 && cmp(y, z) <= 0 ==> cmp(x, z) <= 0)
  }

  ghost predicate Sorted<N>(cmp: Cmp<N>, s: seq<N>) {
    forall i, j :: 0 <= i < j < |s| ==> cmp(s[i], s[j]) <= 0
  }

  /** Each run of `k` elements is sorted (the last one may be shorter). */
  ghost predicate Runs<N>(cmp: Cmp<N>, s: seq<N>, k: nat)
    requires k > 0
    decreases |s|
  {
    s == [] || (Sorted(cmp, s[..Min(k, |s|)]) && Runs(cmp, s[Min(k, |s|)..], k))
  }

  /** `x` may come before all of `s`. */
  ghost predicate Below<N>(cmp: Cmp<N>, x: N, s: seq<N>) {
    forall i :: 0 <= i < |s| ==> cmp(x, s[i]) <= 0
  }

  lemma SortedCons<N>(cmp: Cmp<N>, s: seq<N>)
    requires s != []
    ensures Sorted(cmp, s) <==> Below(cmp, s[0], s[1..]) && Sorted(cmp, s[1..])
  {
    if Below(cmp, s[0], s[1..]) && Sorted(cmp, s[1..]) {
      forall i, j | 0 <= i < j < |s|
        ensures cmp(s[i], s[j]) <= 0
      {
        assert s[j] == s[1..][j - 1];
        if i > 0 {
          assert s[i] == s[1..][i - 1];
        }
      }
    }
  }

  lemma {:induction false} BelowMerge<N>(cmp: Cmp<N>, x: N, a: seq<N>, b: seq<N>)
    requires Below(cmp, x, a) && Below(cmp, x, b)
    ensures Below(cmp, x, Merge(cmp, a, b))
    decreases |a| + |b|
  {
    if a != [] && b != [] {
      if cmp(a[0], b[0]) <= 0 {
        BelowMerge(cmp, x, a[1..], b);
      } else {
        BelowMerge(cmp, x, a, b[1..]);
      }
    }
  }

  /** What is below the first of a sorted run is below all of it. */
  lemma BelowRun<N>(cmp: Cmp<N>, x: N, s: seq<N>, all: multiset<N>)
    requires s != [] && Sorted(cmp, s) && cmp(x, s[0]) <= 0
    requires TotalPreorder(cmp, all) && x in all && multiset(s) <= all
    ensures Below(cmp, x, s)
  {
    forall i | 0 <= i < |s|
      ensures cmp(x, s[i]) <= 0
    {
      assert s[i] in multiset(s) && s[0] in multiset(s);
    }
  }

  lemma {:induction false} MergeSorts<N>(cmp: Cmp<N>, a: seq<N>, b: seq<N>, all: multiset<N>)
    requires Sorted(cmp, a) && Sorted(cmp, b)
    requires TotalPreorder(cmp, all) && multiset(a) <= all && multiset(b) <= all
    ensures Sorted(cmp, Merge(cmp, a, b))
    decreases |a| + |b|
  {
    if a != [] && b != [] {
      assert a[0] in multiset(a) && b[0] in multiset(b);
      SortedCons(cmp, a);
      SortedCons(cmp, b);
      if cmp(a[0], b[0]) <= 0 {
        SubMultiset(a, all);
        MergeSorts(cmp, a[1..], b, all);
        BelowRun(cmp, a[0], b, all);
        BelowMerge(cmp, a[0], a[1..], b);
      } else {
        SubMultiset(b, all);
        MergeSorts(cmp, a, b[1..], all);
        BelowRun(cmp, b[0], a, all);
        BelowMerge(cmp, b[0], a, b[1..]);
      }
      SortedCons(cmp, Merge(cmp, a, b));
    }
  }

  lemma SubMultiset<N>(s: seq<N>, all: multiset<N>)
    requires s != [] && multiset(s) <= all
    ensures multiset(s[1..]) <= all
  {
    FirstAndRest(s);
  }

  lemma Parts<N>(s: seq<N>, m: nat, h: nat, all: multiset<N>)
    requires m <= h <= |s| && multiset(s) <= all
    ensures multiset(s[..m]) <= all && multiset(s[m..h]) <= all && multiset(s[h..]) <= all
  {
    ThreeParts(s, m, h);
  }

  /** Each pass doubles the length of the sorted runs. */
  lemma {:induction false} PassDoublesRuns<N>(cmp: Cmp<N>, s: seq<N>, k: nat, all: multiset<N>)
    requires k > 0 && Runs(cmp, s, k)
    requires TotalPreorder(cmp, all) && multiset(s) <= all
    ensures Runs(cmp, Pass(cmp, s, k), 2 * k)
    decreases |s|
  {
    if s != [] {
      var m, h := Min(k, |s|), Min(2 * k, |s|);
      Parts(s, m, h, all);
      SecondRun(cmp, s, k);
      MergeSorts(cmp, s[..m], s[m..h], all);
      PassDoublesRuns(cmp, s[h..], k, all);
      var r := Pass(cmp, s, k);
      assert r[..h] == Merge(cmp, s[..m], s[m..h]) && r[h..] == Pass(cmp, s[h..], k);
    }
  }

  lemma SecondRun<N>(cmp: Cmp<N>, s: seq<N>, k: nat)
    requires k > 0 && s != [] && Runs(cmp, s, k)
    ensures var m, h := Min(k, |s|), Min(2 * k, |s|);
      Sorted(cmp, s[..m]) && Sorted(cmp, s[m..h]) && Runs(cmp, s[h..], k)
  {
    var m, h := Min(k, |s|), Min(2 * k, |s|);
    var t := s[m..];
    if t == [] {
      assert s[h..] == [];
    } else {
      assert t[..Min(k, |t|)] == s[m..h] && t[Min(k, |t|)..] == s[h..];
    }
  }

  lemma {:induction false} SingleRuns<N>(cmp: Cmp<N>, s: seq<N>)
    ensures Runs(cmp, s, 1)
  {
    if s != [] {
      SingleRuns(cmp, s[1..]);
    }
  }

  lemma {:induction false} SortFromSorts<N>(cmp: Cmp<N>, s: seq<N>, k: nat, all: multiset<N>)
    requires k > 0 && Runs(cmp, s, k)
    requires TotalPreorder(cmp, all) && multiset(s) <= all
    ensures Sorted(cmp, SortFrom(cmp, s, k))
    decreases |s| - k
  {
    PassDoublesRuns(cmp, s, k, all);
    var r := Pass(cmp, s, k);
    if |s| <= 2 * k {
      assert r[..Min(2 * k, |r|)] == r;
    } else {
      PassPermutes(cmp, s, k);
      SortFromSorts(cmp, r, 2 * k, all);
    }
  }

  // ---- a sort is stable --------------------------------------------------------------------------

  predicate Same<N>(cmp: Cmp<N>, x: N, y: N) {
    cmp(x, y) <= 0 && cmp(y, x) <= 0
  }

  /** The elements of `s` that compare equal to `x`, in the order of `s`. */
  function Equals<N>(cmp: Cmp<N>, x: N, s: seq<N>): seq<N> {
    if s == [] then []
    else EqualsOne(cmp, x, s[0]) + Equals(cmp, x, s[1..])
  }

  function EqualsOne<N>(cmp: Cmp<N>, x: N, y: N): seq<N> {
    if Same(cmp, x, y) then [y] else []
  }

  lemma {:induction false} EqualsOfTwo<N>(cmp: Cmp<N>, x: N, a: seq<N>, b: seq<N>)
    ensures Equals(cmp, x, a + b) == Equals(cmp, x, a) + Equals(cmp, x, b)
  {
    if a == [] {
      assert a + b == b;
    } else {
      EqualsOfTwo(cmp, x, a[1..], b);
      assert (a + b)[1..] == a[1..] + b;
      Assoc(EqualsOne(cmp, x, a[0]), Equals(cmp, x, a[1..]), Equals(cmp, x, b));
    }
  }

  lemma {:induction false} NoEquals<N>(cmp: Cmp<N>, x: N, s: seq<N>)
    requires forall i :: 0 <= i < |s| ==> !Same(cmp, x, s[i])
    ensures Equals(cmp, x, s) == []
  {
    if s != [] {
      NoEquals(cmp, x, s[1..]);
    }
  }

  lemma NotSame<N>(cmp: Cmp<N>, first: N, z: N, x: N, y: N, all: multiset<N>)
    requires TotalPreorder(cmp, all) && first in all && z in all && x in all && y in all
    requires cmp(first, z) <= 0 && cmp(first, y) > 0 && Same(cmp, x, y)
    ensures !Same(cmp, x, z)
  {
  }

  /** An element that belongs strictly before a run has no equals in it. */
  lemma StrictlyBelow<N>(cmp: Cmp<N>, x: N, y: N, s: seq<N>, all: multiset<N>)
    requires s != [] && Sorted(cmp, s) && cmp(s[0], y) > 0 && Same(cmp, x, y)
    requires TotalPreorder(cmp, all) && x in all && y in all && multiset(s) <= all
    ensures Equals(cmp, x, s) == []
  {
    forall i | 0 <= i < |s|
      ensures !Same(cmp, x, s[i])
    {
      assert s[i] in multiset(s) && s[0] in multiset(s);
      assert cmp(s[0], s[i]) <= 0;
      NotSame(cmp, s[0], s[i], x, y, all);
    }
    NoEquals(cmp, x, s);
  }

  /** Merging keeps equal elements in order, those of the first run first. */
  lemma {:induction false} MergeIsStable<N>(cmp: Cmp<N>, x: N, a: seq<N>, b: seq<N>, all: multiset<N>)
    requires Sorted(cmp, a) && TotalPreorder(cmp, all) && x in all && multiset(a) <= all && multiset(b) <= all
    ensures Equals(cmp, x, Merge(cmp, a, b)) == Equals(cmp, x, a) + Equals(cmp, x, b)
    decreases |a| + |b|
  {
    if a == [] || b == [] {
      EqualsOfTwo(cmp, x, a, b);
      assert a + b == Merge(cmp, a, b);
    } else if cmp(a[0], b[0]) <= 0 {
      SubMultiset(a, all);
      MergeIsStable(cmp, x, a[1..], b, all);
      EqualsCons(cmp, x, a[0], Merge(cmp, a[1..], b));
      Assoc(EqualsOne(cmp, x, a[0]), Equals(cmp, x, a[1..]), Equals(cmp, x, b));
    } else {
      SubMultiset(b, all);
      MergeIsStable(cmp, x, a, b[1..], all);
      EqualsCons(cmp, x, b[0], Merge(cmp, a, b[1..]));
      assert b[0] in multiset(b);
      if Same(cmp, x, b[0]) {
        StrictlyBelow(cmp, x, b[0], a, all);
      }
      Swap(EqualsOne(cmp, x, b[0]), Equals(cmp, x, a), Equals(cmp, x, b[1..]));
    }
  }

  lemma EqualsCons<N>(cmp: Cmp<N>, x: N, y: N, s: seq<N>)
    ensures Equals(cmp, x, [y] + s) == EqualsOne(cmp, x, y) + Equals(cmp, x, s)
  {
    assert ([y] + s)[1..] == s;
  }

  lemma Swap<N>(e: seq<N>, a: seq<N>, b: seq<N>)
    requires e == [] || a == []
    ensures e + (a + b) == a + (e + b)
  {
  }

  lemma StableParts<N>(cmp: Cmp<N>, x: N, a: seq<N>, b: seq<N>, c: seq<N>, merged: seq<N>, rest: seq<N>)
    requires Equals(cmp, x, merged) == Equals(cmp, x, a) + Equals(cmp, x, b)
    requires Equals(cmp, x, rest) == Equals(cmp, x, c)
    ensures Equals(cmp, x, merged + rest) == Equals(cmp, x, a + b + c)
  {
    EqualsOfTwo(cmp, x, merged, rest);
    EqualsOfTwo(cmp, x, a, b);
    EqualsOfTwo(cmp, x, a + b, c);
  }

  lemma {:induction false} PassIsStable<N>(cmp: Cmp<N>, x: N, s: seq<N>, k: nat, all: multiset<N>)
    requires k > 0 && Runs(cmp, s, k)
    requires TotalPreorder(cmp, all) && x in all && multiset(s) <= all
    ensures Equals(cmp, x, Pass(cmp, s, k)) == Equals(cmp, x, s)
    decreases |s|
  {
    if s != [] {
      var m, h := Min(k, |s|), Min(2 * k, |s|);
      Parts(s, m, h, all);
      SecondRun(cmp, s, k);
      MergeIsStable(cmp, x, s[..m], s[m..h], all);
      PassIsStable(cmp, x, s[h..], k, all);
      StableParts(cmp, x, s[..m], s[m..h], s[h..], Merge(cmp, s[..m], s[m..h]), Pass(cmp, s[h..], k));
      ThreeParts(s, m, h);
    }
  }

  lemma {:induction false} SortFromIsStable<N>(cmp: Cmp<N>, x: N, s: seq<N>, k: nat, all: multiset<N>)
    requires k > 0 && Runs(cmp, s, k)
    requires TotalPreorder(cmp, all) && x in all && multiset(s) <= all
    ensures Equals(cmp, x, SortFrom(cmp, s, k)) == Equals(cmp, x, s)
    decreases |s| - k
  {
    PassIsStable(cmp, x, s, k, all);
    if |s| > 2 * k {
      PassPermutes(cmp, s, k);
      PassDoublesRuns(cmp, s, k, all);
      SortFromIsStable(cmp, x, Pass(cmp, s, k), 2 * k, all);
    }
  }

  /** With a comparison that is a total preorder on the elements, the result is the sorted, stable
      rearrangement of the list. */
  lemma SortIsCorrect<N>(cmp: Cmp<N>, s: seq<N>)
    ensures multiset(Sort(cmp, s)) == multiset(s)
    ensures TotalPreorder(cmp, multiset(s)) ==> Sorted(cmp, Sort(cmp, s))
    ensures TotalPreorder(cmp, multiset(s)) ==>
      forall x :: x in s ==> Equals(cmp, x, Sort(cmp, s)) == Equals(cmp, x, s)
  {
    SortFromPermutes(cmp, s, 1);
    if TotalPreorder(cmp, multiset(s)) {
      SingleRuns(cmp, s);
      SortFromSorts(cmp, s, 1, multiset(s));
      forall x | x in s
        ensures Equals(cmp, x, Sort(cmp, s)) == Equals(cmp, x, s)
      {
        SortFromIsStable(cmp, x, s, 1, multiset(s));
      }
    }
  }

  // ---- a sort is fast ----------------------------------------------------------------------------

  /** How often the inner loop calls the comparison. */
  function MergeCost<N>(cmp: Cmp<N>, a: seq<N>, b: seq<N>): (c: nat)
    ensures c <= |a| + |b| && (a == [] || b == [] ==> c == 0)
    decreases |a| + |b|
  {
    if a == [] || b == [] then 0
    else if cmp(a[0], b[0]) <= 0 then 1 + MergeCost(cmp, a[1..], b)
    else 1 + MergeCost(cmp, a, b[1..])
  }

  function PassCost<N>(cmp: Cmp<N>, s: seq<N>, k: nat): (c: nat)
    requires k > 0
    ensures c <= |s|
    decreases |s|
  {
    if s == [] then 0
    else
      var m, h := Min(k, |s|), Min(2 * k, |s|);
      MergeCost(cmp, s[..m], s[m..h]) + PassCost(cmp, s[h..], k)
  }

  function SortCost<N>(cmp: Cmp<N>, s: seq<N>, k: nat): nat
    requires k > 0
    decreases |s| - k
  {
    PassCost(cmp, s, k) + if |s| <= 2 * k then 0 else SortCost(cmp, Pass(cmp, s, k), 2 * k)
  }

  /** How many passes are made on `n` elements, from runs of length `k`. */
  function Passes(n: nat, k: nat): (p: nat)
    requires k > 0
    ensures p > 0
    decreases n - k
  {
    if n <= 2 * k then 1 else 1 + Passes(n, 2 * k)
  }

  lemma {:induction false} PassesIsLog(n: nat, k: nat)
    requires 0 < k < n
    ensures k * Power2(Passes(n, k) - 1) < n <= k * Power2(Passes(n, k))
    decreases n - k
  {
    if n <= 2 * k {
      assert Power2(1) == 2 * Power2(0);
    } else {
      PassesIsLog(n, 2 * k);
      var p := Passes(n, 2 * k);
      assert 2 * k * Power2(p) == k * Power2(p + 1);
      assert 2 * k * Power2(p - 1) == k * Power2(p);
    }
  }

  lemma OneMore(n: nat, p: nat)
    ensures n * (1 + p) == n + n * p
  {
  }

  lemma {:induction false} CostPerPass<N>(cmp: Cmp<N>, s: seq<N>, k: nat)
    requires k > 0
    ensures SortCost(cmp, s, k) <= |s| * Passes(|s|, k)
    decreases |s| - k
  {
    if |s| > 2 * k {
      CostPerPass(cmp, Pass(cmp, s, k), 2 * k);
      OneMore(|s|, Passes(|s|, 2 * k));
    }
  }

  /** O(n log n): at most `n` comparisons a pass, and for two or more elements exactly ceil(log2 n) passes. */
  lemma SortIsFast<N>(cmp: Cmp<N>, s: seq<N>)
    ensures SortCost(cmp, s, 1) <= |s| * Passes(|s|, 1)
    ensures |s| >= 2 ==> Power2(Passes(|s|, 1) - 1) < |s| <= Power2(Passes(|s|, 1))
    ensures |s| <= 1 ==> SortCost(cmp, s, 1) == 0
  {
    CostPerPass(cmp, s, 1);
    if |s| >= 2 {
      PassesIsLog(|s|, 1);
    }
  }
}
