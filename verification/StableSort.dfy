// What DL_SORT of utlist.h computes, on values: a bottom-up merge sort.  Module
// ListSort shows that the in-place sort computes this function.
module StableSort {
  import opened Bytes

  /** A three-way comparison, as the argument of DL_SORT: positive if x goes after y. */
  type Comparison<!E> = (E, E) -> int

  /** Merge two runs; of two tied elements, the one of the first run comes first. */
  function Merge<E>(cmp: Comparison<E>, a: seq<E>, b: seq<E>): (m: seq<E>)
    ensures |m| == |a| + |b|
    decreases |a| + |b|
  {
    if a == [] then b
    else if b == [] then a
    else if cmp(a[0], b[0]) <= 0 then [a[0]] + Merge(cmp, a[1..], b)
    else [b[0]] + Merge(cmp, a, b[1..])
  }

  /** Merge consecutive pairs of runs of length `k`. */
  function Pass<E>(cmp: Comparison<E>, ns: seq<E>, k: nat): (m: seq<E>)
    requires k > 0
    ensures |m| == |ns|
    decreases |ns|
  {
    if ns == [] then [] else
      var mid, end := Min(k, |ns|), Min(2 * k, |ns|);
      Merge(cmp, ns[..mid], ns[mid..end]) + Pass(cmp, ns[end..], k)
  }

  function SortFrom<E>(cmp: Comparison<E>, ns: seq<E>, k: nat): (m: seq<E>)
    requires k > 0
    ensures |m| == |ns|
    decreases |ns| - k
  {
    if |ns| <= 2 * k then Pass(cmp, ns, k) else SortFrom(cmp, Pass(cmp, ns, k), 2 * k)
  }

  function Passes(n: nat, k: nat): (p: nat)
    requires k > 0
    ensures p >= 1
    decreases n - k
  {
    if n <= 2 * k then 1 else 1 + Passes(n, 2 * k)
  }

  // ----- what sorting means -----

  /** On `dom`, the comparison is a total preorder. */
  ghost predicate Preorder<E>(cmp: Comparison<E>, dom: set<E>) {
    && (forall x, y | x in dom && y in dom :: cmp(x, y) <= 0 || cmp(y, x) <= 0)
    && (forall x, y, z | x in dom && y in dom && z in dom :: cmp(x, y) <= 0 && cmp(y, z) <= 0 ==> cmp(x, z) <= 0)
  }

  ghost predicate Within<E>(ns: seq<E>, dom: set<E>) {
    forall i | 0 <= i < |ns| :: ns[i] in dom
  }

  predicate Sorted<E>(cmp: Comparison<E>, ns: seq<E>) {
    forall i, j | 0 <= i < j < |ns| :: cmp(ns[i], ns[j]) <= 0
  }

  /** `ns` consists of consecutive sorted runs of length `k`, the last perhaps shorter. */
  predicate Runs<E>(cmp: Comparison<E>, ns: seq<E>, k: nat)
    requires k > 0
    decreases |ns|
  {
    ns == [] || (Sorted(cmp, ns[..Min(k, |ns|)]) && Runs(cmp, ns[Min(k, |ns|)..], k))
  }

  predicate Tied<E>(cmp: Comparison<E>, x: E, y: E) {
    cmp(x, y) <= 0 && cmp(y, x) <= 0
  }

  /** The elements of `ns` that tie with `x`, in order. */
  function TiedTo<E>(cmp: Comparison<E>, x: E, ns: seq<E>): seq<E> {
    if ns == [] then []
    else (if Tied(cmp, x, ns[0]) then [ns[0]] else []) + TiedTo(cmp, x, ns[1..])
  }

  // ----- the equations of Merge, Pass and TiedTo -----

  lemma MergeFirst<E>(cmp: Comparison<E>, a: seq<E>, b: seq<E>)
    requires a != [] && (b != [] ==> cmp(a[0], b[0]) <= 0)
    ensures Merge(cmp, a, b) == [a[0]] + Merge(cmp, a[1..], b)
    ensures a == [a[0]] + a[1..]
  {
  }

  lemma MergeSecond<E>(cmp: Comparison<E>, a: seq<E>, b: seq<E>)
    requires b != [] && (a != [] ==> cmp(a[0], b[0]) > 0)
    ensures Merge(cmp, a, b) == [b[0]] + Merge(cmp, a, b[1..])
    ensures b == [b[0]] + b[1..]
  {
  }

  lemma PassUnfold<E>(cmp: Comparison<E>, ns: seq<E>, k: nat) returns (a: seq<E>, b: seq<E>, rest: seq<E>)
    requires k > 0 && ns != []
    ensures var mid, end := Min(k, |ns|), Min(2 * k, |ns|);
            a == ns[..mid] && b == ns[mid..end] && rest == ns[end..]
    ensures |rest| < |ns| && ns == (a + b) + rest
    ensures Pass(cmp, ns, k) == Merge(cmp, a, b) + Pass(cmp, rest, k)
  {
    var mid, end := Min(k, |ns|), Min(2 * k, |ns|);
    a, b, rest := ns[..mid], ns[mid..end], ns[end..];
    Split3(ns, mid, end);
  }

  // ----- permutation -----

  lemma {:induction false} MergePermutes<E>(cmp: Comparison<E>, a: seq<E>, b: seq<E>)
    ensures multiset(Merge(cmp, a, b)) == multiset(a) + multiset(b)
    decreases |a| + |b|
  {
    if a == [] {
    } else if b == [] || cmp(a[0], b[0]) <= 0 {
      MergeFirst(cmp, a, b);
      hide Merge;
      MergePermutes(cmp, a[1..], b);
    } else {
      MergeSecond(cmp, a, b);
      hide Merge;
      MergePermutes(cmp, a, b[1..]);
    }
  }

  lemma {:induction false} PassPermutes<E>(cmp: Comparison<E>, ns: seq<E>, k: nat)
    requires k > 0
    ensures multiset(Pass(cmp, ns, k)) == multiset(ns)
    decreases |ns|
  {
    if ns != [] {
      hide Merge, Pass;
      var a, b, rest := PassUnfold(cmp, ns, k);
      MergePermutes(cmp, a, b);
      PassPermutes(cmp, rest, k);
    }
  }

  lemma WithinPermutation<E>(a: seq<E>, b: seq<E>, dom: set<E>)
    requires multiset(a) == multiset(b) && Within(a, dom)
    ensures Within(b, dom)
  {
    forall i | 0 <= i < |b|
      ensures b[i] in dom
    {
      assert b[i] in multiset(b);
      assert b[i] in a;
    }
  }

  // ----- order -----

  lemma {:induction false} MergeSorts<E>(cmp: Comparison<E>, a: seq<E>, b: seq<E>, dom: set<E>)
    requires Preorder(cmp, dom) && Within(a, dom) && Within(b, dom)
    requires Sorted(cmp, a) && Sorted(cmp, b)
    ensures Sorted(cmp, Merge(cmp, a, b))
    decreases |a| + |b|
  {
    if a == [] || b == [] {
    } else if cmp(a[0], b[0]) <= 0 {
      MergeSorts(cmp, a[1..], b, dom);
      LeastFirst(cmp, a[0], a[1..], b, dom);
    } else {
      MergeSorts(cmp, a, b[1..], dom);
      LeastFirst(cmp, b[0], a, b[1..], dom);
    }
  }

  /** What is least in both runs is least in their merge. */
  lemma LeastFirst<E>(cmp: Comparison<E>, x: E, a: seq<E>, b: seq<E>, dom: set<E>)
    requires Preorder(cmp, dom) && x in dom && Within(a, dom) && Within(b, dom)
    requires Sorted(cmp, a) && Sorted(cmp, b)
    requires (a != [] ==> cmp(x, a[0]) <= 0) && (b != [] ==> cmp(x, b[0]) <= 0)
    ensures forall i | 0 <= i < |Merge(cmp, a, b)| :: cmp(x, Merge(cmp, a, b)[i]) <= 0
  {
    var m := Merge(cmp, a, b);
    MergePermutes(cmp, a, b);
    forall i | 0 <= i < |m|
      ensures cmp(x, m[i]) <= 0
    {
      assert m[i] in multiset(m);
      assert m[i] in a || m[i] in b;
    }
  }

  /** A pass doubles the length of the sorted runs. */
  lemma {:induction false} PassDoublesRuns<E>(cmp: Comparison<E>, ns: seq<E>, k: nat, dom: set<E>)
    requires k > 0 && Preorder(cmp, dom) && Within(ns, dom) && Runs(cmp, ns, k)
    ensures Runs(cmp, Pass(cmp, ns, k), 2 * k)
    decreases |ns|
  {
    if ns != [] {
      var mid, end := Min(k, |ns|), Min(2 * k, |ns|);
      SecondRun(cmp, ns, k);
      MergeSorts(cmp, ns[..mid], ns[mid..end], dom);
      PassDoublesRuns(cmp, ns[end..], k, dom);
      var m, rest := Merge(cmp, ns[..mid], ns[mid..end]), Pass(cmp, ns[end..], k);
      assert (m + rest)[..end] == m && (m + rest)[end..] == rest;
    }
  }

  lemma FirstRun<E>(cmp: Comparison<E>, ns: seq<E>, k: nat)
    requires k > 0 && Runs(cmp, ns, k)
    ensures Sorted(cmp, ns[..Min(k, |ns|)]) && Runs(cmp, ns[Min(k, |ns|)..], k)
  {
    hide Sorted;
    if ns == [] {
      SortedNone(cmp);
    }
  }

  lemma SortedNone<E>(cmp: Comparison<E>)
    ensures Sorted(cmp, [])
  {
  }

  lemma SecondRun<E>(cmp: Comparison<E>, ns: seq<E>, k: nat)
    requires k > 0 && Runs(cmp, ns, k)
    ensures Sorted(cmp, ns[..Min(k, |ns|)]) && Sorted(cmp, ns[Min(k, |ns|)..Min(2 * k, |ns|)])
    ensures Runs(cmp, ns[Min(2 * k, |ns|)..], k)
  {
    hide Sorted, Runs;
    var mid := Min(k, |ns|);
    FirstRun(cmp, ns, k);
    FirstRun(cmp, ns[mid..], k);
    Slices(ns, mid, Min(2 * k, |ns|));
  }

  lemma OneRun<E>(cmp: Comparison<E>, ns: seq<E>, k: nat)
    requires k > 0 && |ns| <= k && Runs(cmp, ns, k)
    ensures Sorted(cmp, ns)
  {
    if ns != [] {
      assert ns[..Min(k, |ns|)] == ns;
    }
  }

  lemma {:induction false} SingletonRuns<E>(cmp: Comparison<E>, ns: seq<E>)
    ensures Runs(cmp, ns, 1)
    decreases |ns|
  {
    if ns != [] {
      SingletonRuns(cmp, ns[1..]);
    }
  }

  // ----- stability -----

  lemma TiedToCons<E>(cmp: Comparison<E>, x: E, e: E, ns: seq<E>)
    ensures TiedTo(cmp, x, [e] + ns) == (if Tied(cmp, x, e) then [e] else []) + TiedTo(cmp, x, ns)
  {
    assert ([e] + ns)[1..] == ns;
  }

  lemma TiedToFirst<E>(cmp: Comparison<E>, x: E, e: E, m: seq<E>, a: seq<E>, b: seq<E>)
    requires TiedTo(cmp, x, m) == TiedTo(cmp, x, a) + TiedTo(cmp, x, b)
    ensures TiedTo(cmp, x, [e] + m) == TiedTo(cmp, x, [e] + a) + TiedTo(cmp, x, b)
  {
    TiedToCons(cmp, x, e, m);
    TiedToCons(cmp, x, e, a);
    hide TiedTo, Tied;
    Regroup(if Tied(cmp, x, e) then [e] else [], TiedTo(cmp, x, a), TiedTo(cmp, x, b));
  }

  lemma TiedToSecond<E>(cmp: Comparison<E>, x: E, e: E, m: seq<E>, a: seq<E>, b: seq<E>)
    requires TiedTo(cmp, x, m) == TiedTo(cmp, x, a) + TiedTo(cmp, x, b)
    requires Tied(cmp, x, e) ==> TiedTo(cmp, x, a) == []
    ensures TiedTo(cmp, x, [e] + m) == TiedTo(cmp, x, a) + TiedTo(cmp, x, [e] + b)
  {
    TiedToCons(cmp, x, e, m);
    TiedToCons(cmp, x, e, b);
    hide TiedTo, Tied;
  }

  lemma {:induction false} TiedToAppend<E>(cmp: Comparison<E>, x: E, a: seq<E>, b: seq<E>)
    ensures TiedTo(cmp, x, a + b) == TiedTo(cmp, x, a) + TiedTo(cmp, x, b)
  {
    if a == [] {
      assert a + b == b;
    } else {
      TiedToAppend(cmp, x, a[1..], b);
      TiedToFirst(cmp, x, a[0], a[1..] + b, a[1..], b);
      hide TiedTo;
      assert a == [a[0]] + a[1..] && a + b == [a[0]] + (a[1..] + b);
    }
  }

  lemma {:induction false} NoneTied<E>(cmp: Comparison<E>, x: E, a: seq<E>)
    requires forall i | 0 <= i < |a| :: !Tied(cmp, x, a[i])
    ensures TiedTo(cmp, x, a) == []
  {
    if a != [] {
      NoneTied(cmp, x, a[1..]);
    }
  }

  lemma TailSorted<E>(cmp: Comparison<E>, a: seq<E>, dom: set<E>)
    requires Sorted(cmp, a) && Within(a, dom) && a != []
    ensures Sorted(cmp, a[1..]) && Within(a[1..], dom) && a[0] in dom
  {
  }

  lemma {:induction false} MergeIsStable<E>(cmp: Comparison<E>, x: E, a: seq<E>, b: seq<E>, dom: set<E>)
    requires Preorder(cmp, dom) && x in dom && Within(a, dom) && Within(b, dom)
    requires Sorted(cmp, a) && Sorted(cmp, b)
    ensures TiedTo(cmp, x, Merge(cmp, a, b)) == TiedTo(cmp, x, a) + TiedTo(cmp, x, b)
    decreases |a| + |b|
  {
    if a == [] {
    } else if b == [] || cmp(a[0], b[0]) <= 0 {
      hide *;
      TailSorted(cmp, a, dom);
      MergeIsStable(cmp, x, a[1..], b, dom);
      TiedToFirst(cmp, x, a[0], Merge(cmp, a[1..], b), a[1..], b);
      MergeFirst(cmp, a, b);
    } else {
      hide *;
      TailSorted(cmp, b, dom);
      if Tied(cmp, x, b[0]) {
        TiedLater(cmp, x, a, b[0], dom);
      }
      MergeIsStable(cmp, x, a, b[1..], dom);
      TiedToSecond(cmp, x, b[0], Merge(cmp, a, b[1..]), a, b[1..]);
      MergeSecond(cmp, a, b);
    }
  }

  /** If `y` ties with `x` and goes before the sorted run `a`, nothing in `a` ties with `x`. */
  lemma TiedLater<E>(cmp: Comparison<E>, x: E, a: seq<E>, y: E, dom: set<E>)
    requires Preorder(cmp, dom) && x in dom && y in dom && Within(a, dom) && Sorted(cmp, a)
    requires a != [] && cmp(a[0], y) > 0 && Tied(cmp, x, y)
    ensures TiedTo(cmp, x, a) == []
  {
    forall i | 0 <= i < |a|
      ensures !Tied(cmp, x, a[i])
    {
      assert i > 0 ==> cmp(a[0], a[i]) <= 0;
    }
    NoneTied(cmp, x, a);
  }

  lemma {:induction false} PassIsStable<E>(cmp: Comparison<E>, x: E, ns: seq<E>, k: nat, dom: set<E>)
    requires k > 0 && Preorder(cmp, dom) && x in dom && Within(ns, dom) && Runs(cmp, ns, k)
    ensures TiedTo(cmp, x, Pass(cmp, ns, k)) == TiedTo(cmp, x, ns)
    decreases |ns|
  {
    if ns != [] {
      SecondRun(cmp, ns, k);
      hide Merge, Pass, TiedTo, Tied, Runs, Sorted;
      var a, b, rest := PassUnfold(cmp, ns, k);
      MergeIsStable(cmp, x, a, b, dom);
      PassIsStable(cmp, x, rest, k, dom);
      TiedToAppend(cmp, x, Merge(cmp, a, b), Pass(cmp, rest, k));
      TiedToAppend(cmp, x, a, b);
      TiedToAppend(cmp, x, a + b, rest);
    }
  }

  // ----- the whole sort -----

  lemma {:induction false} SortFromSorts<E>(cmp: Comparison<E>, x: E, ns: seq<E>, k: nat, dom: set<E>)
    requires k > 0 && Preorder(cmp, dom) && x in dom && Within(ns, dom) && Runs(cmp, ns, k)
    ensures Sorted(cmp, SortFrom(cmp, ns, k))
    ensures multiset(SortFrom(cmp, ns, k)) == multiset(ns)
    ensures TiedTo(cmp, x, SortFrom(cmp, ns, k)) == TiedTo(cmp, x, ns)
    decreases |ns| - k
  {
    PassDoublesRuns(cmp, ns, k, dom);
    PassPermutes(cmp, ns, k);
    PassIsStable(cmp, x, ns, k, dom);
    if |ns| <= 2 * k {
      OneRun(cmp, Pass(cmp, ns, k), 2 * k);
    } else {
      WithinPermutation(ns, Pass(cmp, ns, k), dom);
      SortFromSorts(cmp, x, Pass(cmp, ns, k), 2 * k, dom);
    }
  }

  /** DL_SORT yields a sorted permutation of the list that keeps tied elements in order. */
  lemma SortIsStable<E>(cmp: Comparison<E>, ns: seq<E>, x: E)
    requires Preorder(cmp, set y | y in ns) && x in ns
    ensures Sorted(cmp, SortFrom(cmp, ns, 1))
    ensures multiset(SortFrom(cmp, ns, 1)) == multiset(ns)
    ensures TiedTo(cmp, x, SortFrom(cmp, ns, 1)) == TiedTo(cmp, x, ns)
  {
    SingletonRuns(cmp, ns);
    SortFromSorts(cmp, x, ns, 1, set y | y in ns);
  }

  // ----- how many passes -----

  function Pow2(p: nat): (x: nat)
    ensures x > 0
  {
    if p == 0 then 1 else 2 * Pow2(p - 1)
  }

  lemma {:induction false} PassesFrom(n: nat, e: nat)
    ensures Pow2(e + Passes(n, Pow2(e))) >= n
    ensures Passes(n, Pow2(e)) > 1 ==> Pow2(e + Passes(n, Pow2(e)) - 1) < n
    decreases n - Pow2(e)
  {
    if n > 2 * Pow2(e) {
      PassesFrom(n, e + 1);
    }
  }

  /** The number of passes is max(1, ceil(log2 n)): the least p >= 1 with 2^p >= n. */
  lemma PassCount(n: nat, q: nat)
    requires q >= 1
    ensures Pow2(q) >= n <==> q >= Passes(n, 1)
  {
    PassesFrom(n, 0);
    var p := Passes(n, 1);
    if q >= p {
      Pow2Grows(p, q);
    } else {
      Pow2Grows(q, p - 1);
    }
  }

  lemma {:induction false} Pow2Grows(a: nat, b: nat)
    requires a <= b
    ensures Pow2(a) <= Pow2(b)
    decreases b
  {
    if a < b {
      Pow2Grows(a, b - 1);
    }
  }
}
