// DL_SORT of utlist.h: a bottom-up merge sort that relinks the nodes in place.
// Each method here is one loop of the macro.
module ListSort {
  import opened Bytes
  import opened StableSort
  import opened IntrusiveLists

  /** The part of the new list built so far: linked, except that the links at its
      two ends are not closed yet. */
  ghost predicate Built<T>(head: Node?<T>, tail: Node?<T>, out: seq<Node<T>>)
    reads out
  {
    && Distinct(out)
    && head == At(out, 0)
    && tail == (if out == [] then null else out[|out| - 1])
    && (forall i {:trigger out[i].next} | 0 <= i < |out| - 1 :: out[i].next == out[i + 1])
    && (forall i {:trigger out[i].prev} | 0 < i < |out| :: out[i].prev == out[i - 1])
    && (out != [] ==> out[0].prev == null)
  }

  /** The old next links of nodes `from` to `to` are still there. */
  ghost predicate Chained<T>(ns: seq<Node<T>>, from: nat, to: nat)
    requires to <= |ns|
    reads ns
  {
    forall i {:trigger ns[i].next} | from <= i < to :: ns[i].next == At(ns, i + 1)
  }

  ghost predicate Apart<E>(ns: seq<E>, from: nat, to: nat, out: seq<E>)
    requires to <= |ns|
  {
    forall i | from <= i < to :: ns[i] !in out
  }

  ghost predicate From<E>(out: seq<E>, ns: seq<E>) {
    forall i | 0 <= i < |out| :: out[i] in ns
  }

  /** Append `e` to the list being built. */
  method Emit<T>(list: List<T>, ghost out: seq<Node<T>>, e: Node<T>, tail: Node?<T>)
    requires Built(list.head, tail, out) && e !in out
    modifies list`head, out`next, e`prev
    ensures Built(list.head, e, out + [e])
  {
    if tail != null {
      tail.next := e;
    } else {
      list.head := e;
    }
    e.prev := tail;
  }

  /** Find the second of two runs: `k` nodes on, or the end of the list. */
  method Advance<T>(ghost ns: seq<Node<T>>, ghost lo: nat, p: Node<T>, k: nat) returns (q: Node?<T>, psize: nat)
    requires lo < |ns| && p == ns[lo] && Chained(ns, lo, |ns|) && k > 0
    ensures psize == Min(k, |ns| - lo) && q == At(ns, lo + psize)
  {
    q, psize := p, 0;
    var i := 0;
    while i < k
      invariant psize == i <= k && lo + i < |ns| && q == ns[lo + i]
    {
      psize := psize + 1;
      q := q.next;
      if q == null {
        break;
      }
      i := i + 1;
    }
  }

  /** The merge of ns[i..mid] and ns[j..end]. */
  ghost function MergeOf<E>(cmp: Comparison<E>, ns: seq<E>, i: nat, mid: nat, j: nat, end: nat): seq<E>
    requires i <= mid <= j <= end <= |ns|
  {
    Merge(cmp, ns[i..mid], ns[j..end])
  }

  /** The pass over ns[lo..]. */
  ghost function PassOf<E>(cmp: Comparison<E>, ns: seq<E>, lo: nat, k: nat): seq<E>
    requires k > 0 && lo <= |ns|
  {
    Pass(cmp, ns[lo..], k)
  }

  lemma MergeStep<E>(cmp: Comparison<E>, ns: seq<E>, i: nat, mid: nat, j: nat, end: nat)
    requires i <= mid <= j <= end <= |ns|
    ensures i < mid && (j == end || cmp(ns[i], ns[j]) <= 0) ==>
              MergeOf(cmp, ns, i, mid, j, end) == [ns[i]] + MergeOf(cmp, ns, i + 1, mid, j, end)
    ensures j < end && (i == mid || cmp(ns[i], ns[j]) > 0) ==>
              MergeOf(cmp, ns, i, mid, j, end) == [ns[j]] + MergeOf(cmp, ns, i, mid, j + 1, end)
    ensures i == mid && j == end ==> MergeOf(cmp, ns, i, mid, j, end) == []
  {
    hide Merge;
    if i < mid && (j == end || cmp(ns[i], ns[j]) <= 0) {
      MergeFirst(cmp, ns[i..mid], ns[j..end]);
      assert ns[i..mid][1..] == ns[i + 1..mid];
    }
    if j < end && (i == mid || cmp(ns[i], ns[j]) > 0) {
      MergeSecond(cmp, ns[i..mid], ns[j..end]);
      assert ns[j..end][1..] == ns[j + 1..end];
    }
    MergeNone(cmp);
  }

  lemma MergeNone<E>(cmp: Comparison<E>)
    ensures Merge(cmp, [], []) == []
  {
  }

  lemma PassStep<E>(cmp: Comparison<E>, ns: seq<E>, lo: nat, psize: nat, k: nat, out: seq<E>)
    requires lo < |ns| && k > 0 && psize == Min(k, |ns| - lo)
    ensures var mid, end := lo + psize, Min(lo + psize + k, |ns|);
            out + PassOf(cmp, ns, lo, k) == (out + MergeOf(cmp, ns, lo, mid, mid, end)) + PassOf(cmp, ns, end, k)
  {
    hide Merge, Pass;
    var mid, end := lo + psize, Min(lo + psize + k, |ns|);
    var a, b, rest := PassUnfold(cmp, ns[lo..], k);
    Slices(ns, lo, mid);
    Slices(ns, lo, end);
    assert b == ns[mid..end];
    Regroup(out, MergeOf(cmp, ns, lo, mid, mid, end), PassOf(cmp, ns, end, k));
  }

  /** Where a merge stands: it has come to ns[i] in the run that ends at `mid`, and
      to ns[j] in the run that ends at `end`; `psize` and `qsize` count what is left. */
  ghost predicate Merging<T>(ns: seq<Node<T>>, i: nat, mid: nat, j: nat, end: nat, k: nat,
                             p: Node?<T>, q: Node?<T>, psize: int, qsize: int)
  {
    && i <= mid <= j <= end == Min(mid + k, |ns|)
    && psize == mid - i && qsize == mid + k - j
    && (p == At(ns, i) || i == mid) && q == At(ns, j)
  }

  /** Take the next node off the two runs. */
  method TakeNext<T>(cmp: Comparison<Node<T>>, ghost ns: seq<Node<T>>, ghost i: nat, ghost mid: nat, ghost j: nat,
                     ghost end: nat, ghost k: nat, p: Node?<T>, q: Node?<T>, psize: int, qsize: int)
    returns (e: Node<T>, p': Node?<T>, q': Node?<T>, psize': int, qsize': int, ghost i': nat, ghost j': nat)
    requires Merging(ns, i, mid, j, end, k, p, q, psize, qsize)
    requires Chained(ns, i, mid) && Chained(ns, j, |ns|)
    requires psize > 0 || (qsize > 0 && q != null)
    ensures Merging(ns, i', mid, j', end, k, p', q', psize', qsize')
    ensures (i' == i + 1 <= mid && j' == j && e == ns[i]) || (i' == i && j' == j + 1 <= end && e == ns[j])
    ensures MergeOf(cmp, ns, i, mid, j, end) == [e] + MergeOf(cmp, ns, i', mid, j', end)
  {
    MergeStep(cmp, ns, i, mid, j, end);
    p', q', psize', qsize', i', j' := p, q, psize, qsize, i, j;
    if psize == 0 {
      e := q;
      q' := q.next;
      qsize' := qsize - 1;
      j' := j + 1;
    } else if qsize == 0 || q == null {
      e := p;
      p' := p.next;
      psize' := psize - 1;
      i' := i + 1;
    } else if cmp(p, q) <= 0 {
      e := p;
      p' := p.next;
      psize' := psize - 1;
      i' := i + 1;
    } else {
      e := q;
      q' := q.next;
      qsize' := qsize - 1;
      j' := j + 1;
    }
  }

  /** Between two merges of a pass: `out` has been built, ns[lo..] is as it was. */
  ghost predicate Midway<T>(head: Node?<T>, tail: Node?<T>, ns: seq<Node<T>>, lo: nat, out: seq<Node<T>>)
    reads out, ns
  {
    && lo <= |ns|
    && Built(head, tail, out) && Chained(ns, lo, |ns|)
    && Apart(ns, lo, |ns|, out) && From(out, ns)
  }

  /** In the middle of a merge: ns[i..mid] and ns[j..] are as they were. */
  ghost predicate Weaving<T>(head: Node?<T>, tail: Node?<T>, ns: seq<Node<T>>, i: nat, mid: nat, j: nat,
                             out: seq<Node<T>>)
    reads out, ns
  {
    && i <= mid <= j <= |ns|
    && Built(head, tail, out) && Chained(ns, i, mid) && Chained(ns, j, |ns|)
    && Apart(ns, i, mid, out) && Apart(ns, j, |ns|, out) && From(out, ns)
  }

  lemma StartMerge<T>(head: Node?<T>, tail: Node?<T>, ns: seq<Node<T>>, lo: nat, mid: nat, out: seq<Node<T>>)
    requires Midway(head, tail, ns, lo, out) && lo <= mid <= |ns|
    ensures Chained(ns, lo, |ns|) && Weaving(head, tail, ns, lo, mid, mid, out)
  {
  }

  lemma EndMerge<T>(head: Node?<T>, tail: Node?<T>, ns: seq<Node<T>>, mid: nat, j: nat, out: seq<Node<T>>)
    requires Weaving(head, tail, ns, mid, mid, j, out)
    ensures Midway(head, tail, ns, j, out)
  {
  }

  /** Move one node from the two runs to the list being built. */
  method MergeOne<T>(list: List<T>, cmp: Comparison<Node<T>>, ghost ns: seq<Node<T>>,
                     ghost i: nat, ghost mid: nat, ghost j: nat, ghost end: nat, ghost k: nat, ghost out: seq<Node<T>>,
                     p: Node?<T>, q: Node?<T>, psize: int, qsize: int, tail: Node?<T>)
    returns (e: Node<T>, p': Node?<T>, q': Node?<T>, psize': int, qsize': int, ghost i': nat, ghost j': nat)
    requires Distinct(ns) && Merging(ns, i, mid, j, end, k, p, q, psize, qsize)
    requires Weaving(list.head, tail, ns, i, mid, j, out)
    requires psize > 0 || (qsize > 0 && q != null)
    modifies list`head, ns
    ensures Merging(ns, i', mid, j', end, k, p', q', psize', qsize') && psize' + qsize' < psize + qsize
    ensures Weaving(list.head, e, ns, i', mid, j', out + [e])
    ensures out + MergeOf(cmp, ns, i, mid, j, end) == (out + [e]) + MergeOf(cmp, ns, i', mid, j', end)
  {
    hide MergeOf, Built, From, Distinct;
    e, p', q', psize', qsize', i', j' := TakeNext(cmp, ns, i, mid, j, end, k, p, q, psize, qsize);
    TakenApart(ns, i, i', mid, j, j', out, e);
    hide Apart;
    EmitBefore(list, ns, out, e, tail, i', mid, j');
    Regroup(out, [e], MergeOf(cmp, ns, i', mid, j', end));
  }

  /** What is left of the runs is still apart from the list being built, and from `e`. */
  lemma TakenApart<E>(ns: seq<E>, i: nat, i': nat, mid: nat, j: nat, j': nat, out: seq<E>, e: E)
    requires Distinct(ns) && i <= mid <= j <= |ns| && From(out, ns)
    requires Apart(ns, i, mid, out) && Apart(ns, j, |ns|, out)
    requires (i' == i + 1 <= mid && j' == j && e == ns[i]) || (i' == i && j' == j + 1 <= |ns| && e == ns[j])
    ensures e !in out && From(out + [e], ns)
    ensures Apart(ns, i', mid, out + [e]) && Apart(ns, j', |ns|, out + [e])
  {
  }

  /** Emitting a node leaves the links alone in what is left of the runs. */
  method EmitBefore<T>(list: List<T>, ghost ns: seq<Node<T>>, ghost out: seq<Node<T>>, e: Node<T>, tail: Node?<T>,
                       ghost i: nat, ghost mid: nat, ghost j: nat)
    requires i <= mid <= j <= |ns| && Built(list.head, tail, out) && e !in out
    requires Chained(ns, i, mid) && Chained(ns, j, |ns|)
    requires Apart(ns, i, mid, out + [e]) && Apart(ns, j, |ns|, out + [e]) && From(out + [e], ns)
    modifies list`head, ns
    ensures Weaving(list.head, e, ns, i, mid, j, out + [e])
  {
    EmitFrame(ns, out, e);
    hide Built;
    Emit(list, out, e, tail);
  }

  lemma EmitFrame<E>(ns: seq<E>, out: seq<E>, e: E)
    requires From(out + [e], ns)
    ensures e in ns && forall i | 0 <= i < |out| :: out[i] in ns
  {
    assert (out + [e])[|out|] == e;
    assert forall i | 0 <= i < |out| :: (out + [e])[i] == out[i];
  }

  /** Merge the next two runs: ns[lo..] up to `psize0` nodes, and the run of at most `k` nodes behind it. */
  method MergeRuns<T>(list: List<T>, cmp: Comparison<Node<T>>, ghost ns: seq<Node<T>>, ghost lo: nat, k: nat,
                      ghost out0: seq<Node<T>>, p0: Node<T>, q0: Node?<T>, tail0: Node?<T>, psize0: nat)
    returns (q: Node?<T>, tail: Node?<T>, ghost out: seq<Node<T>>)
    requires Distinct(ns) && lo < |ns| && 0 < psize0 <= k && lo + psize0 <= |ns|
    requires p0 == ns[lo] && q0 == At(ns, lo + psize0) && Midway(list.head, tail0, ns, lo, out0)
    modifies list`head, ns
    ensures var mid, end := lo + psize0, Min(lo + psize0 + k, |ns|);
            && out == out0 + MergeOf(cmp, ns, lo, mid, mid, end)
            && q == At(ns, end) && Midway(list.head, tail, ns, end, out)
  {
    hide MergeOf, Midway, Weaving, Distinct;
    var psize, qsize := psize0, k;
    ghost var mid: nat, end: nat := lo + psize0, Min(lo + psize0 + k, |ns|);
    ghost var i: nat, j: nat := lo, mid;
    var p: Node?<T> := p0;
    q, tail, out := q0, tail0, out0;
    StartMerge(list.head, tail, ns, lo, mid, out);
    while psize > 0 || (qsize > 0 && q != null)
      invariant Merging(ns, i, mid, j, end, k, p, q, psize, qsize)
      invariant Weaving(list.head, tail, ns, i, mid, j, out)
      invariant out + MergeOf(cmp, ns, i, mid, j, end) == out0 + MergeOf(cmp, ns, lo, mid, mid, end)
      decreases psize + qsize
    {
      var e;
      e, p, q, psize, qsize, i, j := MergeOne(list, cmp, ns, i, mid, j, end, k, out, p, q, psize, qsize, tail);
      tail := e;
      out := out + [e];
    }
    MergeStep(cmp, ns, i, mid, j, end);
    EndMerge(list.head, tail, ns, mid, j, out);
  }

  /** Find the second run, and merge it with the first. */
  method MergePair<T>(list: List<T>, cmp: Comparison<Node<T>>, ghost ns: seq<Node<T>>, ghost lo: nat, k: nat,
                      ghost out0: seq<Node<T>>, p: Node<T>, tail0: Node?<T>)
    returns (q: Node?<T>, tail: Node?<T>, ghost out: seq<Node<T>>, ghost end: nat)
    requires Distinct(ns) && k > 0 && lo < |ns| && p == ns[lo] && Midway(list.head, tail0, ns, lo, out0)
    modifies list`head, ns
    ensures end == Min(lo + 2 * k, |ns|) && q == At(ns, end) && Midway(list.head, tail, ns, end, out)
    ensures out + PassOf(cmp, ns, end, k) == out0 + PassOf(cmp, ns, lo, k)
  {
    hide PassOf, MergeOf, Midway, Weaving, Distinct, Chained;
    StartMerge(list.head, tail0, ns, lo, lo, out0);
    var psize;
    q, psize := Advance(ns, lo, p, k);
    end := Min(lo + psize + k, |ns|);
    PassStep(cmp, ns, lo, psize, k, out0);
    q, tail, out := MergeRuns(list, cmp, ns, lo, k, out0, p, q, tail0, psize);
  }

  /** Close the links at the two ends. */
  method Close<T>(list: List<T>, ghost ns: seq<Node<T>>, ghost out: seq<Node<T>>, tail: Node?<T>)
    requires Midway(list.head, tail, ns, |ns|, out) && out != []
    modifies list`nodes, ns
    ensures list.Valid() && list.nodes == out
  {
    list.head.prev := tail;
    tail.next := null;
    list.nodes := out;
  }

  /** After `merges` merges of runs of `k` nodes a pass has come to ns[lo]. */
  predicate Counted(merges: nat, lo: nat, n: nat, k: nat) {
    (merges == 0 <==> lo == 0) && (merges == 1 ==> lo == Min(2 * k, n)) && (merges >= 2 ==> n > 2 * k)
  }

  lemma CountNone(n: nat, k: nat)
    ensures Counted(0, 0, n, k)
  {
  }

  lemma CountOne(merges: nat, lo: nat, n: nat, k: nat)
    requires Counted(merges, lo, n, k) && lo < n && k > 0
    ensures Counted(merges + 1, Min(lo + 2 * k, n), n, k)
  {
  }

  lemma CountAll(merges: nat, n: nat, k: nat)
    requires Counted(merges, n, n, k) && n > 0
    ensures merges <= 1 <==> n <= 2 * k
  {
  }

  /** The loop of a pass, from the first node `p0` on. */
  method MergeAll<T>(list: List<T>, cmp: Comparison<Node<T>>, ghost ns: seq<Node<T>>, k: nat, p0: Node?<T>)
    returns (merges: nat, tail: Node?<T>, ghost out: seq<Node<T>>)
    requires Distinct(ns) && k > 0 && ns != [] && p0 == At(ns, 0) && Midway(list.head, null, ns, 0, [])
    modifies list`head, ns
    ensures Midway(list.head, tail, ns, |ns|, out) && out == PassOf(cmp, ns, 0, k)
    ensures merges <= 1 <==> |ns| <= 2 * k
  {
    PassNone(cmp, ns, k);
    CountNone(|ns|, k);
    hide Pass, PassOf, Midway, Distinct, Counted;
    ghost var lo: nat := 0;
    var p := p0;
    merges, tail, out := 0, null, [];
    while p != null
      invariant lo <= |ns| && p == At(ns, lo)
      invariant Midway(list.head, tail, ns, lo, out)
      invariant out + PassOf(cmp, ns, lo, k) == PassOf(cmp, ns, 0, k)
      invariant Counted(merges, lo, |ns|, k)
      decreases |ns| - lo
    {
      CountOne(merges, lo, |ns|, k);
      merges := merges + 1;
      p, tail, out, lo := MergePair(list, cmp, ns, lo, k, out, p, tail);
    }
    CountAll(merges, |ns|, k);
  }

  lemma PassNone<T>(cmp: Comparison<Node<T>>, ns: seq<Node<T>>, k: nat)
    requires k > 0
    ensures PassOf(cmp, ns, 0, k) == Pass(cmp, ns, k) && PassOf(cmp, ns, |ns|, k) == []
  {
    assert ns[0..] == ns;
  }

  /** One pass: merge consecutive pairs of runs of `k` nodes. */
  method MergePass<T>(list: List<T>, cmp: Comparison<Node<T>>, k: nat) returns (merges: nat)
    requires list.Valid() && list.nodes != [] && k > 0
    modifies list, list.nodes
    ensures list.Valid() && list.nodes == Pass(cmp, old(list.nodes), k)
    ensures merges <= 1 <==> |list.nodes| <= 2 * k
  {
    hide Pass, PassOf;
    ghost var ns, out := list.nodes, [];
    PassNone(cmp, ns, k);
    var p: Node?<T>, tail: Node?<T> := list.head, null;
    list.head := null;
    merges, tail, out := MergeAll(list, cmp, ns, k, p);
    Close(list, ns, out, tail);
  }

  /** After `passes` passes `ns0` has become `ns`, and the runs to merge next, if the loop
      goes on, are of length `k`. */
  ghost predicate Underway<E>(cmp: Comparison<E>, ns0: seq<E>, ns: seq<E>, k: nat, looping: bool, passes: nat) {
    && k > 0 && ns != [] && |ns| == |ns0| && multiset(ns) == multiset(ns0)
    && SortFrom(cmp, ns0, 1) == (if looping then SortFrom(cmp, ns, k) else ns)
    && Passes(|ns0|, 1) == passes + if looping then Passes(|ns|, k) else 0
  }

  lemma PassUnderway<E>(cmp: Comparison<E>, ns0: seq<E>, ns: seq<E>, k: nat, passes: nat)
    requires k > 0 && Underway(cmp, ns0, ns, k, true, passes)
    ensures Underway(cmp, ns0, Pass(cmp, ns, k), 2 * k, |ns| > 2 * k, passes + 1)
  {
    hide Pass;
    PassPermutes(cmp, ns, k);
  }

  lemma UnderwayFrom<E>(cmp: Comparison<E>, ns0: seq<E>, ns: seq<E>, k: nat, looping: bool, passes: nat)
    requires Underway(cmp, ns0, ns, k, looping, passes)
    ensures From(ns, ns0) && ns != [] && k > 0
    ensures !looping ==> ns == SortFrom(cmp, ns0, 1) && passes == Passes(|ns|, 1)
  {
    hide SortFrom, Passes;
    forall i | 0 <= i < |ns|
      ensures ns[i] in ns0
    {
      assert ns[i] in multiset(ns);
    }
  }

  lemma UnderwayNone<E>(cmp: Comparison<E>, ns0: seq<E>)
    requires ns0 != []
    ensures Underway(cmp, ns0, ns0, 1, true, 0)
  {
  }

  /** One round of the outer loop, on a list of the nodes `ns0`. */
  method Round<T>(list: List<T>, cmp: Comparison<Node<T>>, ghost ns0: seq<Node<T>>, k: nat, ghost passes: nat)
    returns (merges: nat)
    requires list.Valid() && Underway(cmp, ns0, list.nodes, k, true, passes)
    modifies list, ns0
    ensures list.Valid() && Underway(cmp, ns0, list.nodes, 2 * k, merges > 1, passes + 1)
    ensures k > 0 && (merges > 1 <==> |ns0| > 2 * k)
  {
    UnderwayFrom(cmp, ns0, list.nodes, k, true, passes);
    PassUnderway(cmp, ns0, list.nodes, k, passes);
    hide Pass, Underway, Linked;
    merges := MergePass(list, cmp, k);
  }

  /** The outer loop of DL_SORT on a list that is not empty; `passes` counts its rounds. */
  method Rounds<T>(list: List<T>, cmp: Comparison<Node<T>>, ghost ns0: seq<Node<T>>) returns (ghost passes: nat)
    requires list.Valid() && Underway(cmp, ns0, list.nodes, 1, true, 0)
    modifies list, ns0
    ensures list.Valid() && list.nodes == SortFrom(cmp, ns0, 1) && passes == Passes(|list.nodes|, 1)
  {
    hide *;
    var insize: nat, looping := 1, true;
    passes := 0;
    while looping
      invariant list.Valid() && Underway(cmp, ns0, list.nodes, insize, looping, passes)
      decreases looping, |ns0| - insize
    {
      var merges := Round(list, cmp, ns0, insize, passes);
      looping := merges > 1;
      insize := insize * 2;
      passes := passes + 1;
    }
    UnderwayFrom(cmp, ns0, list.nodes, insize, looping, passes);
  }

  /** The macro on any list; an empty one has no rounds. */
  method SortLoop<T>(list: List<T>, cmp: Comparison<Node<T>>) returns (ghost passes: nat)
    requires list.Valid()
    modifies list, list.nodes
    ensures list.Valid()
    ensures list.nodes == SortFrom(cmp, old(list.nodes), 1)
    ensures passes == if old(list.nodes) == [] then 0 else Passes(|list.nodes|, 1)
  {
    hide Underway, Passes, Pass;
    passes := 0;
    if list.head != null {
      UnderwayNone(cmp, list.nodes);
      passes := Rounds(list, cmp, list.nodes);
    }
  }

  /** What it means that the nodes `ns` have become `out`: the same nodes, and, if the
      comparison orders them, sorted, with those that tie in the order they had. */
  ghost predicate SortedStably<E>(cmp: Comparison<E>, ns: seq<E>, out: seq<E>) {
    && multiset(out) == multiset(ns)
    && (Preorder(cmp, set n | n in ns) ==>
          Sorted(cmp, out) && forall x | x in ns :: TiedTo(cmp, x, out) == TiedTo(cmp, x, ns))
  }

  lemma {:induction false} SortFromPermutes<E>(cmp: Comparison<E>, ns: seq<E>, k: nat)
    requires k > 0
    ensures multiset(SortFrom(cmp, ns, k)) == multiset(ns)
    decreases |ns| - k
  {
    hide Pass;
    PassPermutes(cmp, ns, k);
    if |ns| > 2 * k {
      SortFromPermutes(cmp, Pass(cmp, ns, k), 2 * k);
    }
  }

  lemma SortMeans<E>(cmp: Comparison<E>, ns: seq<E>)
    ensures SortedStably(cmp, ns, SortFrom(cmp, ns, 1))
  {
    hide SortFrom, Preorder, Sorted, TiedTo;
    SortFromPermutes(cmp, ns, 1);
    if Preorder(cmp, set n | n in ns) {
      forall x | x in ns
        ensures Sorted(cmp, SortFrom(cmp, ns, 1))
        ensures TiedTo(cmp, x, SortFrom(cmp, ns, 1)) == TiedTo(cmp, x, ns)
      {
        SortIsStable(cmp, ns, x);
      }
      if ns == [] {
        SortsNothing(cmp);
      } else {
        SortIsStable(cmp, ns, ns[0]);
      }
    }
  }

  lemma SortsNothing<E>(cmp: Comparison<E>)
    ensures Sorted(cmp, SortFrom(cmp, [], 1))
  {
  }

  /** DL_SORT: on any list, the same nodes relinked, sorted and stable; and the number of
      passes is 0 for the empty list, else the least p >= 1 with 2^p >= n. */
  method Sort<T>(list: List<T>, cmp: Comparison<Node<T>>) returns (ghost passes: nat)
    requires list.Valid()
    modifies list, list.nodes
    ensures list.Valid() && SortedStably(cmp, old(list.nodes), list.nodes)
    ensures list.nodes == SortFrom(cmp, old(list.nodes), 1)
    ensures list.nodes == [] ==> passes == 0
    ensures list.nodes != [] ==> passes >= 1 && forall q: nat | q >= 1 :: Pow2(q) >= |list.nodes| <==> q >= passes
  {
    hide SortFrom, SortedStably, Linked, Pow2, Passes;
    SortMeans(cmp, list.nodes);
    passes := SortLoop(list, cmp);
    forall q: nat | q >= 1
      ensures Pow2(q) >= |list.nodes| <==> q >= Passes(|list.nodes|, 1)
    {
      PassCount(|list.nodes|, q);
    }
  }
}
