/** `Array.prototype.sort(compare)`, which ECMAScript 2019 (section 23.1.3.30)
    requires to be stable. It is modelled as insertion sort: each element, taken
    left to right, moves left past exactly the already-sorted elements that
    compare greater than it, so elements that compare equal keep their order. */
module JsSort {
  import opened JsArray

  /** Places `x` at the end of `s`, then lets it move left past every trailing
      element that compares greater than it. */
  function Insert<T>(x: T, s: seq<T>, cmp: (T, T) -> int): (r: seq<T>)
    ensures |r| == |s| + 1
    decreases |s|
  {
    if s == [] then [x]
    else if cmp(s[|s| - 1], x) > 0 then Insert(x, s[..|s| - 1], cmp) + [s[|s| - 1]]
    else s + [x]
  }

  /** The stable sort of `s` under `cmp`: insert each element into the sorted
      prefix before it. */
  function InsertionSort<T>(s: seq<T>, cmp: (T, T) -> int): (r: seq<T>)
    ensures |r| == |s|
    decreases |s|
  {
    if s == [] then [] else Insert(s[|s| - 1], InsertionSort(s[..|s| - 1], cmp), cmp)
  }

  /** `cmp(a, b)` is negative exactly when `cmp(b, a)` is positive: what any
      consistent comparator returns. */
  ghost predicate SignAntisymmetric<T(!new)>(cmp: (T, T) -> int) {
    forall a, b :: cmp(a, b) < 0 <==> cmp(b, a) > 0
  }

  /** "Not after" is transitive under `cmp`. */
  ghost predicate NonPositiveTransitive<T(!new)>(cmp: (T, T) -> int) {
    forall a, b, c :: cmp(a, b) <= 0 && cmp(b, c) <= 0 ==> cmp(a, c) <= 0
  }

  /** Two elements tied with a third are tied with each other. */
  ghost predicate TiesTransitive<T(!new)>(cmp: (T, T) -> int) {
    forall a, b, c :: cmp(a, c) == 0 && cmp(b, c) == 0 ==> cmp(a, b) == 0
  }

  /** Every adjacent pair is in order under `cmp`. */
  predicate AdjacentSorted<T>(s: seq<T>, cmp: (T, T) -> int) {
    forall i | 0 <= i < |s| - 1 :: cmp(s[i], s[i + 1]) <= 0
  }

  /** The elements that `cmp` ties with `e`. */
  function TiedWith<T>(cmp: (T, T) -> int, e: T): T -> bool {
    x => cmp(x, e) == 0
  }

  /** Insertion splits `s` at some `k`: everything from `k` on compares greater
      than `x`, and `x` goes in front of it. */
  lemma {:induction false} InsertSplits<T>(x: T, s: seq<T>, cmp: (T, T) -> int) returns (k: nat)
    ensures k <= |s| && Insert(x, s, cmp) == s[..k] + [x] + s[k..]
    ensures forall j | k <= j < |s| :: cmp(s[j], x) > 0
    ensures k == 0 || cmp(s[k - 1], x) <= 0
    decreases |s|
  {
    if s == [] {
      k := 0;
    } else if cmp(s[|s| - 1], x) > 0 {
      var p := s[..|s| - 1];
      k := InsertSplits(x, p, cmp);
      assert p[..k] == s[..k];
      assert p[k..] + [s[|s| - 1]] == s[k..];
    } else {
      k := |s|;
      assert s[..k] == s;
    }
  }

  /** Insertion adds `x` and nothing else. */
  lemma {:induction false} InsertPermutes<T>(x: T, s: seq<T>, cmp: (T, T) -> int)
    ensures multiset(Insert(x, s, cmp)) == multiset(s) + multiset{x}
    decreases |s|
  {
    if s != [] && cmp(s[|s| - 1], x) > 0 {
      var p, last := s[..|s| - 1], s[|s| - 1];
      InsertPermutes(x, p, cmp);
      assert s == p + [last];
      assert multiset(s) == multiset(p) + multiset{last};
      assert multiset(Insert(x, s, cmp)) == multiset(Insert(x, p, cmp)) + multiset{last};
    }
  }

  /** Sorting only rearranges: the result is a permutation of the input. */
  lemma {:induction false} SortPermutes<T>(s: seq<T>, cmp: (T, T) -> int)
    ensures multiset(InsertionSort(s, cmp)) == multiset(s)
    decreases |s|
  {
    if s != [] {
      var p, x := s[..|s| - 1], s[|s| - 1];
      var q := InsertionSort(p, cmp);
      SortPermutes(p, cmp);
      InsertPermutes(x, q, cmp);
      assert InsertionSort(s, cmp) == Insert(x, q, cmp);
      assert s == p + [x];
      assert multiset(s) == multiset(p) + multiset{x};
    }
  }

  /** Inserting into an adjacent-sorted sequence keeps it adjacent-sorted. */
  lemma {:induction false} InsertKeepsSorted<T(!new)>(x: T, s: seq<T>, cmp: (T, T) -> int)
    requires SignAntisymmetric(cmp) && AdjacentSorted(s, cmp)
    ensures AdjacentSorted(Insert(x, s, cmp), cmp)
  {
    var k := InsertSplits(x, s, cmp);
    var r := Insert(x, s, cmp);
    forall i | 0 <= i < |r| - 1 ensures cmp(r[i], r[i + 1]) <= 0 {
      if i + 1 < k {
        assert r[i] == s[i] && r[i + 1] == s[i + 1];
      } else if i + 1 == k {
        assert r[i] == s[k - 1] && r[i + 1] == x;
      } else if i == k {
        assert r[i] == x && r[i + 1] == s[k];
      } else {
        assert r[i] == s[i - 1] && r[i + 1] == s[i];
      }
    }
  }

  /** With a consistent comparator, every adjacent pair of the result is in
      order. */
  lemma {:induction false} SortSorts<T(!new)>(s: seq<T>, cmp: (T, T) -> int)
    requires SignAntisymmetric(cmp)
    ensures AdjacentSorted(InsertionSort(s, cmp), cmp)
    decreases |s|
  {
    if s != [] {
      SortSorts(s[..|s| - 1], cmp);
      InsertKeepsSorted(s[|s| - 1], InsertionSort(s[..|s| - 1], cmp), cmp);
    }
  }

  /** An input already in order is returned as it is; in particular a comparator
      that ties every pair leaves the order unchanged. */
  lemma {:induction false} SortKeepsSortedInput<T>(s: seq<T>, cmp: (T, T) -> int)
    requires AdjacentSorted(s, cmp)
    ensures InsertionSort(s, cmp) == s
    decreases |s|
  {
    if s != [] {
      var p := s[..|s| - 1];
      assert AdjacentSorted(p, cmp);
      SortKeepsSortedInput(p, cmp);
      assert s == p + [s[|s| - 1]];
    }
  }

  /** Inserting `x` adds it to the end of its own tie class and leaves every
      other tie class as it was. */
  lemma FilterInsert<T(!new)>(x: T, q: seq<T>, cmp: (T, T) -> int, e: T)
    requires TiesTransitive(cmp)
    ensures Filter(Insert(x, q, cmp), TiedWith(cmp, e))
         == Filter(q, TiedWith(cmp, e)) + Filter([x], TiedWith(cmp, e))
  {
    var k := InsertSplits(x, q, cmp);
    if cmp(x, e) == 0 {
      GreaterNotTied(x, q[k..], cmp, e);
    }
    FilterSplice(q[..k], x, q[k..], TiedWith(cmp, e));
    assert q[..k] + q[k..] == q;
  }

  /** Filtering `left + [x] + right`, where nothing in `right` survives when
      `x` does, is filtering `left + right` and then appending `x` if it
      survives. */
  lemma FilterSplice<T>(left: seq<T>, x: T, right: seq<T>, keep: T -> bool)
    requires keep(x) ==> Filter(right, keep) == []
    ensures Filter(left + [x] + right, keep) == Filter(left + right, keep) + Filter([x], keep)
  {
    FilterAppend(left + [x], right, keep);
    FilterAppend(left, [x], keep);
    FilterAppend(left, right, keep);
    var fl, fx, fr := Filter(left, keep), Filter([x], keep), Filter(right, keep);
    if keep(x) {
      assert fr == [];
    } else {
      assert fx == [];
    }
    assert fl + fx + fr == fl + fr + fx;
  }

  /** Elements that compare greater than a member of `e`'s tie class are not in
      it. */
  lemma GreaterNotTied<T(!new)>(x: T, right: seq<T>, cmp: (T, T) -> int, e: T)
    requires TiesTransitive(cmp) && cmp(x, e) == 0
    requires forall j | 0 <= j < |right| :: cmp(right[j], x) > 0
    ensures Filter(right, TiedWith(cmp, e)) == []
  {
    var tied := TiedWith(cmp, e);
    forall j | 0 <= j < |right| ensures !tied(right[j]) {
      assert cmp(right[j], x) > 0;
      assert cmp(right[j], e) != 0;
    }
    FilterNoneKept(right, tied);
  }

  /** Stability: the elements tied with any `e` come out in the order they went
      in. */
  lemma {:induction false} SortIsStable<T(!new)>(s: seq<T>, cmp: (T, T) -> int, e: T)
    requires SignAntisymmetric(cmp) && TiesTransitive(cmp)
    ensures Filter(InsertionSort(s, cmp), TiedWith(cmp, e)) == Filter(s, TiedWith(cmp, e))
    decreases |s|
  {
    if s != [] {
      var p, x := s[..|s| - 1], s[|s| - 1];
      SortIsStable(p, cmp, e);
      FilterInsert(x, InsertionSort(p, cmp), cmp, e);
      FilterAppend(p, [x], TiedWith(cmp, e));
      assert p + [x] == s;
    }
  }

  /** Filtering out every element leaves nothing. */
  lemma {:induction false} FilterNoneKept<T>(s: seq<T>, keep: T -> bool)
    requires forall i | 0 <= i < |s| :: !keep(s[i])
    ensures Filter(s, keep) == []
    decreases |s|
  {
    if s != [] {
      FilterNoneKept(s[1..], keep);
    }
  }

  /** With a transitive comparator, adjacent order is order between any two
      positions. */
  lemma {:induction false} AdjacentSortedIsSorted<T(!new)>(s: seq<T>, cmp: (T, T) -> int)
    requires NonPositiveTransitive(cmp) && AdjacentSorted(s, cmp)
    ensures forall i, j | 0 <= i < j < |s| :: cmp(s[i], s[j]) <= 0
  {
    forall i, j | 0 <= i < j < |s| ensures cmp(s[i], s[j]) <= 0 {
      SortedBetween(s, cmp, i, j);
    }
  }

  lemma {:induction false} SortedBetween<T(!new)>(s: seq<T>, cmp: (T, T) -> int, i: nat, j: nat)
    requires NonPositiveTransitive(cmp) && AdjacentSorted(s, cmp)
    requires i < j < |s|
    ensures cmp(s[i], s[j]) <= 0
    decreases j - i
  {
    if i + 1 < j {
      SortedBetween(s, cmp, i + 1, j);
    }
  }

  /** One step of the in-place sort: `a[..i]` is sorted, and `a[i]` is moved
      left past the elements that compare greater than it. */
  method InsertAt<T>(a: array<T>, i: nat, cmp: (T, T) -> int)
    requires i < a.Length
    modifies a
    ensures a[..i + 1] == Insert(old(a[i]), old(a[..i]), cmp)
    ensures a[i + 1..] == old(a[i + 1..])
  {
    ghost var sorted := a[..i];
    var x := a[i];
    var j := i;
    while j > 0 && cmp(a[j - 1], x) > 0
      invariant 0 <= j <= i
      invariant forall k | 0 <= k < j :: a[k] == sorted[k]
      invariant forall k | j < k <= i :: a[k] == sorted[k - 1]
      invariant forall k | i < k < a.Length :: a[k] == old(a[k])
      invariant forall k | j <= k < i :: cmp(sorted[k], x) > 0
    {
      a[j] := a[j - 1];
      j := j - 1;
    }
    a[j] := x;
    InsertAtBoundary(x, sorted, j, cmp);
    assert forall k | 0 <= k <= i :: a[k] == (sorted[..j] + [x] + sorted[j..])[k];
    assert forall k | i < k < a.Length :: a[k] == old(a[k]);
  }

  /** Insertion stops at the first position, from the right, whose element
      does not compare greater than `x`. */
  lemma {:induction false} InsertAtBoundary<T>(x: T, s: seq<T>, j: nat, cmp: (T, T) -> int)
    requires j <= |s| && (j == 0 || cmp(s[j - 1], x) <= 0)
    requires forall k | j <= k < |s| :: cmp(s[k], x) > 0
    ensures Insert(x, s, cmp) == s[..j] + [x] + s[j..]
    decreases |s|
  {
    if j < |s| {
      var p := s[..|s| - 1];
      InsertAtBoundary(x, p, j, cmp);
      assert p[..j] == s[..j];
      assert p[j..] + [s[|s| - 1]] == s[j..];
    } else {
      assert s[..j] == s;
    }
  }

  /** Sorts `a` in place; what it leaves in `a` is the stable sort of what was
      there. */
  method SortInPlace<T>(a: array<T>, cmp: (T, T) -> int)
    modifies a
    ensures a[..] == InsertionSort(old(a[..]), cmp)
  {
    ghost var input := a[..];
    var i := 0;
    while i < a.Length
      invariant 0 <= i <= a.Length
      invariant a[..i] == InsertionSort(input[..i], cmp)
      invariant a[i..] == input[i..]
    {
      InsertAt(a, i, cmp);
      assert input[..i + 1][..i] == input[..i];
      i := i + 1;
    }
    assert input[..a.Length] == input;
  }
}
