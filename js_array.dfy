/** `Array.prototype.filter`, the one array primitive the core uses to drop
    entries (errors by id, listeners by identity, empty tags). */
module JsArray {

  /** Keeps, in their original order, the elements of `s` that satisfy `keep`. */
  function Filter<T>(s: seq<T>, keep: T -> bool): (r: seq<T>)
    ensures |r| <= |s|
    decreases |s|
  {
    if s == [] then [] else (if keep(s[0]) then [s[0]] else []) + Filter(s[1..], keep)
  }

  /** An element survives filtering exactly when it was there and passes. */
  lemma {:induction false} FilterMembers<T>(s: seq<T>, keep: T -> bool)
    ensures forall i | 0 <= i < |Filter(s, keep)| ::
      Filter(s, keep)[i] in s && keep(Filter(s, keep)[i])
    ensures forall i | 0 <= i < |s| :: keep(s[i]) ==> s[i] in Filter(s, keep)
    decreases |s|
  {
    if s != [] {
      FilterMembers(s[1..], keep);
    }
  }

  /** Filtering a concatenation filters each part and keeps them in order. */
  lemma {:induction false} FilterAppend<T>(a: seq<T>, b: seq<T>, keep: T -> bool)
    ensures Filter(a + b, keep) == Filter(a, keep) + Filter(b, keep)
    decreases |a|
  {
    if a == [] {
      assert a + b == b;
    } else {
      var head := if keep(a[0]) then [a[0]] else [];
      assert (a + b)[0] == a[0] && (a + b)[1..] == a[1..] + b;
      assert Filter(a + b, keep) == head + Filter(a[1..] + b, keep);
      assert Filter(a, keep) == head + Filter(a[1..], keep);
      FilterAppend(a[1..], b, keep);
      assert head + (Filter(a[1..], keep) + Filter(b, keep))
          == (head + Filter(a[1..], keep)) + Filter(b, keep);
    }
  }

  /** When every element passes, filtering returns the sequence unchanged. */
  lemma {:induction false} FilterKeepsAll<T>(s: seq<T>, keep: T -> bool)
    requires forall i | 0 <= i < |s| :: keep(s[i])
    ensures Filter(s, keep) == s
    decreases |s|
  {
    if s != [] {
      FilterKeepsAll(s[1..], keep);
    }
  }

  /** Filtering out one element that every other element passes leaves the
      others where they were. */
  lemma {:induction false} FilterRemovesOne<T>(a: seq<T>, x: T, b: seq<T>, keep: T -> bool)
    requires !keep(x)
    requires forall i | 0 <= i < |a| :: keep(a[i])
    requires forall i | 0 <= i < |b| :: keep(b[i])
    ensures Filter(a + [x] + b, keep) == a + b
  {
    FilterAppend(a + [x], b, keep);
    FilterAppend(a, [x], keep);
    FilterKeepsAll(a, keep);
    FilterKeepsAll(b, keep);
  }

  /** No element occurs twice in `s`. */
  predicate Distinct<T(==)>(s: seq<T>) {
    forall i, j | 0 <= i < j < |s| :: s[i] != s[j]
  }

  /** Filtering cannot create a repetition. */
  lemma {:induction false} FilterKeepsDistinct<T>(s: seq<T>, keep: T -> bool)
    requires Distinct(s)
    ensures Distinct(Filter(s, keep))
    decreases |s|
  {
    if s != [] {
      FilterKeepsDistinct(s[1..], keep);
      FilterMembers(s[1..], keep);
      var rest := Filter(s[1..], keep);
      assert s[0] !in s[1..];
      assert s[0] !in rest;
    }
  }

  /** Filtering a duplicate-free sequence by "is not `x`" cuts `x` out where
      it stood and keeps the rest in order. */
  lemma {:induction false} DropOne<T>(s: seq<T>, x: T, keep: T -> bool)
    requires Distinct(s)
    requires forall y :: keep(y) == (y != x)
    ensures forall p | 0 <= p < |s| && s[p] == x :: Filter(s, keep) == s[..p] + s[p + 1..]
  {
    forall p | 0 <= p < |s| && s[p] == x ensures Filter(s, keep) == s[..p] + s[p + 1..] {
      assert s == s[..p] + [x] + s[p + 1..];
      FilterRemovesOne(s[..p], x, s[p + 1..], keep);
    }
  }

  /** `Array.prototype.map`: `f` applied to each element, in order. */
  function Map<A, B>(s: seq<A>, f: A -> B): (r: seq<B>)
    ensures |r| == |s|
    ensures forall i | 0 <= i < |s| :: r[i] == f(s[i])
  {
    seq(|s|, i requires 0 <= i < |s| => f(s[i]))
  }

  /** Mapping a concatenation maps each part. */
  lemma MapAppend<A, B>(a: seq<A>, b: seq<A>, f: A -> B)
    ensures Map(a + b, f) == Map(a, f) + Map(b, f)
  {
    assert forall i | |a| <= i < |a + b| :: (a + b)[i] == b[i - |a|];
  }

  /** Mapping `[x] + rest` maps `x`, then `rest`. */
  lemma MapCons<A, B>(x: A, rest: seq<A>, f: A -> B)
    ensures Map([x] + rest, f) == [f(x)] + Map(rest, f)
  {
    assert forall i | 1 <= i < |rest| + 1 :: ([x] + rest)[i] == rest[i - 1];
  }

  /** Replacing the first element by one with the same image does not change
      the mapped sequence. */
  lemma MapHeadCongruent<A, B>(x: A, y: A, rest: seq<A>, f: A -> B)
    requires f(x) == f(y)
    ensures Map([x] + rest, f) == Map([y] + rest, f)
  {
    MapCons(x, rest, f);
    MapCons(y, rest, f);
  }
}
