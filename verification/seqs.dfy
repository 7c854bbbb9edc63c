/**
 * Sequence operations the Go code writes out as loops over slices: keeping the elements a
 * predicate accepts (the `Filter*` helpers, `List`, `RemoveBlockedItem`), counting them
 * (the report summaries) and removing repeats through a `seen` map (the extractors).
 */
module Seqs {

  /** Concatenation is associative. */
  lemma ConcatAssoc<T>(x: seq<T>, y: seq<T>, z: seq<T>)
    ensures (x + y) + z == x + (y + z)
  {
  }

  /** The elements of `xs` that satisfy `p`, in their original order. */
  function Filter<T(!new)>(xs: seq<T>, p: T -> bool): (r: seq<T>)
    ensures |r| <= |xs|
    ensures forall x :: x in r ==> x in xs && p(x)
    decreases |xs|
  {
    if xs == [] then []
    else Filter(xs[..|xs| - 1], p) + (if p(xs[|xs| - 1]) then [xs[|xs| - 1]] else [])
  }

  /** Every element of `xs` that satisfies `p` is kept. */
  lemma {:induction false} FilterKeeps<T(!new)>(xs: seq<T>, p: T -> bool, x: T)
    requires x in xs && p(x)
    ensures x in Filter(xs, p)
    decreases |xs|
  {
    var init := xs[..|xs| - 1];
    assert xs == init + [xs[|xs| - 1]];
    if x != xs[|xs| - 1] {
      FilterKeeps(init, p, x);
    }
  }

  /** Filtering distributes over concatenation, so it keeps the relative order of elements. */
  lemma {:induction false} FilterAppend<T(!new)>(a: seq<T>, b: seq<T>, p: T -> bool)
    ensures Filter(a + b, p) == Filter(a, p) + Filter(b, p)
    decreases |b|
  {
    if b == [] {
      assert a + b == a;
    } else {
      var init := b[..|b| - 1];
      assert (a + b)[..|a + b| - 1] == a + init;
      assert (a + b)[|a + b| - 1] == b[|b| - 1];
      FilterAppend(a, init, p);
    }
  }

  /** The number of elements of `xs` that satisfy `p`. */
  function Count<T(!new)>(xs: seq<T>, p: T -> bool): nat {
    |Filter(xs, p)|
  }

  /** A count depends only on the multiset of elements, not on their order. */
  lemma {:induction false} CountPermutation<T(!new)>(a: seq<T>, b: seq<T>, p: T -> bool)
    requires multiset(a) == multiset(b)
    ensures Count(a, p) == Count(b, p)
    decreases |a|
  {
    if a != [] {
      var x := a[|a| - 1];
      var init := a[..|a| - 1];
      assert a == init + [x];
      assert x in multiset(b);
      var k :| 0 <= k < |b| && b[k] == x;
      var rest := b[..k] + b[k + 1..];
      assert b == b[..k] + [x] + b[k + 1..];
      assert multiset(b) == multiset(b[..k]) + multiset{x} + multiset(b[k + 1..]);
      assert multiset(a) == multiset(init) + multiset{x};
      assert multiset(rest) == multiset(b[..k]) + multiset(b[k + 1..]);
      forall y ensures multiset(init)[y] == multiset(rest)[y] {
        assert multiset(a)[y] == multiset(b)[y];
      }
      assert multiset(init) == multiset(rest);
      CountPermutation(init, rest, p);
      FilterAppend(init, [x], p);
      FilterAppend(b[..k], [x], p);
      FilterAppend(b[..k] + [x], b[k + 1..], p);
      FilterAppend(b[..k], b[k + 1..], p);
      assert Filter([x], p) == (if p(x) then [x] else []) by {
        assert [x][..0] == [];
      }
    }
  }

  /** Elements satisfying exactly one of three exhaustive, exclusive predicates add up. */
  lemma {:induction false} CountPartition<T(!new)>(xs: seq<T>, p: T -> bool, q: T -> bool, r: T -> bool)
    requires forall x :: (p(x) || q(x) || r(x)) && !(p(x) && q(x)) && !(p(x) && r(x)) && !(q(x) && r(x))
    ensures Count(xs, p) + Count(xs, q) + Count(xs, r) == |xs|
    decreases |xs|
  {
    if xs != [] {
      CountPartition(xs[..|xs| - 1], p, q, r);
    }
  }

  // ---------------------------------------------------------------- repeats

  predicate NoDuplicates<T(==, !new)>(xs: seq<T>) {
    forall i, j :: 0 <= i < j < |xs| ==> xs[i] != xs[j]
  }

  /**
   * The elements of `xs` with later repeats dropped, as a loop that keeps a `seen` set
   * builds them: first occurrences only.
   */
  function Dedup<T(==, !new)>(xs: seq<T>): (r: seq<T>)
    ensures forall x :: x in r <==> x in xs
    ensures NoDuplicates(r)
    decreases |xs|
  {
    if xs == [] then []
    else
      var d := Dedup(xs[..|xs| - 1]);
      var x := xs[|xs| - 1];
      assert xs == xs[..|xs| - 1] + [x];
      if x in d then d else d + [x]
  }

  /** The position of the first occurrence of `x` in `xs`. */
  function FirstIndex<T(==, !new)>(xs: seq<T>, x: T): (k: nat)
    requires x in xs
    ensures k < |xs| && xs[k] == x
    ensures forall j :: 0 <= j < k ==> xs[j] != x
  {
    if xs[0] == x then 0 else 1 + FirstIndex(xs[1..], x)
  }

  lemma {:induction false} FirstIndexExtend<T(!new)>(xs: seq<T>, y: T, x: T)
    requires x in xs
    ensures FirstIndex(xs + [y], x) == FirstIndex(xs, x)
  {
    var k := FirstIndex(xs, x);
    assert (xs + [y])[k] == x;
    forall j | 0 <= j < k ensures (xs + [y])[j] != x {
      assert (xs + [y])[j] == xs[j];
    }
  }

  /** `Dedup` lists the distinct elements in the order of their first occurrence. */
  lemma {:induction false} DedupFirstSeenOrder<T(!new)>(xs: seq<T>)
    ensures forall i, j :: 0 <= i < j < |Dedup(xs)| ==> FirstIndex(xs, Dedup(xs)[i]) < FirstIndex(xs, Dedup(xs)[j])
    decreases |xs|
  {
    if xs != [] {
      var init := xs[..|xs| - 1];
      var x := xs[|xs| - 1];
      var d := Dedup(init);
      assert xs == init + [x];
      DedupFirstSeenOrder(init);
      forall y | y in init ensures FirstIndex(xs, y) == FirstIndex(init, y) {
        FirstIndexExtend(init, x, y);
      }
      if x !in d {
        assert x !in init;
        assert FirstIndex(xs, x) == |init|;
        var r := d + [x];
        forall i, j | 0 <= i < j < |r| ensures FirstIndex(xs, r[i]) < FirstIndex(xs, r[j]) {
          assert r[i] == d[i] && r[i] in init;
          if j < |d| {
            assert r[j] == d[j];
          }
        }
      }
    }
  }
}
