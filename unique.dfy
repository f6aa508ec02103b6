/**
 * `[...new Set(xs)]`: the distinct elements of a sequence, each at the place
 * of its first occurrence.
 */
module Unique {

  predicate NoDup<T(==)>(xs: seq<T>) {
    forall i, j :: 0 <= i < j < |xs| ==> xs[i] != xs[j]
  }

  /** Index of the first occurrence of `x` in `xs`. */
  function FirstIndex<T(==)>(xs: seq<T>, x: T): (i: nat)
    requires x in xs
    ensures i < |xs| && xs[i] == x && x !in xs[..i]
  {
    if xs[0] == x then 0 else 1 + FirstIndex(xs[1..], x)
  }

  lemma FirstIndexInPrefix<T>(xs: seq<T>, n: nat, x: T)
    requires n <= |xs| && x in xs[..n]
    ensures FirstIndex(xs, x) == FirstIndex(xs[..n], x)
  {
    var i := FirstIndex(xs[..n], x);
    assert xs[..n][..i] == xs[..i];
  }

  /** The duplicate-free union of a sequence's elements, in first-occurrence order (see `DedupOrder`). */
  function Dedup<T(==)>(xs: seq<T>): (r: seq<T>)
    ensures NoDup(r)
    ensures forall i :: 0 <= i < |r| ==> r[i] in xs
    ensures forall i :: 0 <= i < |xs| ==> xs[i] in r
    decreases |xs|
  {
    if xs == [] then []
    else
      var p := Dedup(xs[..|xs| - 1]);
      var x := xs[|xs| - 1];
      assert forall i :: 0 <= i < |xs| - 1 ==> xs[i] == xs[..|xs| - 1][i];
      if x in p then p else p + [x]
  }

  /** Each kept element sits before every element whose first occurrence comes later. */
  lemma {:induction false} DedupOrder<T>(xs: seq<T>)
    ensures forall i, j :: 0 <= i < j < |Dedup(xs)| ==> FirstIndex(xs, Dedup(xs)[i]) < FirstIndex(xs, Dedup(xs)[j])
    decreases |xs|
  {
    if xs != [] {
      var n := |xs| - 1;
      var p := Dedup(xs[..n]);
      DedupOrder(xs[..n]);
      DedupStep(xs, p);
      if xs[n] !in p {
        assert forall i :: 0 <= i < n ==> xs[i] == xs[..n][i];
        LastIsNew(xs, p);
        AppendLastInOrder(xs, p);
      }
    }
  }

  /** Appending the last element, which occurs nowhere before, keeps the order. */
  lemma AppendLastInOrder<T>(xs: seq<T>, p: seq<T>)
    requires |xs| > 0 && FirstIndex(xs, xs[|xs| - 1]) == |xs| - 1
    requires forall i :: 0 <= i < |p| ==> p[i] in xs && FirstIndex(xs, p[i]) < |xs| - 1
    requires forall i, j :: 0 <= i < j < |p| ==> FirstIndex(xs, p[i]) < FirstIndex(xs, p[j])
    ensures var r := p + [xs[|xs| - 1]];
      forall i, j :: 0 <= i < j < |r| ==> FirstIndex(xs, r[i]) < FirstIndex(xs, r[j])
  {
  }

  /** The first-occurrence order of the prefix carries over to the whole sequence. */
  lemma DedupStep<T>(xs: seq<T>, p: seq<T>)
    requires |xs| > 0
    requires forall i :: 0 <= i < |p| ==> p[i] in xs[..|xs| - 1]
    requires forall i, j :: 0 <= i < j < |p| ==> FirstIndex(xs[..|xs| - 1], p[i]) < FirstIndex(xs[..|xs| - 1], p[j])
    ensures forall i :: 0 <= i < |p| ==> p[i] in xs && FirstIndex(xs, p[i]) < |xs| - 1
    ensures forall i, j :: 0 <= i < j < |p| ==> FirstIndex(xs, p[i]) < FirstIndex(xs, p[j])
  {
    var n := |xs| - 1;
    forall i | 0 <= i < |p| ensures p[i] in xs && FirstIndex(xs, p[i]) == FirstIndex(xs[..n], p[i]) < n {
      FirstIndexInPrefix(xs, n, p[i]);
    }
  }

  lemma LastIsNew<T>(xs: seq<T>, p: seq<T>)
    requires |xs| > 0
    requires forall i :: 0 <= i < |xs| - 1 ==> xs[i] in p
    requires xs[|xs| - 1] !in p
    ensures FirstIndex(xs, xs[|xs| - 1]) == |xs| - 1
  {
  }

  /** Extending the input only extends the output: the prefix's elements keep their places. */
  lemma {:induction false} DedupPrefix<T>(a: seq<T>, b: seq<T>)
    ensures Dedup(a) <= Dedup(a + b)
    decreases |b|
  {
    if b == [] {
      assert a + b == a;
    } else {
      var n := |b| - 1;
      assert (a + b)[..|a + b| - 1] == a + b[..n];
      DedupPrefix(a, b[..n]);
    }
  }

  /** A sequence without duplicates is its own deduplication. */
  lemma {:induction false} DedupOfDistinct<T>(xs: seq<T>)
    requires NoDup(xs)
    ensures Dedup(xs) == xs
    decreases |xs|
  {
    if xs != [] {
      var n := |xs| - 1;
      var ys := xs[..n];
      assert NoDup(ys);
      DedupOfDistinct(ys);
      assert xs[n] !in ys;
      assert ys + [xs[n]] == xs;
    }
  }
}
