/**
  In-place sorting by a caller-supplied "less" relation, the shape of Go's
  `sort.Slice(xs, less)`.  Go's library algorithm is not part of this model;
  an insertion sort stands in for it, and only what `sort.Slice` promises is
  stated: the array ends up ordered by `lt` and is a permutation of what it
  held.  Nothing is promised about the relative order of equal elements.
*/
module Sorting {

  /** No later element is less than an earlier one. */
  ghost predicate SortedBy<T>(s: seq<T>, lt: (T, T) -> bool) {
    forall i, j :: 0 <= i < j < |s| ==> !lt(s[j], s[i])
  }

  /**
    What `sort.Slice` requires of its `less` function: irreflexive, transitive,
    and "not less" is transitive too (incomparability is an equivalence).
  */
  ghost predicate StrictWeakOrder<T(!new)>(lt: (T, T) -> bool) {
    && (forall x :: !lt(x, x))
    && (forall x, y, z {:trigger Trio(x, y, z)} :: lt(x, y) && lt(y, z) ==> lt(x, z))
    && (forall x, y, z {:trigger Trio(x, y, z)} :: !lt(x, y) && !lt(y, z) ==> !lt(x, z))
  }

  /**
    A trigger guard for the solver, with no counterpart in the Go code.
    Names three elements together.  The transitivity facts above are used
    only where a proof mentions the three elements this way, which keeps the
    solver from chaining them on its own.
  */
  ghost predicate Trio<T>(x: T, y: T, z: T) {
    true
  }

  method SortBy<T(!new)>(a: array<T>, lt: (T, T) -> bool)
    requires StrictWeakOrder(lt)
    modifies a
    ensures SortedBy(a[..], lt)
    ensures multiset(a[..]) == multiset(old(a[..]))
  {
    var i := 0;
    while i < a.Length
      invariant 0 <= i <= a.Length
      invariant forall p, q :: 0 <= p < q < i ==> !lt(a[q], a[p])
      invariant multiset(a[..]) == multiset(old(a[..]))
    {
      Insert(a, i, lt);
      i := i + 1;
    }
  }

  /**
    While a[i] moves down to position j: the part before j is ordered, the
    part from j to i is ordered, and nothing after j is less than anything
    before it.
  */
  ghost predicate Inserting<T>(s: seq<T>, j: nat, i: nat, lt: (T, T) -> bool)
    requires j <= i < |s|
  {
    && (forall p, q :: 0 <= p < q < j ==> !lt(s[q], s[p]))
    && (forall p, q :: j <= p < q <= i ==> !lt(s[q], s[p]))
    && (forall p, q :: 0 <= p < j < q <= i ==> !lt(s[q], s[p]))
  }

  lemma SwapDown<T(!new)>(b: seq<T>, j: nat, i: nat, lt: (T, T) -> bool)
    requires StrictWeakOrder(lt)
    requires 0 < j <= i < |b| && lt(b[j], b[j - 1])
    requires Inserting(b, j, i, lt)
    ensures Inserting(b[j - 1 := b[j]][j := b[j - 1]], j - 1, i, lt)
    ensures multiset(b[j - 1 := b[j]][j := b[j - 1]]) == multiset(b)
  {
    var c := b[j - 1 := b[j]][j := b[j - 1]];
    // Less is asymmetric, so the swapped pair is in order.
    assert Trio(b[j - 1], b[j], b[j - 1]);
    forall p, q | j - 1 <= p < q <= i
      ensures !lt(c[q], c[p])
    {
      if p == j - 1 && q > j {
        // c[p] is b[j], which is less than b[j - 1]; b[q] is not less than b[j - 1].
        assert !lt(b[q], b[j - 1]) && Trio(b[q], b[j], b[j - 1]);
      }
    }
  }

  lemma InsertDone<T(!new)>(b: seq<T>, j: nat, i: nat, lt: (T, T) -> bool)
    requires StrictWeakOrder(lt)
    requires j <= i < |b| && Inserting(b, j, i, lt)
    requires j > 0 ==> !lt(b[j], b[j - 1])
    ensures forall p, q :: 0 <= p < q <= i ==> !lt(b[q], b[p])
  {
    forall p, q | 0 <= p < q <= i
      ensures !lt(b[q], b[p])
    {
      if p < j && q == j && p < j - 1 {
        assert !lt(b[j - 1], b[p]) && Trio(b[j], b[j - 1], b[p]);
      }
    }
  }

  /** One insertion step: a[i] moves down past every element it is less than. */
  method Insert<T(!new)>(a: array<T>, i: nat, lt: (T, T) -> bool)
    requires StrictWeakOrder(lt)
    requires i < a.Length
    requires forall p, q :: 0 <= p < q < i ==> !lt(a[q], a[p])
    modifies a
    ensures forall p, q :: 0 <= p < q <= i ==> !lt(a[q], a[p])
    ensures multiset(a[..]) == multiset(old(a[..]))
  {
    var j := i;
    while j > 0 && lt(a[j], a[j - 1])
      invariant 0 <= j <= i
      invariant Inserting(a[..], j, i, lt)
      invariant multiset(a[..]) == multiset(old(a[..]))
    {
      ghost var b := a[..];
      SwapDown(b, j, i, lt);
      a[j - 1], a[j] := a[j], a[j - 1];
      assert a[..] == b[j - 1 := b[j]][j := b[j - 1]];
      j := j - 1;
    }
    InsertDone(a[..], j, i, lt);
  }

  /** The image of a sequence under `f`, element by element. */
  function Map<T, U>(f: T -> U, s: seq<T>): (r: seq<U>)
    ensures |r| == |s|
  {
    if s == [] then [] else [f(s[0])] + Map(f, s[1..])
  }

  lemma {:induction false} MapAt<T, U>(f: T -> U, s: seq<T>, i: nat)
    requires i < |s|
    ensures Map(f, s)[i] == f(s[i])
  {
    if i > 0 {
      MapAt(f, s[1..], i - 1);
    }
  }

  lemma {:induction false} MapConcat<T, U>(f: T -> U, x: seq<T>, y: seq<T>)
    ensures Map(f, x + y) == Map(f, x) + Map(f, y)
  {
    if x == [] {
      assert x + y == y;
    } else {
      assert (x + y)[0] == x[0];
      assert (x + y)[1..] == x[1..] + y;
      MapConcat(f, x[1..], y);
    }
  }

  /** Taking element k out of a sequence takes its image out of the image. */
  lemma {:induction false} MapRemove<T, U>(f: T -> U, b: seq<T>, k: nat)
    requires k < |b|
    ensures multiset(Map(f, b)) == multiset(Map(f, b[..k] + b[k + 1..])) + multiset{f(b[k])}
  {
    var left, right := b[..k], b[k + 1..];
    var fl, fr := Map(f, left), Map(f, right);
    assert b == left + [b[k]] + right;
    MapConcat(f, left + [b[k]], right);
    MapConcat(f, left, [b[k]]);
    MapConcat(f, left, right);
    assert Map(f, [b[k]]) == [f(b[k])] by {
      assert [b[k]][1..] == [];
    }
    assert Map(f, b) == fl + [f(b[k])] + fr;
    assert multiset(fl + [f(b[k])] + fr) == multiset(fl) + multiset{f(b[k])} + multiset(fr);
    assert multiset(fl + fr) == multiset(fl) + multiset(fr);
  }

  lemma MultisetRemove<T>(b: seq<T>, k: nat)
    requires k < |b|
    ensures multiset(b[..k] + b[k + 1..]) == multiset(b) - multiset{b[k]}
  {
    assert b == b[..k] + [b[k]] + b[k + 1..];
  }

  lemma MapFirst<T, U>(f: T -> U, a: seq<T>)
    requires a != []
    ensures multiset(Map(f, a)) == multiset(Map(f, a[1..])) + multiset{f(a[0])}
  {
    assert Map(f, a) == [f(a[0])] + Map(f, a[1..]);
  }

  /** A position where an element of the multiset occurs. */
  lemma Find<T>(b: seq<T>, x: T) returns (k: nat)
    requires x in multiset(b)
    ensures k < |b| && b[k] == x
  {
    k :| 0 <= k < |b| && b[k] == x;
  }

  /** Taking the same element out of two permutations leaves permutations. */
  lemma RemoveMatching<T>(a: seq<T>, b: seq<T>, k: nat)
    requires multiset(a) == multiset(b) && a != [] && k < |b| && b[k] == a[0]
    ensures multiset(a[1..]) == multiset(b[..k] + b[k + 1..])
  {
    MultisetRemove(a, 0);
    assert a[..0] + a[1..] == a[1..];
    MultisetRemove(b, k);
  }

  /** Permuting a sequence permutes its image the same way. */
  lemma {:induction false} MapPreservesPermutation<T, U>(f: T -> U, a: seq<T>, b: seq<T>)
    requires multiset(a) == multiset(b)
    ensures multiset(Map(f, a)) == multiset(Map(f, b))
  {
    if a == [] {
      assert |b| == |multiset(b)| == 0;
    } else {
      var k := Find(b, a[0]);
      var rest := b[..k] + b[k + 1..];
      RemoveMatching(a, b, k);
      MapPreservesPermutation(f, a[1..], rest);
      MapRemove(f, b, k);
      MapFirst(f, a);
    }
  }
}
