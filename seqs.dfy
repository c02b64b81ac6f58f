/**
 * Sequence helpers shared by the model: an order-preserving filter (a list
 * comprehension with an `if`), concatenation of a list of lists, and the
 * cartesian product in the order `itertools.product` produces it (the first
 * dimension varies slowest).
 */
module Seqs {

  /** `[x for x in s if p(x)]`. */
  function Filter<T(!new)>(s: seq<T>, p: T -> bool): (r: seq<T>)
    ensures |r| <= |s|
    ensures forall x :: x in r <==> x in s && p(x)
    decreases |s|
  {
    if |s| == 0 then []
    else
      assert s == s[..|s| - 1] + [s[|s| - 1]];
      Filter(s[..|s| - 1], p) + (if p(s[|s| - 1]) then [s[|s| - 1]] else [])
  }

  /** Filtering one more element appends it exactly when it passes. */
  lemma FilterSnoc<T(!new)>(s: seq<T>, x: T, p: T -> bool)
    ensures Filter(s + [x], p) == Filter(s, p) + (if p(x) then [x] else [])
  {
    assert (s + [x])[..|s + [x]| - 1] == s;
  }

  /** Extending a prefix by one element extends its filter by that element when it passes. */
  lemma FilterPrefixSnoc<T(!new)>(s: seq<T>, n: nat, p: T -> bool)
    requires n < |s|
    ensures Filter(s[..n + 1], p) == Filter(s[..n], p) + (if p(s[n]) then [s[n]] else [])
  {
    assert s[..n + 1] == s[..n] + [s[n]];
    FilterSnoc(s[..n], s[n], p);
  }

  /** Filtering distributes over concatenation, so the filter keeps the input order. */
  lemma {:induction false} FilterAppend<T(!new)>(a: seq<T>, b: seq<T>, p: T -> bool)
    ensures Filter(a + b, p) == Filter(a, p) + Filter(b, p)
    decreases |b|
  {
    if |b| == 0 {
      assert a + b == a;
    } else {
      var b' := b[..|b| - 1];
      var x := b[|b| - 1];
      var last := if p(x) then [x] else [];
      assert b == b' + [x];
      assert a + b == (a + b') + [x];
      calc {
        Filter(a + b, p);
        { FilterSnoc(a + b', x, p); }
        Filter(a + b', p) + last;
        { FilterAppend(a, b', p); }
        Filter(a, p) + Filter(b', p) + last;
        { FilterSnoc(b', x, p); }
        Filter(a, p) + Filter(b, p);
      }
    }
  }

  /** A filter whose predicate is implied by a stronger one keeps at least as many elements. */
  lemma {:induction false} FilterMonotone<T(!new)>(s: seq<T>, p: T -> bool, q: T -> bool)
    requires forall x :: x in s && q(x) ==> p(x)
    ensures |Filter(s, q)| <= |Filter(s, p)|
    ensures |Filter(s, q)| == |Filter(s, p)| ==> forall x :: x in s && p(x) ==> q(x)
    decreases |s|
  {
    if |s| > 0 {
      var s' := s[..|s| - 1];
      assert s == s' + [s[|s| - 1]];
      FilterMonotone(s', p, q);
    }
  }

  /** Taking the same element out of two sequences with the same elements leaves the same elements. */
  lemma MultisetCancel<T>(front: seq<T>, x: T, before: seq<T>, after: seq<T>)
    requires multiset(front + [x]) == multiset(before + [x] + after)
    ensures multiset(front) == multiset(before + after)
  {
    assert multiset(before + [x] + after) == multiset(before) + multiset{x} + multiset(after);
    assert multiset(front + [x]) == multiset(front) + multiset{x};
    assert multiset(before + after) == multiset(before) + multiset(after);
    forall y
      ensures multiset(front)[y] == multiset(before + after)[y]
    {
      assert multiset(front + [x])[y] == multiset(before + [x] + after)[y];
    }
  }

  /** The concatenation of a list of lists, left to right. */
  function Flatten<T(!new)>(ss: seq<seq<T>>): (r: seq<T>)
    ensures forall x :: x in r <==> exists i :: 0 <= i < |ss| && x in ss[i]
    decreases |ss|
  {
    if |ss| == 0 then []
    else
      var ss' := ss[..|ss| - 1];
      assert forall i :: 0 <= i < |ss'| ==> ss'[i] == ss[i];
      Flatten(ss') + ss[|ss| - 1]
  }

  /** The results of `f` on each element of `xs`, concatenated left to right. */
  function FlatMap<A, B>(xs: seq<A>, f: A -> seq<B>): seq<B>
    decreases |xs|
  {
    if |xs| == 0 then [] else FlatMap(xs[..|xs| - 1], f) + f(xs[|xs| - 1])
  }

  /** Mapping one more element appends its results. */
  lemma FlatMapSnoc<A, B>(xs: seq<A>, x: A, f: A -> seq<B>)
    ensures FlatMap(xs + [x], f) == FlatMap(xs, f) + f(x)
  {
    assert (xs + [x])[..|xs|] == xs;
  }

  lemma {:induction false} FlatMapMembership<A, B>(xs: seq<A>, f: A -> seq<B>, y: B)
    ensures y in FlatMap(xs, f) <==> exists x :: x in xs && y in f(x)
    decreases |xs|
  {
    if |xs| > 0 {
      var front := xs[..|xs| - 1];
      var last := xs[|xs| - 1];
      assert xs == front + [last];
      FlatMapMembership(front, f, y);
      if exists x :: x in xs && y in f(x) {
        var x :| x in xs && y in f(x);
        if x != last {
          assert x in front;
        }
      }
    }
  }

  /** The product of the lengths of the dimensions (1 for no dimension). */
  function ProductOfLengths<T>(dims: seq<seq<T>>): nat
    decreases |dims|
  {
    if |dims| == 0 then 1 else |dims[0]| * ProductOfLengths(dims[1..])
  }

  /** `[[h] + t for h in heads for t in tails]`. */
  function Prepend<T>(heads: seq<T>, tails: seq<seq<T>>): (r: seq<seq<T>>)
    ensures |r| == |heads| * |tails|
    decreases |heads|
  {
    if |heads| == 0 then []
    else
      var rest := Prepend(heads[1..], tails);
      assert |heads| * |tails| == |tails| + (|heads| - 1) * |tails|;
      seq(|tails|, i requires 0 <= i < |tails| => [heads[0]] + tails[i]) + rest
  }

  /** Entry `i * |tails| + j` of `Prepend` is head `i` before tail `j`: the heads vary slowest. */
  lemma {:induction false} PrependIndex<T>(heads: seq<T>, tails: seq<seq<T>>, i: nat, j: nat)
    requires i < |heads| && j < |tails|
    ensures i * |tails| + j < |Prepend(heads, tails)|
    ensures Prepend(heads, tails)[i * |tails| + j] == [heads[i]] + tails[j]
    decreases i
  {
    var front := seq(|tails|, k requires 0 <= k < |tails| => [heads[0]] + tails[k]);
    assert Prepend(heads, tails) == front + Prepend(heads[1..], tails);
    if i > 0 {
      PrependIndex(heads[1..], tails, i - 1, j);
      assert i * |tails| + j == |tails| + ((i - 1) * |tails| + j);
    }
  }

  /** `list(itertools.product(*dims))`, each tuple as a sequence. */
  function CrossProduct<T>(dims: seq<seq<T>>): (r: seq<seq<T>>)
    ensures |r| == ProductOfLengths(dims)
    decreases |dims|
  {
    if |dims| == 0 then [[]] else Prepend(dims[0], CrossProduct(dims[1..]))
  }

  /**
   * The first dimension varies slowest, as in `itertools.product`: the
   * product is one block per entry of the first dimension, in order, each
   * block being the product of the remaining dimensions.
   */
  lemma CrossProductOrder<T>(dims: seq<seq<T>>, i: nat, j: nat)
    requires |dims| > 0 && i < |dims[0]| && j < ProductOfLengths(dims[1..])
    ensures i * ProductOfLengths(dims[1..]) + j < |CrossProduct(dims)|
    ensures CrossProduct(dims)[i * ProductOfLengths(dims[1..]) + j] == [dims[0][i]] + CrossProduct(dims[1..])[j]
  {
    PrependIndex(dims[0], CrossProduct(dims[1..]), i, j);
  }

  lemma {:induction false} PrependMembership<T>(heads: seq<T>, tails: seq<seq<T>>, x: seq<T>)
    ensures x in Prepend(heads, tails) <==> |x| > 0 && x[0] in heads && x[1..] in tails
    decreases |heads|
  {
    if |heads| > 0 {
      var front := seq(|tails|, i requires 0 <= i < |tails| => [heads[0]] + tails[i]);
      assert Prepend(heads, tails) == front + Prepend(heads[1..], tails);
      PrependMembership(heads[1..], tails, x);
      if x in front {
        var i :| 0 <= i < |tails| && front[i] == x;
        assert x[1..] == tails[i];
      }
      if |x| > 0 && x[0] == heads[0] && x[1..] in tails {
        var i :| 0 <= i < |tails| && tails[i] == x[1..];
        assert front[i] == x;
      }
      if |x| > 0 && x[0] in heads && x[0] != heads[0] {
        assert x[0] in heads[1..];
      }
    }
  }

  /**
   * Soundness and completeness of the product: a tuple is produced exactly
   * when it takes one element from each dimension, in dimension order.
   */
  lemma {:induction false} CrossProductMembership<T>(dims: seq<seq<T>>, x: seq<T>)
    ensures x in CrossProduct(dims) <==> |x| == |dims| && forall i :: 0 <= i < |dims| ==> x[i] in dims[i]
    decreases |dims|
  {
    if |dims| == 0 {
    } else {
      PrependMembership(dims[0], CrossProduct(dims[1..]), x);
      if |x| > 0 {
        CrossProductMembership(dims[1..], x[1..]);
        if |x| == |dims| && forall i :: 0 <= i < |dims| ==> x[i] in dims[i] {
          assert forall i :: 0 <= i < |dims| - 1 ==> x[1..][i] == x[i + 1];
        }
        if x in CrossProduct(dims) {
          forall i | 0 <= i < |dims| ensures x[i] in dims[i] {
            if i > 0 {
              assert x[1..][i - 1] == x[i];
            }
          }
        }
      }
    }
  }
}
