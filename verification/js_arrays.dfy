/**
 * `[...new Set(xs)]`: the order-preserving de-duplication of a JavaScript
 * array. A `Set` remembers insertion order and ignores re-insertions, so the
 * spread lists every distinct element once, at the place it first occurred.
 */
module JsArrays {
  import opened Sequences

  predicate NoDuplicates<T(==)>(xs: seq<T>) {
    forall i, j :: 0 <= i < j < |xs| ==> xs[i] != xs[j]
  }

  /** Inserts the elements of `xs` into an empty `Set`, in order, and spreads it back. */
  function Dedup<T(==, !new)>(xs: seq<T>): (r: seq<T>)
    ensures NoDuplicates(r)
    ensures forall x :: x in r <==> x in xs
    ensures |r| <= |xs|
    decreases |xs|
  {
    if xs == [] then []
    else
      var p := Dedup(xs[..|xs| - 1]);
      var x := xs[|xs| - 1];
      assert forall y :: y in xs <==> y in xs[..|xs| - 1] || y == x by {
        assert xs == xs[..|xs| - 1] + [x];
      }
      if x in p then p else p + [x]
  }

  /** Appending elements never reorders the de-duplication of what came before: it is a prefix. */
  lemma {:induction false} DedupPrefix<T(!new)>(a: seq<T>, b: seq<T>)
    ensures |Dedup(a)| <= |Dedup(a + b)|
    ensures Dedup(a + b)[..|Dedup(a)|] == Dedup(a)
    decreases |b|
  {
    if b == [] {
      assert a + b == a;
    } else {
      var b' := b[..|b| - 1];
      DedupPrefix(a, b');
      assert (a + b)[..|a + b| - 1] == a + b';
    }
  }

  /** A sequence without repetitions is its own de-duplication. */
  lemma {:induction false} DedupOfDistinct<T(!new)>(xs: seq<T>)
    requires NoDuplicates(xs)
    ensures Dedup(xs) == xs
    decreases |xs|
  {
    if xs != [] {
      var init := xs[..|xs| - 1];
      DedupOfDistinct(init);
      assert xs[|xs| - 1] !in init;
      assert init + [xs[|xs| - 1]] == xs;
    }
  }

  /** Appending elements that already occur adds nothing. */
  lemma {:induction false} DedupAbsorbs<T(!new)>(a: seq<T>, b: seq<T>)
    requires forall y :: y in b ==> y in a
    ensures Dedup(a + b) == Dedup(a)
    decreases |b|
  {
    if b == [] {
      assert a + b == a;
    } else {
      var b' := b[..|b| - 1];
      assert forall y :: y in b' ==> y in b;
      DedupAbsorbs(a, b');
      assert (a + b)[..|a + b| - 1] == a + b';
      assert (a + b)[|a + b| - 1] == b[|b| - 1];
    }
  }

  /** The elements of `b` that do not occur in `a`, in their order in `b`. */
  function Missing<T(==, !new)>(b: seq<T>, a: seq<T>): (r: seq<T>)
    ensures forall x :: x in r <==> x in b && x !in a
    ensures |r| <= |b|
  {
    if b == [] then []
    else
      var init := b[..|b| - 1];
      var x := b[|b| - 1];
      assert b == init + [x];
      Missing(init, a) + (if x in a then [] else [x])
  }

  /**
   * Adding a duplicate-free `b` to a set built from `a` appends, in `b`'s
   * order, exactly the elements of `b` that `a` lacks.
   */
  lemma {:induction false} DedupAppendDistinct<T(!new)>(a: seq<T>, b: seq<T>)
    requires NoDuplicates(b)
    ensures Dedup(a + b) == Dedup(a) + Missing(b, a)
    decreases |b|
  {
    if b == [] {
      assert a + b == a;
    } else {
      var init := b[..|b| - 1];
      var x := b[|b| - 1];
      assert NoDuplicates(init) && x !in init;
      DedupAppendDistinct(a, init);
      DropLastOfAppend(a, b);
      if x !in a {
        AppendAssoc(Dedup(a), Missing(init, a), [x]);
      }
    }
  }

  /** Merging the same elements a second time leaves the merged result unchanged. */
  lemma MergeAgainIsNoOp<T(!new)>(a: seq<T>, b: seq<T>)
    ensures Dedup(Dedup(a + b) + b) == Dedup(a + b)
  {
    var d := Dedup(a + b);
    DedupAbsorbs(d, b);
    DedupOfDistinct(d);
  }
}
