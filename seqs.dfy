/** Generic list helpers used by the evaluators. */
module Seqs {

  /** Applies `f` to each element in order and concatenates the pieces. */
  function FlatMap<A, B>(f: A -> seq<B>, xs: seq<A>): seq<B> {
    if xs == [] then [] else f(xs[0]) + FlatMap(f, xs[1..])
  }

  /** `FlatMap` handles the elements one after the other, appending at the end. */
  lemma {:induction false} FlatMapSnoc<A, B>(f: A -> seq<B>, xs: seq<A>, x: A)
    ensures FlatMap(f, xs + [x]) == FlatMap(f, xs) + f(x)
  {
    if xs == [] {
      assert xs + [x] == [x];
      assert [x][1..] == [];
    } else {
      assert (xs + [x])[0] == xs[0];
      assert (xs + [x])[1..] == xs[1..] + [x];
      FlatMapSnoc(f, xs[1..], x);
    }
  }

  /** `FlatMap` of a prefix one element longer appends that element's piece. */
  lemma FlatMapStep<A, B>(f: A -> seq<B>, xs: seq<A>, i: nat)
    requires i < |xs|
    ensures FlatMap(f, xs[..i + 1]) == FlatMap(f, xs[..i]) + f(xs[i])
  {
    assert xs[..i + 1] == xs[..i] + [xs[i]];
    FlatMapSnoc(f, xs[..i], xs[i]);
  }

  /** Whatever `FlatMap` produces comes from the piece of one input element, and back. */
  lemma {:induction false} FlatMapMembers<A, B>(f: A -> seq<B>, xs: seq<A>, y: B)
    ensures y in FlatMap(f, xs) <==> exists j :: 0 <= j < |xs| && y in f(xs[j])
  {
    if xs != [] {
      FlatMapMembers(f, xs[1..], y);
      if exists j :: 0 <= j < |xs[1..]| && y in f(xs[1..][j]) {
        var j :| 0 <= j < |xs[1..]| && y in f(xs[1..][j]);
        assert xs[j + 1] == xs[1..][j];
      }
      if exists j :: 0 <= j < |xs| && y in f(xs[j]) {
        var j :| 0 <= j < |xs| && y in f(xs[j]);
        if j > 0 {
          assert xs[1..][j - 1] == xs[j];
        }
      }
    }
  }

  /** Keeps, in order, the elements that satisfy `p`. */
  function Filter<A>(p: A -> bool, xs: seq<A>): seq<A> {
    if xs == [] then [] else (if p(xs[0]) then [xs[0]] else []) + Filter(p, xs[1..])
  }

  /** `Filter` handles the elements one after the other, appending at the end. */
  lemma {:induction false} FilterSnoc<A>(p: A -> bool, xs: seq<A>, x: A)
    ensures Filter(p, xs + [x]) == Filter(p, xs) + (if p(x) then [x] else [])
  {
    if xs == [] {
      assert xs + [x] == [x];
      assert [x][1..] == [];
    } else {
      var head: seq<A> := if p(xs[0]) then [xs[0]] else [];
      var tail: seq<A> := if p(x) then [x] else [];
      var ys := xs + [x];
      assert ys[0] == xs[0] && ys[1..] == xs[1..] + [x];
      FilterSnoc(p, xs[1..], x);
      calc {
        Filter(p, ys);
        head + Filter(p, xs[1..] + [x]);
        head + (Filter(p, xs[1..]) + tail);
        (head + Filter(p, xs[1..])) + tail;
      }
    }
  }

  /** `Filter` on a single element. */
  lemma FilterSingle<A>(p: A -> bool, x: A)
    ensures Filter(p, [x]) == if p(x) then [x] else []
  {
    assert [x][1..] == [];
  }

  /** `Filter` keeps something iff some element satisfies `p`. */
  lemma FilterNonEmpty<A>(p: A -> bool, xs: seq<A>)
    ensures Filter(p, xs) != [] <==> exists x :: x in xs && p(x)
  {
    var ys := Filter(p, xs);
    if ys != [] {
      FilterMembers(p, xs, ys[0]);
    }
    if exists x :: x in xs && p(x) {
      var x :| x in xs && p(x);
      FilterMembers(p, xs, x);
    }
  }

  /** `Filter` of a prefix one element longer appends that element if it is kept. */
  lemma FilterStep<A>(p: A -> bool, xs: seq<A>, i: nat)
    requires i < |xs|
    ensures Filter(p, xs[..i + 1]) == Filter(p, xs[..i]) + (if p(xs[i]) then [xs[i]] else [])
  {
    assert xs[..i + 1] == xs[..i] + [xs[i]];
    FilterSnoc(p, xs[..i], xs[i]);
  }

  /** An element is kept iff it is in the input and satisfies `p`. */
  lemma {:induction false} FilterMembers<A>(p: A -> bool, xs: seq<A>, y: A)
    ensures y in Filter(p, xs) <==> y in xs && p(y)
  {
    if xs != [] {
      FilterMembers(p, xs[1..], y);
      assert xs == [xs[0]] + xs[1..];
    }
  }

  /**
   * Tries the elements in order and stops at the first whose outcome
   * passes: that outcome; else the last element's outcome; else a failure
   * with `none` when there are no elements.
   */
  function UntilPass<A, E>(f: A -> (bool, E), xs: seq<A>, none: E): (bool, E) {
    if xs == [] then (false, none)
    else if f(xs[0]).0 || |xs| == 1 then f(xs[0])
    else UntilPass(f, xs[1..], none)
  }

  /** `UntilPass` passes iff some element's outcome passes. */
  lemma {:induction false} UntilPassIff<A, E>(f: A -> (bool, E), xs: seq<A>, none: E)
    ensures UntilPass(f, xs, none).0 <==> exists i :: 0 <= i < |xs| && f(xs[i]).0
  {
    if |xs| > 1 && !f(xs[0]).0 {
      UntilPassIff(f, xs[1..], none);
      if exists i :: 0 <= i < |xs| && f(xs[i]).0 {
        var i :| 0 <= i < |xs| && f(xs[i]).0;
        assert xs[1..][i - 1] == xs[i];
      }
      if UntilPass(f, xs[1..], none).0 {
        var i :| 0 <= i < |xs[1..]| && f(xs[1..][i]).0;
        assert xs[i + 1] == xs[1..][i];
      }
    }
  }

  /** Once `UntilPass` passes, further elements never change its outcome. */
  lemma {:induction false} UntilPassStops<A, E>(f: A -> (bool, E), xs: seq<A>, more: seq<A>, none: E)
    requires UntilPass(f, xs, none).0
    ensures UntilPass(f, xs + more, none) == UntilPass(f, xs, none)
  {
    assert (xs + more)[0] == xs[0];
    if !f(xs[0]).0 {
      assert (xs + more)[1..] == xs[1..] + more;
      UntilPassStops(f, xs[1..], more, none);
    }
  }

  /** Where the elements of three concatenated sequences end up. */
  lemma Concat3At<A>(a: seq<A>, b: seq<A>, c: seq<A>)
    ensures |a + b + c| == |a| + |b| + |c|
    ensures forall i :: 0 <= i < |a| ==> (a + b + c)[i] == a[i]
    ensures forall i :: 0 <= i < |b| ==> (a + b + c)[|a| + i] == b[i]
    ensures forall i :: 0 <= i < |c| ==> (a + b + c)[|a| + |b| + i] == c[i]
  {
  }
}
