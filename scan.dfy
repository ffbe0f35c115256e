/** The loop shape the parsers share: walk a sequence in order, compute for each
    element either nothing (skip it), one row (append it) or an error (raise, which
    abandons the whole walk). */
module Scan {
  import opened Results

  /** The rows produced by walking `xs` in order; the first error ends the walk. */
  function FilterMap<X, R, E>(xs: seq<X>, f: X -> Result<Option<R>, E>): Result<seq<R>, E>
    decreases |xs|
  {
    if xs == [] then Success([])
    else
      var done :- FilterMap(xs[..|xs| - 1], f);
      var step :- f(xs[|xs| - 1]);
      match step
      case None => Success(done)
      case Some(row) => Success(done + [row])
  }

  /** The elements of `xs` that produce a row, in order. */
  function Kept<X, R, E>(xs: seq<X>, f: X -> Result<Option<R>, E>): seq<X>
    decreases |xs|
  {
    if xs == [] then []
    else
      var last := xs[|xs| - 1];
      Kept(xs[..|xs| - 1], f) + (if f(last).Success? && f(last).value.Some? then [last] else [])
  }

  /** The elements of `xs` that satisfy `p`, in order. */
  function Filter<X>(xs: seq<X>, p: X -> bool): seq<X>
    decreases |xs|
  {
    if xs == [] then []
    else Filter(xs[..|xs| - 1], p) + (if p(xs[|xs| - 1]) then [xs[|xs| - 1]] else [])
  }

  /** One more element: it raises, is skipped, or appends its row. */
  lemma FilterMapStep<X, R, E>(xs: seq<X>, j: nat, f: X -> Result<Option<R>, E>)
    requires j < |xs|
    requires FilterMap(xs[..j], f).Success?
    ensures f(xs[j]).Failure? ==> FilterMap(xs[..j + 1], f) == Failure(f(xs[j]).error)
    ensures f(xs[j]) == Success(None) ==> FilterMap(xs[..j + 1], f) == FilterMap(xs[..j], f)
    ensures f(xs[j]).Success? && f(xs[j]).value.Some? ==>
              FilterMap(xs[..j + 1], f) == Success(FilterMap(xs[..j], f).value + [f(xs[j]).value.value])
  {
    assert xs[..j + 1][..j] == xs[..j];
  }

  /** Walking `a + b` is walking `a`, then `b`; an error in `a` wins. */
  lemma {:induction false} FilterMapAppend<X, R, E>(a: seq<X>, b: seq<X>, f: X -> Result<Option<R>, E>)
    ensures FilterMap(a + b, f).Success? <==> FilterMap(a, f).Success? && FilterMap(b, f).Success?
    ensures FilterMap(a, f).Failure? ==> FilterMap(a + b, f).Failure? && FilterMap(a + b, f).error == FilterMap(a, f).error
    ensures FilterMap(a, f).Success? && FilterMap(b, f).Failure? ==>
              FilterMap(a + b, f).Failure? && FilterMap(a + b, f).error == FilterMap(b, f).error
    ensures FilterMap(a + b, f).Success? ==> FilterMap(a + b, f).value == FilterMap(a, f).value + FilterMap(b, f).value
    decreases |b|
  {
    if b == [] {
      assert a + b == a;
    } else {
      var b' := b[..|b| - 1];
      FilterMapAppend(a, b', f);
      assert (a + b)[..|a + b| - 1] == a + b';
      assert (a + b)[|a + b| - 1] == b[|b| - 1];
    }
  }

  /** An error in a prefix is the error of the whole walk. */
  lemma FilterMapPrefixFailure<X, R, E>(xs: seq<X>, i: nat, f: X -> Result<Option<R>, E>)
    requires i <= |xs|
    requires FilterMap(xs[..i], f).Failure?
    ensures FilterMap(xs, f).Failure? && FilterMap(xs, f).error == FilterMap(xs[..i], f).error
  {
    FilterMapAppend(xs[..i], xs[i..], f);
    assert xs[..i] + xs[i..] == xs;
  }

  /** The walk succeeds exactly when no element raises; then it yields one row per
      kept element, in order; otherwise its error is that of the first element that raises. */
  lemma {:induction false} FilterMapSpec<X, R, E>(xs: seq<X>, f: X -> Result<Option<R>, E>)
    ensures FilterMap(xs, f).Success? <==> forall k :: 0 <= k < |xs| ==> f(xs[k]).Success?
    ensures FilterMap(xs, f).Success? ==>
              var rows := FilterMap(xs, f).value;
              |rows| == |Kept(xs, f)| &&
              forall k :: 0 <= k < |rows| ==> f(Kept(xs, f)[k]) == Success(Some(rows[k]))
    ensures FilterMap(xs, f).Failure? ==>
              exists k :: 0 <= k < |xs| && f(xs[k]) == Failure(FilterMap(xs, f).error) &&
                          forall j :: 0 <= j < k ==> f(xs[j]).Success?
    decreases |xs|
  {
    if xs != [] {
      var init := xs[..|xs| - 1];
      var last := xs[|xs| - 1];
      FilterMapSpec(init, f);
      assert forall k :: 0 <= k < |init| ==> init[k] == xs[k];
      if FilterMap(init, f).Failure? {
        var k :| 0 <= k < |init| && f(init[k]) == Failure(FilterMap(init, f).error) &&
                 forall j :: 0 <= j < k ==> f(init[j]).Success?;
        assert f(xs[k]) == Failure(FilterMap(xs, f).error);
      } else if f(last).Failure? {
        assert f(xs[|xs| - 1]) == Failure(FilterMap(xs, f).error);
      }
    }
  }

  /** When no element raises and `p` tells exactly which elements yield a row, the
      kept elements are those satisfying `p`. */
  lemma {:induction false} KeptIsFilter<X, R, E>(xs: seq<X>, f: X -> Result<Option<R>, E>, p: X -> bool)
    requires forall k :: 0 <= k < |xs| ==> f(xs[k]).Success? && (f(xs[k]).value.Some? <==> p(xs[k]))
    ensures Kept(xs, f) == Filter(xs, p)
    decreases |xs|
  {
    if xs != [] {
      var init := xs[..|xs| - 1];
      assert forall k :: 0 <= k < |init| ==> init[k] == xs[k];
      KeptIsFilter(init, f, p);
    }
  }

  /** When no element is skipped, a successful walk maps every element to one row. */
  lemma {:induction false} FilterMapKeepsAll<X, R, E>(xs: seq<X>, f: X -> Result<Option<R>, E>)
    requires forall k :: 0 <= k < |xs| ==> f(xs[k]).Failure? || f(xs[k]).value.Some?
    requires FilterMap(xs, f).Success?
    ensures |FilterMap(xs, f).value| == |xs|
    ensures forall k :: 0 <= k < |xs| ==> f(xs[k]).Success? && f(xs[k]).value == Some(FilterMap(xs, f).value[k])
    decreases |xs|
  {
    if xs != [] {
      var init := xs[..|xs| - 1];
      assert forall k :: 0 <= k < |init| ==> init[k] == xs[k];
      FilterMapKeepsAll(init, f);
    }
  }

  /** `Filter` keeps exactly the elements satisfying `p`. */
  lemma {:induction false} FilterMembers<X>(xs: seq<X>, p: X -> bool)
    ensures forall x :: x in Filter(xs, p) <==> x in xs && p(x)
    decreases |xs|
  {
    if xs != [] {
      var init := xs[..|xs| - 1];
      FilterMembers(init, p);
      assert xs == init + [xs[|xs| - 1]];
    }
  }
}
