/** Sequences built by keeping what a partial function makes of each element, in order. */
module Seqs {
  import opened Wrappers

  /** `xs.map(f).filter(Boolean)` for an `f` that returns `null` for the elements it drops. */
  function FilterMap<A, B>(f: A -> Option<B>, xs: seq<A>): (r: seq<B>)
    ensures |r| <= |xs|
  {
    if xs == [] then []
    else
      var rest := FilterMap(f, xs[..|xs| - 1]);
      match f(xs[|xs| - 1])
      case Some(y) => rest + [y]
      case None => rest
  }

  /** One element more at the end contributes its image, if any, at the end. */
  lemma FilterMapSnoc<A, B>(f: A -> Option<B>, xs: seq<A>, x: A)
    ensures FilterMap(f, xs + [x]) == FilterMap(f, xs) + (if f(x).Some? then [f(x).value] else [])
  {
    assert (xs + [x])[..|xs|] == xs;
  }

  /** The prefix one element longer adds that element's image, if any, at the end. */
  lemma FilterMapPrefixStep<A, B>(f: A -> Option<B>, xs: seq<A>, i: nat, y: Option<B>)
    requires i < |xs| && y == f(xs[i])
    ensures FilterMap(f, xs[..i + 1]) == FilterMap(f, xs[..i]) + if y.Some? then [y.value] else []
  {
    assert xs[..i + 1] == xs[..i] + [xs[i]];
    FilterMapSnoc(f, xs[..i], xs[i]);
  }

  /** A single element contributes its image, if any. */
  lemma FilterMapOne<A, B>(f: A -> Option<B>, x: A)
    ensures FilterMap(f, [x]) == if f(x).Some? then [f(x).value] else []
  {
    assert [x][..0] == [];
  }

  /** The order of the input is kept: the images of two blocks one after the other. */
  lemma {:induction false} FilterMapAppend<A, B>(f: A -> Option<B>, xs: seq<A>, ys: seq<A>)
    ensures FilterMap(f, xs + ys) == FilterMap(f, xs) + FilterMap(f, ys)
    decreases |ys|
  {
    if ys == [] {
      assert xs + ys == xs;
    } else {
      var init, last := ys[..|ys| - 1], ys[|ys| - 1];
      assert xs + ys == (xs + init) + [last];
      assert ys == init + [last];
      FilterMapSnoc(f, xs + init, last);
      FilterMapSnoc(f, init, last);
      FilterMapAppend(f, xs, init);
    }
  }

  /** Nothing is dropped when `f` is defined everywhere: the result is the plain map. */
  lemma {:induction false} FilterMapTotal<A, B>(f: A -> Option<B>, xs: seq<A>)
    requires forall k :: 0 <= k < |xs| ==> f(xs[k]).Some?
    ensures |FilterMap(f, xs)| == |xs|
    ensures forall k :: 0 <= k < |xs| ==> FilterMap(f, xs)[k] == f(xs[k]).value
  {
    if xs != [] {
      FilterMapTotal(f, xs[..|xs| - 1]);
    }
  }

  /** The result is empty exactly when `f` drops every element. */
  lemma {:induction false} FilterMapEmpty<A, B>(f: A -> Option<B>, xs: seq<A>)
    ensures FilterMap(f, xs) == [] <==> forall k :: 0 <= k < |xs| ==> f(xs[k]).None?
  {
    if xs != [] {
      FilterMapEmpty(f, xs[..|xs| - 1]);
    }
  }

  /** Every element of the result is the image of an element of the input. */
  lemma {:induction false} FilterMapFrom<A, B>(f: A -> Option<B>, xs: seq<A>, y: B)
    requires y in FilterMap(f, xs)
    ensures exists k :: 0 <= k < |xs| && f(xs[k]) == Some(y)
  {
    var init := xs[..|xs| - 1];
    if f(xs[|xs| - 1]) != Some(y) {
      FilterMapFrom(f, init, y);
      var k :| 0 <= k < |init| && f(init[k]) == Some(y);
      assert xs[k] == init[k];
    }
  }

  // ---------------------------------------------------------------- prefixes

  /** Cutting `x` at `m` first changes nothing when at most `m` of it is kept after `y`. */
  lemma TakeAfterCons<T>(y: T, x: seq<T>, m: nat, j: nat)
    requires m <= |x| && j <= m + 1
    ensures ([y] + x[..m])[..j] == ([y] + x)[..j]
  {
  }

  /** An element put before `a + b` is put before `a`. */
  lemma ConsAppend<T>(y: T, a: seq<T>, b: seq<T>)
    ensures ([y] + a) + b == [y] + (a + b)
  {
  }
}
