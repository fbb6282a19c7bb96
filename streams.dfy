/**
 * The two loop shapes of sasutils/ses.py over a sequence of lines: a generator that
 * yields one item for some of its inputs (filter-map), and a `for` loop that returns
 * on its first success (find-first).
 */
module Streams {
  import opened Wrappers

  // ---------------------------------------------------------------------------
  // Filter-map: `for x in xs: if f(x) is not None: yield f(x)`
  // ---------------------------------------------------------------------------

  function FilterMap<T, U>(xs: seq<T>, f: T -> Option<U>): (r: seq<U>)
    ensures |r| <= |xs|
  {
    if xs == [] then []
    else (match f(xs[0]) case Some(y) => [y] case None => []) + FilterMap(xs[1..], f)
  }

  /** The generator is compositional: running it on two parts yields the two outputs in turn. */
  lemma {:induction false} FilterMapAppend<T, U>(a: seq<T>, b: seq<T>, f: T -> Option<U>)
    ensures FilterMap(a + b, f) == FilterMap(a, f) + FilterMap(b, f)
  {
    if a == [] {
      assert a + b == b;
    } else {
      assert (a + b)[1..] == a[1..] + b;
      FilterMapAppend(a[1..], b, f);
    }
  }

  /** An input on which `f` succeeds yields its item right after the items of the inputs before it. */
  lemma FilterMapEntry<T, U>(xs: seq<T>, f: T -> Option<U>, i: nat)
    requires i < |xs| && f(xs[i]).Some?
    ensures |FilterMap(xs[..i], f)| < |FilterMap(xs, f)|
    ensures FilterMap(xs, f)[|FilterMap(xs[..i], f)|] == f(xs[i]).value
  {
    assert xs == xs[..i] + [xs[i]] + xs[i + 1..];
    FilterMapAppend(xs[..i] + [xs[i]], xs[i + 1..], f);
    FilterMapAppend(xs[..i], [xs[i]], f);
  }

  /** Every item comes from one input, the inputs in order: item `k` is `f` of an input
      that has exactly `k` items before it. */
  lemma {:induction false} FilterMapOrigin<T, U>(xs: seq<T>, f: T -> Option<U>, k: nat)
    requires k < |FilterMap(xs, f)|
    ensures exists i :: 0 <= i < |xs| && f(xs[i]) == Some(FilterMap(xs, f)[k]) && |FilterMap(xs[..i], f)| == k
  {
    assert xs == [xs[0]] + xs[1..];
    FilterMapAppend([xs[0]], xs[1..], f);
    assert FilterMap(xs[..0], f) == [];
    if f(xs[0]).Some? && k == 0 {
      assert f(xs[0]) == Some(FilterMap(xs, f)[0]);
    } else {
      var k' := if f(xs[0]).Some? then k - 1 else k;
      FilterMapOrigin(xs[1..], f, k');
      var i :| 0 <= i < |xs[1..]| && f(xs[1..][i]) == Some(FilterMap(xs[1..], f)[k']) && |FilterMap(xs[1..][..i], f)| == k';
      assert xs[..i + 1] == [xs[0]] + xs[1..][..i];
      FilterMapAppend([xs[0]], xs[1..][..i], f);
      assert f(xs[i + 1]) == Some(FilterMap(xs, f)[k]) && |FilterMap(xs[..i + 1], f)| == k;
    }
  }

  /** Every item satisfies whatever `f` guarantees of its successes. */
  lemma FilterMapAll<T, U>(xs: seq<T>, f: T -> Option<U>, P: U -> bool)
    requires forall x :: f(x).Some? ==> P(f(x).value)
    ensures forall k :: 0 <= k < |FilterMap(xs, f)| ==> P(FilterMap(xs, f)[k])
  {
    forall k | 0 <= k < |FilterMap(xs, f)|
      ensures P(FilterMap(xs, f)[k])
    {
      FilterMapOrigin(xs, f, k);
    }
  }

  // ---------------------------------------------------------------------------
  // Find-first: `for x in xs: if f(x) is not None: return f(x)`, falling off the end
  // ---------------------------------------------------------------------------

  /** `f(xs[i])` is the first success of `f` on `xs`. */
  ghost predicate FirstSuccess<T, U>(xs: seq<T>, f: T -> Option<U>, r: Option<U>) {
    (r.Some? ==> exists i :: 0 <= i < |xs| && f(xs[i]) == r && forall k :: 0 <= k < i ==> f(xs[k]).None?) &&
    (r.None? ==> forall k :: 0 <= k < |xs| ==> f(xs[k]).None?)
  }

  function FindFirst<T, U>(xs: seq<T>, f: T -> Option<U>): (r: Option<U>)
    ensures FirstSuccess(xs, f, r)
  {
    if xs == [] then None
    else if f(xs[0]).Some? then
      f(xs[0])
    else
      var r := FindFirst(xs[1..], f);
      FirstSuccessShift(xs, f, r);
      r
  }

  /** A first success in the tail is the first success of the whole when the head fails. */
  lemma FirstSuccessShift<T, U>(xs: seq<T>, f: T -> Option<U>, r: Option<U>)
    requires xs != [] && f(xs[0]).None? && FirstSuccess(xs[1..], f, r)
    ensures FirstSuccess(xs, f, r)
  {
    if r.Some? {
      var i :| 0 <= i < |xs[1..]| && f(xs[1..][i]) == r && forall k :: 0 <= k < i ==> f(xs[1..][k]).None?;
      forall k | 0 <= k < i + 1
        ensures f(xs[k]).None?
      {
        if k > 0 { assert xs[k] == xs[1..][k - 1]; }
      }
      assert f(xs[i + 1]) == r;
    } else {
      forall k | 0 <= k < |xs|
        ensures f(xs[k]).None?
      {
        if k > 0 { assert xs[k] == xs[1..][k - 1]; }
      }
    }
  }

  /** The loop stops at the first success: inputs after it are never looked at. */
  lemma FindFirstStops<T, U>(a: seq<T>, x: T, b: seq<T>, f: T -> Option<U>)
    requires forall k :: 0 <= k < |a| ==> f(a[k]).None?
    requires f(x).Some?
    ensures FindFirst(a + [x] + b, f) == f(x)
  {
    var xs := a + [x] + b;
    var r := FindFirst(xs, f);
    assert xs[|a|] == x;
    assert forall k :: 0 <= k < |a| ==> xs[k] == a[k];
  }
}
