/** Failure-compatible Option type used for the normaliser's "skip this entry"
    outcome and for missing values in the rent statistics. */
module Wrappers {

  datatype Option<+T> = None | Some(value: T) {

    /** A missing value stops a `:-` chain. */
    predicate IsFailure() {
      None?
    }

    /** The missing value, at the type the enclosing chain returns. */
    function PropagateFailure<U>(): Option<U>
      requires None?
    {
      None
    }

    /** The present value. */
    function Extract(): T
      requires Some?
    {
      value
    }

    /** The present value, or `default` when there is none. */
    function GetOr(default: T): T {
      match this
      case Some(v) => v
      case None() => default
    }
  }

  /** The values of the present entries, in order: what a loop that skips
      the failed items collects. */
  function Present<T>(xs: seq<Option<T>>): (r: seq<T>)
    ensures |r| <= |xs|
  {
    if |xs| == 0 then []
    else
      var last := xs[|xs| - 1];
      Present(xs[..|xs| - 1]) + (if last.Some? then [last.value] else [])
  }

  /** Collecting over a concatenation concatenates the collections. */
  lemma {:induction false} PresentAppend<T>(a: seq<Option<T>>, b: seq<Option<T>>)
    ensures Present(a + b) == Present(a) + Present(b)
    decreases |b|
  {
    if |b| == 0 {
      assert a + b == a;
    } else {
      var b' := b[..|b| - 1];
      assert (a + b)[..|a + b| - 1] == a + b';
      assert (a + b)[|a + b| - 1] == b[|b| - 1];
      PresentAppend(a, b');
    }
  }

  /** With every entry present, the k-th value is the k-th entry's. */
  lemma {:induction false} PresentAll<T>(xs: seq<Option<T>>)
    requires forall k :: 0 <= k < |xs| ==> xs[k].Some?
    ensures |Present(xs)| == |xs|
    ensures forall k :: 0 <= k < |xs| ==> Present(xs)[k] == xs[k].value
  {
    if |xs| > 0 {
      var init := xs[..|xs| - 1];
      PresentAll(init);
      forall k | 0 <= k < |xs| ensures Present(xs)[k] == xs[k].value {
        if k < |init| {
          assert init[k] == xs[k];
        }
      }
    }
  }

  /** With no entry present, nothing is collected. */
  lemma {:induction false} PresentNone<T>(xs: seq<Option<T>>)
    requires forall k :: 0 <= k < |xs| ==> xs[k].None?
    ensures Present(xs) == []
  {
    if |xs| > 0 {
      var init := xs[..|xs| - 1];
      assert forall k :: 0 <= k < |init| ==> init[k] == xs[k];
      PresentNone(init);
    }
  }

  /** Every collected value is some entry's. */
  lemma {:induction false} PresentFrom<T>(xs: seq<Option<T>>)
    ensures forall k :: 0 <= k < |Present(xs)| ==> Some(Present(xs)[k]) in xs
  {
    if |xs| > 0 {
      var init := xs[..|xs| - 1];
      PresentFrom(init);
      forall k | 0 <= k < |Present(xs)| ensures Some(Present(xs)[k]) in xs {
        if k < |Present(init)| {
          var j :| 0 <= j < |init| && init[j] == Some(Present(init)[k]);
          assert xs[j] == init[j];
        } else {
          assert xs[|xs| - 1] == Some(Present(xs)[k]);
        }
      }
    }
  }

  /** `f` applied to every element, in order. */
  method MapAll<A, B>(xs: seq<A>, f: A --> B) returns (ys: seq<B>)
    requires forall k :: 0 <= k < |xs| ==> f.requires(xs[k])
    ensures |ys| == |xs|
    ensures forall k :: 0 <= k < |xs| ==> ys[k] == f(xs[k])
  {
    ys := [];
    for i := 0 to |xs|
      invariant |ys| == i
      invariant forall k :: 0 <= k < i ==> ys[k] == f(xs[k])
    {
      ys := ys + [f(xs[i])];
    }
  }
}
