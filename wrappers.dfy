/** Option and Result, the shapes the pipeline uses for "no value" (a JavaScript
    null or undefined) and for thrown errors. */
module Wrappers {

  datatype Option<+T> = None | Some(value: T) {
    function GetOr(default: T): T {
      match this
      case Some(v) => v
      case None => default
    }
  }

  datatype Result<+R, +E> = Success(value: R) | Failure(error: E)

  /** The values of the `Some` entries, in order: what a loop that pushes only
      non-null results collects. */
  function Somes<T>(xs: seq<Option<T>>): (r: seq<T>)
    ensures |r| <= |xs|
    decreases |xs|
  {
    if xs == [] then []
    else Somes(xs[..|xs| - 1]) + (if xs[|xs| - 1].Some? then [xs[|xs| - 1].value] else [])
  }

  /** With no `None` entry, nothing is dropped and the order is kept. */
  lemma {:induction false} SomesOfAllSome<T>(xs: seq<Option<T>>)
    requires forall k :: 0 <= k < |xs| ==> xs[k].Some?
    ensures |Somes(xs)| == |xs|
    ensures forall k :: 0 <= k < |xs| ==> Somes(xs)[k] == xs[k].value
    decreases |xs|
  {
    if xs != [] {
      SomesOfAllSome(xs[..|xs| - 1]);
    }
  }

  /** One more entry examined: its value is kept when it has one. */
  lemma SomesStep<T>(xs: seq<Option<T>>, i: nat)
    requires i < |xs|
    ensures Somes(xs[..i + 1]) == Somes(xs[..i]) + (if xs[i].Some? then [xs[i].value] else [])
  {
    assert xs[..i + 1][..i] == xs[..i];
  }

  /** `SomesStep`, with the values already collected before the loop in front. */
  lemma SomesStepAfter<T>(prefix: seq<T>, xs: seq<Option<T>>, i: nat)
    requires i < |xs|
    ensures prefix + Somes(xs[..i + 1]) ==
            (prefix + Somes(xs[..i])) + (if xs[i].Some? then [xs[i].value] else [])
  {
    SomesStep(xs, i);
    ConcatAssociative(prefix, Somes(xs[..i]), if xs[i].Some? then [xs[i].value] else []);
  }

  /** A single value is kept. */
  lemma SomesSingle<T>(x: T)
    ensures Somes([Some(x)]) == [x]
  {
    assert [Some(x)][..0] == [];
  }

  lemma ConcatAssociative<T>(a: seq<T>, b: seq<T>, c: seq<T>)
    ensures (a + b) + c == a + (b + c)
  {
  }
}
