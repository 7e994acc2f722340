/** The shape shared by every statement-building and row-reading loop of the
    provider: walk a list in order; for each element either throw (the whole
    loop fails with that element's error), `continue` (contribute nothing) or
    contribute one piece. `Collect` is that loop as a function, defined from the
    right end so that one loop iteration is one unfolding. */
module Gather {
  import opened Wrappers

  /** What one element contributes: `Failure` throws, `Success(None)` skips,
      `Success(Some(b))` appends `b`. */
  function Extend<B, E>(acc: Result<seq<B>, E>, step: Result<Option<B>, E>): Result<seq<B>, E> {
    match acc
    case Failure(e) => Failure(e)
    case Success(prev) =>
      match step
      case Failure(e) => Failure(e)
      case Success(piece) => Success(if piece.Some? then prev + [piece.value] else prev)
  }

  function Collect<A, B, E>(xs: seq<A>, f: A -> Result<Option<B>, E>): Result<seq<B>, E>
    decreases |xs|
  {
    if xs == [] then Success([]) else Extend(Collect(xs[..|xs| - 1], f), f(xs[|xs| - 1]))
  }

  predicate Emits<B, E>(step: Result<Option<B>, E>) {
    step.Success? && step.value.Some?
  }

  /** The positions whose element contributes a piece, in increasing order. */
  function Positions<A, B, E>(xs: seq<A>, f: A -> Result<Option<B>, E>): (ps: seq<nat>)
    ensures forall k :: 0 <= k < |ps| ==> ps[k] < |xs| && Emits(f(xs[ps[k]]))
    ensures forall k, l :: 0 <= k < l < |ps| ==> ps[k] < ps[l]
    ensures forall i :: 0 <= i < |xs| && Emits(f(xs[i])) ==> i in ps
    decreases |xs|
  {
    if xs == [] then []
    else
      var init := xs[..|xs| - 1];
      var prev := Positions(init, f);
      assert forall i :: 0 <= i < |init| ==> init[i] == xs[i];
      prev + if Emits(f(xs[|xs| - 1])) then [|xs| - 1] else []
  }

  /** One more loop iteration. */
  lemma CollectStep<A, B, E>(xs: seq<A>, i: nat, f: A -> Result<Option<B>, E>)
    requires i < |xs|
    ensures Collect(xs[..i + 1], f) == Extend(Collect(xs[..i], f), f(xs[i]))
  {
    assert xs[..i + 1][..i] == xs[..i];
  }

  /** The loop succeeds exactly when no element throws. */
  lemma {:induction false} CollectSucceeds<A, B, E>(xs: seq<A>, f: A -> Result<Option<B>, E>)
    ensures Collect(xs, f).Success? <==> forall i :: 0 <= i < |xs| ==> f(xs[i]).Success?
    decreases |xs|
  {
    if xs != [] {
      var init := xs[..|xs| - 1];
      CollectSucceeds(init, f);
      assert forall i :: 0 <= i < |init| ==> init[i] == xs[i];
    }
  }

  /** A failing loop fails with the error of the first element that throws. */
  lemma {:induction false} CollectFailsFirst<A, B, E>(xs: seq<A>, i: nat, f: A -> Result<Option<B>, E>)
    requires i < |xs| && f(xs[i]).Failure?
    requires forall j :: 0 <= j < i ==> f(xs[j]).Success?
    ensures Collect(xs, f) == Failure(f(xs[i]).error)
    decreases |xs|
  {
    var init := xs[..|xs| - 1];
    assert forall j :: 0 <= j < |init| ==> init[j] == xs[j];
    if i < |xs| - 1 {
      CollectFailsFirst(init, i, f);
    } else {
      CollectSucceeds(init, f);
    }
  }

  /** A successful loop yields the pieces of the contributing elements, one per
      element and in list order. */
  lemma {:induction false} CollectPieces<A, B, E>(xs: seq<A>, f: A -> Result<Option<B>, E>)
    requires Collect(xs, f).Success?
    ensures |Collect(xs, f).value| == |Positions(xs, f)|
    ensures forall k :: 0 <= k < |Positions(xs, f)| ==>
              Collect(xs, f).value[k] == f(xs[Positions(xs, f)[k]]).value.value
    decreases |xs|
  {
    if xs != [] {
      var init := xs[..|xs| - 1];
      CollectPieces(init, f);
      assert forall j :: 0 <= j < |init| ==> init[j] == xs[j];
    }
  }

  /** When every element contributes, the result has one piece per element. */
  lemma CollectTotal<A, B, E>(xs: seq<A>, f: A -> Result<Option<B>, E>)
    requires forall i :: 0 <= i < |xs| ==> f(xs[i]).Success? && f(xs[i]).value.Some?
    ensures Collect(xs, f).Success?
    ensures |Collect(xs, f).value| == |xs|
    ensures forall i :: 0 <= i < |xs| ==> Collect(xs, f).value[i] == f(xs[i]).value.value
  {
    CollectSucceeds(xs, f);
    CollectPieces(xs, f);
    PositionsAll(xs, f);
  }

  lemma {:induction false} PositionsAll<A, B, E>(xs: seq<A>, f: A -> Result<Option<B>, E>)
    requires forall i :: 0 <= i < |xs| ==> Emits(f(xs[i]))
    ensures |Positions(xs, f)| == |xs|
    ensures forall i :: 0 <= i < |xs| ==> Positions(xs, f)[i] == i
    decreases |xs|
  {
    if xs != [] {
      var init := xs[..|xs| - 1];
      assert forall j :: 0 <= j < |init| ==> init[j] == xs[j];
      PositionsAll(init, f);
    }
  }

  /** A successful loop yields nothing exactly when no element contributes. */
  lemma CollectEmpty<A, B, E>(xs: seq<A>, f: A -> Result<Option<B>, E>)
    requires Collect(xs, f).Success?
    ensures Collect(xs, f).value == [] <==> forall i :: 0 <= i < |xs| ==> !Emits(f(xs[i]))
  {
    CollectPieces(xs, f);
    if Collect(xs, f).value == [] {
      var ps := Positions(xs, f);
      assert |ps| == 0;
    } else {
      var ps := Positions(xs, f);
      assert ps[0] < |xs| && Emits(f(xs[ps[0]]));
    }
  }

  /** A loop that got through the first `i` elements and throws at element
      `i` fails with that element's error. */
  lemma CollectFailsAt<A, B, E>(xs: seq<A>, i: nat, f: A -> Result<Option<B>, E>)
    requires i < |xs| && Collect(xs[..i], f).Success? && f(xs[i]).Failure?
    ensures Collect(xs, f) == Failure(f(xs[i]).error)
  {
    CollectSucceeds(xs[..i], f);
    CollectFailsFirst(xs, i, f);
  }

  /** A failing loop fails with the error of one of its elements. */
  lemma {:induction false} CollectError<A, B, E>(xs: seq<A>, f: A -> Result<Option<B>, E>)
    ensures Collect(xs, f).Failure? ==>
              exists i :: 0 <= i < |xs| && f(xs[i]).Failure? && Collect(xs, f).error == f(xs[i]).error
    decreases |xs|
  {
    if xs == [] {
      return;
    }
    var init := xs[..|xs| - 1];
    assert forall j :: 0 <= j < |init| ==> init[j] == xs[j];
    if Collect(init, f).Failure? {
      CollectError(init, f);
    }
  }
}
