/** Python's filtering list comprehensions, `[g(x) for x in xs if ...]`, as one sequence operation. */
module Lists {
  import opened Text

  /** The values `f` gives for the elements of `xs`, in order, skipping the elements it rejects. */
  function Collect<T, U>(xs: seq<T>, f: T -> Option<U>): seq<U>
    decreases |xs|
  {
    if xs == [] then []
    else Collect(xs[..|xs| - 1], f) + Taken(f(xs[|xs| - 1]))
  }

  /** The value of one element, if it is kept. */
  function Taken<U>(o: Option<U>): seq<U> {
    match o
    case Some(y) => [y]
    case None => []
  }

  /** The loop `for x in xs: y = f(x); if y is kept: ys.append(y)`. */
  method CollectAll<T, U>(xs: seq<T>, f: T -> Option<U>) returns (ys: seq<U>)
    ensures ys == Collect(xs, f)
  {
    ys := [];
    var i := 0;
    while i < |xs|
      invariant 0 <= i <= |xs| && ys == Collect(xs[..i], f)
    {
      CollectStep(xs, f, i);
      var y := f(xs[i]);
      if y.Some? {
        ys := ys + [y.value];
      }
      i := i + 1;
    }
    assert xs[..i] == xs;
  }

  /** Collecting one more element appends its value, if it has one. */
  lemma CollectStep<T, U>(xs: seq<T>, f: T -> Option<U>, i: nat)
    requires i < |xs|
    ensures Collect(xs[..i + 1], f) == Collect(xs[..i], f) + Taken(f(xs[i]))
  {
    assert xs[..i + 1][..i] == xs[..i];
  }

  /** A value is collected exactly when some element gives it. */
  lemma {:induction false} CollectIff<T, U>(xs: seq<T>, f: T -> Option<U>, y: U)
    ensures y in Collect(xs, f) <==> exists i :: 0 <= i < |xs| && f(xs[i]) == Some(y)
    decreases |xs|
  {
    if xs != [] {
      var init := xs[..|xs| - 1];
      CollectIff(init, f, y);
      assert forall i :: 0 <= i < |init| ==> init[i] == xs[i];
      if y in Collect(xs, f) && y !in Collect(init, f) {
        assert f(xs[|xs| - 1]) == Some(y);
      }
    }
  }

  /** Collecting never gives more values than there are elements. */
  lemma {:induction false} CollectLength<T, U>(xs: seq<T>, f: T -> Option<U>)
    ensures |Collect(xs, f)| <= |xs|
    decreases |xs|
  {
    if xs != [] {
      CollectLength(xs[..|xs| - 1], f);
    }
  }
}
