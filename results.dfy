/** Applying a step that can fail to every element of a list, the way a
    Python loop does when the first exception ends it. */
module Results {
  import opened Wrappers

  /** The results of `f` on each element in order, or the error of the
      first element on which `f` fails. */
  function MapResult<A, B, E>(xs: seq<A>, f: A -> Result<B, E>): Result<seq<B>, E>
  {
    if xs == [] then Ok([])
    else match MapResult(xs[..|xs| - 1], f)
      case Err(e) => Err(e)
      case Ok(ys) =>
        match f(xs[|xs| - 1])
        case Err(e) => Err(e)
        case Ok(y) => Ok(ys + [y])
  }

  /** The fold succeeds exactly when every step does, and then yields each
      step's value at that step's position. */
  lemma {:induction false} MapResultAll<A, B, E>(xs: seq<A>, f: A -> Result<B, E>)
    ensures MapResult(xs, f).Ok? <==> forall i :: 0 <= i < |xs| ==> f(xs[i]).Ok?
    ensures MapResult(xs, f).Ok? ==>
              |MapResult(xs, f).value| == |xs|
              && forall i :: 0 <= i < |xs| ==> MapResult(xs, f).value[i] == f(xs[i]).value
  {
    if xs != [] {
      var init := xs[..|xs| - 1];
      MapResultAll(init, f);
      assert forall i :: 0 <= i < |init| ==> init[i] == xs[i];
    }
  }

  /** When every step before position `i` succeeds and step `i` fails, the
      fold fails with step `i`'s error. */
  lemma {:induction false} MapResultFirstError<A, B, E>(xs: seq<A>, f: A -> Result<B, E>, i: nat)
    requires i < |xs|
    requires forall j :: 0 <= j < i ==> f(xs[j]).Ok?
    requires f(xs[i]).Err?
    ensures MapResult(xs, f) == Err(f(xs[i]).error)
  {
    var init := xs[..|xs| - 1];
    if i == |xs| - 1 {
      MapResultAll(init, f);
      assert forall j :: 0 <= j < |init| ==> init[j] == xs[j];
    } else {
      assert init[i] == xs[i];
      assert forall j :: 0 <= j < i ==> init[j] == xs[j];
      MapResultFirstError(init, f, i);
    }
  }

  /** One more element: the fold over the first `n + 1` elements extends
      the fold over the first `n`. */
  lemma MapResultStep<A, B, E>(xs: seq<A>, f: A -> Result<B, E>, n: nat)
    requires n < |xs|
    ensures MapResult(xs[..n + 1], f) ==
            match MapResult(xs[..n], f)
            case Err(e) => Err(e)
            case Ok(ys) =>
              match f(xs[n])
              case Err(e) => Err(e)
              case Ok(y) => Ok(ys + [y])
  {
    assert xs[..n + 1][..n] == xs[..n];
  }

  /** Once a prefix has failed, the whole fold fails the same way. */
  lemma {:induction false} MapResultSticks<A, B, E>(xs: seq<A>, f: A -> Result<B, E>, n: nat)
    requires n <= |xs| && MapResult(xs[..n], f).Err?
    ensures MapResult(xs, f) == MapResult(xs[..n], f)
    decreases |xs| - n
  {
    if n < |xs| {
      MapResultStep(xs, f, n);
      MapResultSticks(xs, f, n + 1);
    } else {
      assert xs[..n] == xs;
    }
  }
}
