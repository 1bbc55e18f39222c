/** Success/failure values standing in for JavaScript exceptions and optional fields. */
module Results {

  datatype Option<+T> = None | Some(value: T)

  /** `Err` is a thrown exception: it propagates and no partial result survives. */
  datatype Result<+T, +E> = Ok(value: T) | Err(error: E)

  /**
   * `r` is what `xs.map(f)` gives when `f` may throw: on success the results
   * of `f`, element by element and in order; on failure the exception of the
   * first element that throws.
   */
  ghost predicate MapsTo<T, U, E>(xs: seq<T>, f: T -> Result<U, E>, r: Result<seq<U>, E>)
  {
    && (r.Ok? ==> |r.value| == |xs| && forall i :: 0 <= i < |xs| ==> f(xs[i]) == Ok(r.value[i]))
    && (r.Err? ==> exists i :: 0 <= i < |xs| && f(xs[i]) == Err(r.error) && forall j :: 0 <= j < i ==> f(xs[j]).Ok?)
  }

  lemma MapsToOk<T, U, E>(xs: seq<T>, f: T -> Result<U, E>, r: Result<seq<U>, E>)
    requires MapsTo(xs, f, r)
    ensures r.Ok? <==> forall i :: 0 <= i < |xs| ==> f(xs[i]).Ok?
  {
  }

  /** `xs.map(f)` for an `f` that may throw. */
  function MapAll<T, U, E>(xs: seq<T>, f: T -> Result<U, E>): Result<seq<U>, E>
  {
    if xs == [] then Ok([])
    else
      match f(xs[0])
      case Err(e) => Err(e)
      case Ok(y) =>
        match MapAll(xs[1..], f)
        case Err(e) => Err(e)
        case Ok(rest) => Ok([y] + rest)
  }

  lemma {:induction false} MapAllMaps<T, U, E>(xs: seq<T>, f: T -> Result<U, E>)
    ensures MapsTo(xs, f, MapAll(xs, f))
  {
    if xs != [] {
      MapAllMaps(xs[1..], f);
    }
  }

  /** Mapping a function that leaves every element as it is returns the list itself. */
  lemma FixedPointsMap<T, E>(xs: seq<T>, f: T -> Result<T, E>, r: Result<seq<T>, E>)
    requires MapsTo(xs, f, r)
    requires forall i :: 0 <= i < |xs| ==> f(xs[i]) == Ok(xs[i])
    ensures r == Ok(xs)
  {
    MapsToOk(xs, f, r);
    assert forall i :: 0 <= i < |xs| ==> r.value[i] == xs[i];
    assert r.value == xs;
  }
}

