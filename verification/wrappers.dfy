/** Failure-carrying datatypes used throughout the model.

- `Option` stands for Python's `None` and for a missing (NaN) pandas cell.
- `Outcome` is the result of a check that either passes or raises.
- `Result` is a computation that either yields a value or raises.
 */
module Wrappers {

  datatype Option<+T> = None | Some(value: T)

  datatype Outcome<+E> = Pass | Fail(error: E)

  datatype Result<+T, +E> = Ok(value: T) | Err(error: E)

  /** The value of an `Option` as a list of at most one element. */
  function Emitted<T>(o: Option<T>): (xs: seq<T>)
    ensures |xs| <= 1 && (|xs| == 1 <==> o.Some?)
    ensures o.Some? ==> xs[0] == o.value
  {
    match o
    case None => []
    case Some(x) => [x]
  }

  /** The values of the present options, in order. */
  function Somes<T>(os: seq<Option<T>>): (xs: seq<T>)
    ensures |xs| <= |os|
    ensures forall k :: 0 <= k < |xs| ==> Some(xs[k]) in os
  {
    if |os| == 0 then [] else Emitted(os[0]) + Somes(os[1..])
  }

  lemma SomesPair<T>(a: Option<T>, b: Option<T>)
    ensures Somes([a, b]) == Emitted(a) + Emitted(b)
  {
    assert [a, b][1..] == [b];
    assert [b][1..] == [];
  }

  lemma SomesTriple<T>(a: Option<T>, b: Option<T>, c: Option<T>)
    ensures Somes([a, b, c]) == Emitted(a) + Emitted(b) + Emitted(c)
  {
    assert [a, b, c][1..] == [b, c];
    SomesPair(b, c);
  }
}
