/** Optional values and results that carry an error, for the source's `None` and exceptions. */
module Wrappers {
  datatype Option<+T> = None | Some(value: T)

  datatype Result<+T, +E> = Ok(value: T) | Err(error: E)

  /** Items before a result's list; an error stays. */
  function Prepend<T, E>(first: seq<T>, rest: Result<seq<T>, E>): (r: Result<seq<T>, E>) {
    if rest.Err? then rest else Ok(first + rest.value)
  }

  lemma PrependTwice<T, E>(a: seq<T>, b: seq<T>, rest: Result<seq<T>, E>)
    ensures Prepend(a, Prepend(b, rest)) == Prepend(a + b, rest)
    ensures Prepend([], rest) == rest
  {
    if rest.Ok? {
      assert a + (b + rest.value) == (a + b) + rest.value;
      assert [] + rest.value == rest.value;
    }
  }
}
