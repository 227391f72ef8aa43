/** The usual optional and fallible values. */
module Wrappers {

  datatype Option<+T> = None | Some(value: T)

  datatype Result<+T, +E> = Ok(value: T) | Err(error: E)
}

/** Numbers for processes that are not running yet. */
module FreshNumbers {
  lemma {:induction false} Unused(keys: set<nat>) returns (k: nat)
    ensures forall x :: x in keys ==> x < k
    decreases |keys|
  {
    if keys == {} {
      return 0;
    }
    var x :| x in keys;
    var rest := Unused(keys - {x});
    k := if rest > x then rest else x + 1;
    assert forall y :: y in keys ==> y == x || y in keys - {x};
  }
}
