/** Datatypes shared by every component of the model. */
module Prelude {

  datatype Option<+T> = None | Some(value: T)

  type byte = x: int | 0 <= x < 256

  function Min(a: int, b: int): int {
    if a < b then a else b
  }

  lemma Inhabited(keys: set<int>)
    ensures keys == {} || exists id :: id in keys
  {
    if forall id :: id !in keys { assert keys == {}; }
  }

  /** The next key, in whatever order the map yields them. */
  method Pick(keys: set<int>) returns (id: int)
    requires keys != {}
    ensures id in keys
  {
    Inhabited(keys);
    id :| id in keys;
  }
}
