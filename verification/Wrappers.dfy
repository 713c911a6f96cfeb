/** Result types shared by the whole model. */
module Wrappers {

  datatype Option<+T> = None | Some(value: T)

  function Max(a: int, b: int): int {
    if a < b then b else a
  }

  function Min(a: int, b: int): int {
    if a < b then a else b
  }

  // The last of the items, as many as fit.
  function Newest<T>(cap: nat, items: seq<T>): seq<T> {
    if |items| <= cap then items else items[|items| - cap..]
  }
}
