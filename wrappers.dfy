/** Option for values a JavaScript lookup may leave `undefined` (an array read
    past its end, a folder that does not exist, an image slot still `null`). */
module Wrappers {
  datatype Option<+T> = None | Some(value: T)

  /** `s[i]` as JavaScript reads it: `undefined` outside `0 <= i < |s|`. */
  function At<T>(s: seq<T>, i: int): (r: Option<T>)
    ensures r.Some? <==> 0 <= i < |s|
    ensures r.Some? ==> r.value == s[i]
  {
    if 0 <= i < |s| then Some(s[i]) else None
  }
}
