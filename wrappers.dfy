/** Optional values: the game's `food` is `null` until the first reset, and
    an input event may or may not name a heading. */
module Wrappers {
  datatype Option<+T> = None | Some(value: T)
}
