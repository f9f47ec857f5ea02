/** Optional values, used for lookups that can miss and for the source's `Optional[...]` fields. */
module Wrappers {
  datatype Option<+T> = None | Some(value: T)

  function Min(a: int, b: int): int { if a <= b then a else b }
}
