/** Optional values: a DOM lookup that may find nothing, a stored value that may be absent. */
module Wrappers {
  datatype Option<+T> = None | Some(value: T)

  /** JavaScript's `s || d` on a string that may be absent: a missing or empty string gives d. */
  function OrDefault(o: Option<string>, d: string): (r: string)
    ensures o.Some? && o.value != "" ==> r == o.value
    ensures o.None? || o.value == "" ==> r == d
  {
    if o.Some? && o.value != "" then o.value else d
  }
}
