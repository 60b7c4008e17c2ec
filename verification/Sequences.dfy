/** One sequence operation that two queues share. */
module Sequences {
  /** `s` without the element at `k`, if there is one. */
  function Without<T>(s: seq<T>, k: nat): seq<T> {
    if k < |s| then s[..k] + s[k + 1..] else s
  }
}
