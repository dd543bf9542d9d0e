/** internal/config/utils/coalesce.go: the first of two optional values that is set.
    Go compares pointers; the model compares the values they point to. */
module Utils {
  import opened Wrappers

  /** `primary` when it is set, `fallback` otherwise. */
  function Coalesce<T>(primary: Option<T>, fallback: Option<T>): (r: Option<T>)
    ensures r == primary || r == fallback
    ensures r.Some? <==> primary.Some? || fallback.Some?
    ensures primary.Some? ==> r == primary
  {
    if primary.Some? then primary else fallback
  }

  /** With nothing set on either side nothing is set in the result, and with
      `primary` unset the result is exactly the fallback. */
  lemma CoalesceFallback<T>(fallback: Option<T>)
    ensures Coalesce(None, fallback) == fallback
    ensures Coalesce<T>(None, None) == None
  {
  }

  /** Coalescing a value with itself gives it back, and coalescing the result
      again with the same fallback changes nothing. */
  lemma CoalesceIdempotent<T>(a: Option<T>, b: Option<T>)
    ensures Coalesce(a, a) == a
    ensures Coalesce(Coalesce(a, b), b) == Coalesce(a, b)
  {
  }
}
