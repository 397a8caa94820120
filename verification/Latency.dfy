/** Latencies: a number of milliseconds, or infinity for an overloaded node or an unmeasured link. */
module Latency {

  datatype Time = Fin(ms: real) | Inf

  function Plus(a: Time, b: Time): Time {
    if a.Fin? && b.Fin? then Fin(a.ms + b.ms) else Inf
  }

  predicate Less(a: Time, b: Time) {
    a.Fin? && (b.Fin? ==> a.ms < b.ms)
  }

  predicate AtMost(a: Time, b: Time) {
    !Less(b, a)
  }

  lemma PlusMonotone(a: Time, b: Time, c: Time)
    requires AtMost(a, b)
    ensures AtMost(Plus(a, c), Plus(b, c))
  {
  }

  lemma AtMostTransitive(a: Time, b: Time, c: Time)
    requires AtMost(a, b) && AtMost(b, c)
    ensures AtMost(a, c)
  {
  }
}
