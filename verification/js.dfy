/** The few JavaScript runtime rules the dashboard's logic leans on, over
    real numbers (finite values only). */
module Js {
  import opened Wrappers

  /** `Math.round`: the nearest integer, halves rounded towards positive
      infinity. */
  function Round(x: real): (r: int)
    ensures r as real - 0.5 <= x < r as real + 0.5
  {
    (x + 0.5).Floor
  }

  /** The half-open window of `Round` pins its result down uniquely. */
  lemma RoundUnique(x: real, n: int)
    requires n as real - 0.5 <= x < n as real + 0.5
    ensures Round(x) == n
  {
  }

  /** Truthiness of a possibly absent numeric field: present and non-zero. */
  predicate Truthy(n: Option<real>) {
    n.Some? && n.value != 0.0
  }
}
