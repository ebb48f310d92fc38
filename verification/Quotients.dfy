/** Facts about products that several modules need. */
module Quotients {

  lemma Growing(a: int, b: int, u: nat)
    ensures a <= b ==> a * u <= b * u
  {
  }

  /** The quotient is the only multiple that leaves less than the divisor. */
  lemma SameQuotient(n: int, q: int, u: nat, room: int)
    requires n * u <= room < n * u + u && q * u <= room < q * u + u
    ensures n == q
  {
    assert (n + 1) * u == n * u + u && (q + 1) * u == q * u + u;
    Growing(n + 1, q, u);
    Growing(q + 1, n, u);
  }
}
