/** Two facts about products that the solver does not find. */
module Multiples {
  lemma Multiple(d: int, m: int)
    requires m >= 0
    ensures (d >= 1 ==> d * m >= m) && (d <= -1 ==> d * m <= -m)
  {
    if d <= -1 { assert (-d) * m >= m; }
  }

  lemma QuotientIs(q: nat, r: nat, n: nat, m: nat)
    requires r < m && q * m + r == n
    ensures q == n / m && r == n % m
  {
    var p, t := n / m, n % m;
    assert (q - p) * m == t - r;
    Multiple(q - p, m);
  }
}
