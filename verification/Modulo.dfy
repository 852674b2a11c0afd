/** The few facts about remainders that ring buffers and round-robin tours need. */
module Modulo {

  lemma Decompose(x: nat, n: nat) returns (q: nat, r: nat)
    requires n > 0
    ensures q == x / n && r == x % n && r < n && x == q * n + r
  {
    q, r := x / n, x % n;
  }

  lemma SmallMultiple(d: int, n: int)
    requires 0 < n && -n < d * n < n
    ensures d == 0
  {
  }

  lemma Unique(x: nat, n: nat, q: nat, r: nat)
    requires r < n && x == q * n + r
    ensures x % n == r && x / n == q
  {
    var q', r' := Decompose(x, n);
    assert (q' - q) * n == q' * n - q * n;
    SmallMultiple(q' - q, n);
  }

  lemma Small(x: nat, n: nat)
    requires x < n
    ensures x % n == x
  {
    Unique(x, n, 0, x);
  }

  lemma Wrap(x: nat, n: nat)
    requires n > 0
    ensures (x + n) % n == x % n
  {
    var q, r := Decompose(x, n);
    assert (q + 1) * n == q * n + n;
    Unique(x + n, n, q + 1, r);
  }

  lemma Add(a: nat, b: nat, n: nat)
    requires n > 0
    ensures (a % n + b) % n == (a + b) % n
  {
    var q, r := Decompose(a, n);
    var q', r' := Decompose(r + b, n);
    assert (q + q') * n == q * n + q' * n;
    Unique(a + b, n, q + q', r');
  }

  // Two numbers less than a period apart fall on different places of the ring.
  lemma Distinct(a: nat, b: nat, n: nat)
    requires a < b < a + n
    ensures a % n != b % n
  {
    var q, r := Decompose(a, n);
    var q', r' := Decompose(b, n);
    if r == r' {
      assert (q' - q) * n == q' * n - q * n;
      SmallMultiple(q' - q, n);
    }
  }
}
