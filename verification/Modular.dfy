/** Arithmetic of a counter that goes round n places. */
module Modular {
  lemma SmallMod(x: nat, n: nat)
    requires x < n
    ensures x % n == x
  {
  }

  /** Turns of the cursor, standing at count c, until it next reaches hart h. */
  function Distance(h: nat, c: nat, n: nat): (d: nat)
    requires h < n
    ensures d < n
  {
    (h - c) % n
  }

  lemma DistanceStep(h: nat, c: nat, n: nat)
    requires h < n
    ensures Distance(h, c, n) == 0 <==> c % n == h
    ensures Distance(h, c + 1, n) == if c % n == h then n - 1 else Distance(h, c, n) - 1
  {
    var q, r := c / n, c % n;
    assert c == q * n + r;
    if r <= h {
      ModUnique(h - c, -q, h - r, n);
      if r == h { ModUnique(h - (c + 1), -q - 1, n - 1, n); } else { ModUnique(h - (c + 1), -q, h - r - 1, n); }
    } else {
      ModUnique(h - c, -q - 1, n + h - r, n);
      ModUnique(h - (c + 1), -q - 1, n + h - r - 1, n);
    }
  }

  lemma ModUnique(x: int, k: int, r: nat, n: nat)
    requires r < n && x == k * n + r
    ensures x % n == r
  {
    var d := x / n - k;
    assert x == (x / n) * n + x % n;
    assert d * n == r - x % n;
    assert d >= 1 ==> (d - 1) * n >= 0;
    assert d <= -1 ==> (-d - 1) * n >= 0;
  }

  lemma NearbyDiffer(c: nat, j: nat, k: nat, n: nat)
    requires j < k < n
    ensures (c + j) % n != (c + k) % n
  {
    var q, r := (c + j) / n, (c + j) % n;
    assert c + j == q * n + r;
    var x := r + (k - j);
    if x < n {
      ModUnique(c + k, q, x, n);
    } else {
      assert c + k == (q + 1) * n + (x - n);
      ModUnique(c + k, q + 1, x - n, n);
    }
  }

  lemma DistanceReaches(h: nat, c: nat, n: nat)
    requires h < n
    ensures (c + Distance(h, c, n)) % n == h
  {
    var q, d := (h - c) / n, Distance(h, c, n);
    assert h - c == q * n + d;
    ModUnique(c + d, -q, h, n);
  }
}
