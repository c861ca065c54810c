/** Facts about remainders with a variable modulus. */
module ModArith {

  lemma AtLeast(a: nat, b: nat)
    requires a > 0
    ensures a * b >= b
  {
  }

  /** Quotient and remainder are unique. */
  lemma DivModUnique(q: int, m: nat, r: nat)
    requires r < m
    ensures (q * m + r) % m == r && (q * m + r) / m == q
  {
    var x := q * m + r;
    var p, s := x / m, x % m;
    assert x == p * m + s;
    assert (p - q) * m == r - s;
    if p > q {
      AtLeast(p - q, m);
    } else if p < q {
      AtLeast(q - p, m);
    }
  }

  lemma AddMultiple(x: nat, m: nat, k: nat)
    requires m > 0
    ensures (x + m * k) % m == x % m
  {
    DivModUnique(x / m + k, m, x % m);
    assert (x / m + k) * m == x / m * m + m * k;
  }

  /** Numbers less than `m` apart have different remainders. */
  lemma RemaindersApart(x: nat, y: nat, m: nat)
    requires x < y < x + m
    ensures x % m != y % m
  {
    if x % m == y % m {
      var a, b := x / m, y / m;
      assert (b - a) * m == y - x;
      if b > a {
        AtLeast(b - a, m);
      } else {
        AtLeast(a - b + 1, m);
      }
    }
  }
}
