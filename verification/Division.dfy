/** Division and multiplication by positive numbers that are not literals. */
module Division {

  lemma MulMono(a: nat, b: nat, c: nat)
    requires a <= b
    ensures a * c <= b * c
  {
  }

  lemma ModShift(x: nat, j: nat, m: nat)
    requires 0 < m && x % m + j < m
    ensures (x + j) % m == x % m + j
  {
    var q := x / m;
    assert x + j == q * m + (x % m + j);
    DivMod(q, x % m + j, m);
  }

  lemma DivMod(q: nat, r: nat, m: nat)
    requires r < m
    ensures (q * m + r) / m == q && (q * m + r) % m == r
  {
    var n := q * m + r;
    assert n == (n / m) * m + n % m;
    if n / m < q {
      MulMono(n / m + 1, q, m);
    } else if n / m > q {
      MulMono(q + 1, n / m, m);
    }
  }

  /** A number has one quotient and remainder. */
  lemma DivModUnique(n: nat, q: nat, r: nat, m: nat)
    requires n == q * m + r && r < m
    ensures n / m == q && n % m == r
  {
    DivMod(q, r, m);
  }

  lemma MulCancel(a: nat, b: nat, c: nat)
    requires a * c < (b + 1) * c
    ensures a <= b
  {
    if b + 1 <= a {
      MulMono(b + 1, a, c);
    }
  }

  /** Numbers less than `n` apart leave different remainders. */
  lemma RemaindersDiffer(a: nat, b: nat, n: nat)
    requires a < b < a + n
    ensures a % n != b % n
  {
    if a % n == b % n {
      SameRemainder(a, b, a / n, b / n, a % n, n);
    }
  }

  lemma SameRemainder(a: nat, b: nat, p: nat, q: nat, r: nat, n: nat)
    requires a == p * n + r && b == q * n + r && a < b
    ensures a + n <= b
  {
    if q <= p {
      MulMono(q, p, n);
    } else {
      MulMono(p + 1, q, n);
      assert (p + 1) * n == p * n + n;
    }
  }
}
