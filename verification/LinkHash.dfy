/** How the hash function of the disappearing-link tables spreads the addresses of links. */
module LinkHash {
  import opened Division
  import opened LinkTable

  lemma ModDouble(x: nat, q: nat)
    requires q > 0
    ensures x % (2 * q) == 2 * (x / 2 % q) + x % 2
  {
    var h := x / 2;
    assert h == (h / q) * q + h % q;
    assert x == (h / q) * (2 * q) + (2 * (h % q) + x % 2);
    DivModUnique(x, h / q, 2 * (h % q) + x % 2, 2 * q);
  }

  lemma XorBits(a: nat, c: nat)
    ensures Xor(a, c) / 2 == Xor(a / 2, c / 2) && Xor(a, c) % 2 == if a % 2 == c % 2 then 0 else 1
  {
  }

  /** Numbers agree in their low bits exactly if they agree in the lowest one and their halves in the others. */
  lemma SameLow(a: nat, b: nat, q: nat)
    requires q > 0
    ensures a % (2 * q) == b % (2 * q) <==> a % 2 == b % 2 && a / 2 % q == b / 2 % q
  {
    ModDouble(a, q);
    ModDouble(b, q);
  }

  /** The low bits of an exclusive or tell the low bits of one operand, given the other. */
  lemma {:induction false} XorLow(a: nat, b: nat, c: nat, log: nat)
    requires Xor(a, c) % Pow2(log) == Xor(b, c) % Pow2(log)
    ensures a % Pow2(log) == b % Pow2(log)
    decreases log
  {
    if log > 0 {
      XorBits(a, c);
      XorBits(b, c);
      SameLow(Xor(a, c), Xor(b, c), Pow2(log - 1));
      SameLow(a, b, Pow2(log - 1));
      XorLow(a / 2, b / 2, c / 2, log - 1);
    }
  }

  /** In a window of as many words as there are buckets, aligned with its size, each word has a bucket of its own. */
  lemma SlotSpreads(j: nat, k: nat, log: nat)
    requires j / 8 / Pow2(log) == k / 8 / Pow2(log) && j / 8 != k / 8
    ensures Slot(j, log) != Slot(k, log)
  {
    var a, b, n := j / 8, k / 8, Pow2(log);
    assert a == (a / n) * n + a % n && b == (b / n) * n + b % n;
    if Slot(j, log) == Slot(k, log) {
      XorLow(a, b, a / n, log);
    }
  }
}
