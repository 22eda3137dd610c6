/** Facts about products, quotients and sizes that the solver needs spelled out. */
module Arithmetic {
  lemma Product(a: nat, b: nat, c: nat)
    requires a <= b
    ensures a * c <= b * c
  {
  }

  lemma ProductGap(a: nat, b: nat, c: nat)
    requires a < b
    ensures a * c + c <= b * c
  {
    Product(a + 1, b, c);
  }

  lemma Cancel(a: nat, b: nat, c: nat)
    requires a * c < b * c
    ensures a < b
  {
    if b <= a {
      Product(b, a, c);
    }
  }

  lemma CancelIff(a: nat, b: nat, c: nat)
    requires c >= 1
    ensures a * c < b * c <==> a < b
  {
    if a < b {
      ProductGap(a, b, c);
    } else {
      Product(b, a, c);
    }
  }

  /** Two digits of a number are determined by it. */
  lemma DigitsUnique(p: nat, a: nat, x: nat, b: nat, y: nat)
    requires x < p && y < p && a * p + x == b * p + y
    ensures a == b && x == y
  {
    if a < b {
      ProductGap(a, b, p);
    } else if b < a {
      ProductGap(b, a, p);
    }
  }

  lemma Divided(a: nat, b: nat)
    requires b >= 1
    ensures a == a / b * b + a % b && 0 <= a % b < b
  {
  }

  lemma SubsetSize<T>(a: set<T>, b: set<T>)
    requires a <= b
    ensures |a| <= |b|
  {
    assert b == a + (b - a);
  }

  /** Subtraction of 32-bit numbers, which wraps. */
  function Minus32(a: nat, b: nat): nat {
    if b <= a then a - b else (a + 0x1_0000_0000 - b % 0x1_0000_0000) % 0x1_0000_0000
  }
}
