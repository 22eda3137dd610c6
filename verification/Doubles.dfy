/**
 Double-precision arithmetic on non-negative numbers: 53 significant bits, round to nearest, ties to even.
 Exponents are not bounded here; none of the numbers involved comes near the limits.
 */
module Doubles {
  import opened Arithmetic

  const HIDDEN: nat := 0x10_0000_0000_0000
  const MANTISSA: nat := 2 * HIDDEN

  /** The integer nearest to `a / b`; ties go to the even one. */
  function RoundDiv(a: nat, b: nat): nat
    requires b >= 1
  {
    Pick(a / b, a % b, b)
  }

  function Pick(q: nat, r: nat, b: nat): nat {
    if 2 * r < b || (2 * r == b && q % 2 == 0) then q else q + 1
  }

  /** The error is at most one half. */
  lemma RoundDivNear(a: nat, b: nat)
    requires b >= 1
    ensures 2 * (RoundDiv(a, b) * b) <= 2 * a + b && 2 * a <= 2 * (RoundDiv(a, b) * b) + b
  {
    Divided(a, b);
    var q := a / b;
    assert (q + 1) * b == q * b + b;
  }

  /** Rounding reaches an even integer from half a unit below on. */
  lemma RoundDivLess(a: nat, b: nat, n: nat)
    requires b >= 1 && n >= 1 && n % 2 == 0
    ensures RoundDiv(a, b) < n <==> 2 * a + b < 2 * (n * b)
  {
    Divided(a, b);
    var q, r := a / b, a % b;
    assert (q + 1) * b == q * b + b;
    if q + 1 < n {
      Product(q + 2, n, b);
      assert (q + 2) * b == q * b + 2 * b;
    } else if q + 1 == n {
      assert q % 2 == 1;
    } else {
      Product(n, q, b);
    }
  }

  lemma RoundDivMonotone(a: nat, a': nat, b: nat)
    requires b >= 1 && a <= a'
    ensures RoundDiv(a, b) <= RoundDiv(a', b)
  {
    Divided(a, b);
    Divided(a', b);
    var q, q' := a / b, a' / b;
    if q' < q {
      ProductGap(q', q, b);
    }
  }

  lemma RoundDivWhole(n: nat, b: nat)
    requires b >= 1
    ensures RoundDiv(n * b, b) == n
  {
    Divided(n * b, b);
    var q := n * b / b;
    DigitsUnique(b, q, n * b % b, n, 0);
  }

  /** A fraction. */
  datatype Ratio = Ratio(num: nat, den: nat)

  /** The double nearest to `a / b`: scale by two until the quotient has 53 bits, then round it. */
  function Fl(a: nat, b: nat): (r: Ratio)
    requires b >= 1
    ensures r.den >= 1
    decreases if a >= MANTISSA * b then a - HIDDEN * b else if a < HIDDEN * b then HIDDEN * b - a else 0
  {
    if a == 0 then Ratio(0, 1)
    else if a >= MANTISSA * b then var r := Fl(a, 2 * b); Ratio(2 * r.num, r.den)
    else if a < HIDDEN * b then var r := Fl(2 * a, b); Ratio(r.num, 2 * r.den)
    else Ratio(RoundDiv(a, b), 1)
  }

  /** Which way `Fl` goes. */
  function Zone(a: nat, b: nat): nat {
    if a == 0 then 0 else if a >= MANTISSA * b then 1 else if a < HIDDEN * b then 2 else 3
  }

  lemma FlSteps(a: nat, b: nat)
    requires b >= 1
    ensures Zone(a, b) == 0 ==> Fl(a, b) == Ratio(0, 1)
    ensures Zone(a, b) == 1 ==> Fl(a, b) == Ratio(2 * Fl(a, 2 * b).num, Fl(a, 2 * b).den)
    ensures Zone(a, b) == 2 ==> Fl(a, b) == Ratio(Fl(2 * a, b).num, 2 * Fl(2 * a, b).den)
    ensures Zone(a, b) == 3 ==> Fl(a, b) == Ratio(RoundDiv(a, b), 1)
    ensures Zone(a, b) <= 3
  {
  }

  ghost predicate AtMost(r: Ratio, r': Ratio) { r.num * r'.den <= r'.num * r.den }
  ghost predicate Below(r: Ratio, n: nat) { r.num < n * r.den }

  /** Scaling numerator and denominator alike changes nothing. */
  lemma RoundDivScale(a: nat, b: nat, c: nat)
    requires b >= 1 && c >= 1
    ensures b * c >= 1 && RoundDiv(a * c, b * c) == RoundDiv(a, b)
  {
    Divided(a, b);
    var q, r := a / b, a % b;
    Product(1, b, c);
    assert a * c == q * (b * c) + r * c;
    assert r * c < b * c by {
      ProductGap(r, b, c);
    }
    Quotient(a * c, b * c, q, r * c);
    PickScale(q, r, b, c);
  }

  lemma Quotient(x: nat, d: nat, q: nat, r: nat)
    requires d >= 1 && x == q * d + r && r < d
    ensures x / d == q && x % d == r
  {
    Divided(x, d);
    var p := x / d;
    if p < q {
      ProductGap(p, q, d);
    } else if q < p {
      ProductGap(q, p, d);
    }
  }

  lemma PickScale(q: nat, r: nat, b: nat, c: nat)
    requires c >= 1
    ensures Pick(q, r * c, b * c) == Pick(q, r, b)
  {
    if 2 * r < b {
      ProductGap(2 * r, b, c);
      assert 2 * (r * c) == (2 * r) * c;
    } else if 2 * r > b {
      ProductGap(b, 2 * r, c);
      assert 2 * (r * c) == (2 * r) * c;
    } else {
      assert 2 * (r * c) == b * c;
    }
  }

  lemma Compare(a: nat, b: nat, c: nat, k: nat)
    requires c >= 1
    ensures a * c >= k * (b * c) <==> a >= k * b
  {
    assert k * (b * c) == (k * b) * c;
    if a >= k * b {
      Product(k * b, a, c);
    } else {
      ProductGap(a, k * b, c);
    }
  }

  lemma ZoneScale(a: nat, b: nat, c: nat)
    requires b >= 1 && c >= 1
    ensures b * c >= 1 && Zone(a * c, b * c) == Zone(a, b)
  {
    Product(1, b, c);
    Compare(a, b, c, MANTISSA);
    Compare(a, b, c, HIDDEN);
    if a > 0 {
      Product(1, a, c);
    }
  }

  lemma Scaled(a: nat, b: nat, c: nat)
    requires b >= 1 && c >= 1
    ensures b * c >= 1 && (2 * b) * c == 2 * (b * c) && (2 * a) * c == 2 * (a * c) && Zone(a * c, b * c) == Zone(a, b)
  {
    ZoneScale(a, b, c);
  }

  /** Two pairs that take the same way and end alike have the same double. */
  lemma FlSame(a: nat, b: nat, x: nat, y: nat)
    requires b >= 1 && y >= 1 && Zone(a, b) == Zone(x, y)
    requires Zone(a, b) == 1 ==> Fl(x, 2 * y) == Fl(a, 2 * b)
    requires Zone(a, b) == 2 ==> Fl(2 * x, y) == Fl(2 * a, b)
    requires Zone(a, b) == 3 ==> RoundDiv(x, y) == RoundDiv(a, b)
    ensures Fl(x, y) == Fl(a, b)
  {
    FlSteps(a, b);
    FlSteps(x, y);
    hide Fl, RoundDiv, Zone;
  }

  lemma {:induction false} FlScale(a: nat, b: nat, c: nat)
    requires b >= 1 && c >= 1
    ensures b * c >= 1 && Fl(a * c, b * c) == Fl(a, b)
    decreases if a >= MANTISSA * b then a - HIDDEN * b else if a < HIDDEN * b then HIDDEN * b - a else 0
  {
    hide Fl, RoundDiv;
    Scaled(a, b, c);
    if Zone(a, b) == 1 {
      FlScale(a, 2 * b, c);
    } else if Zone(a, b) == 2 {
      FlScale(2 * a, b, c);
    } else if Zone(a, b) == 3 {
      RoundDivScale(a, b, c);
    }
    FlSame(a, b, a * c, b * c);
  }

  /** Doubling the number doubles its double. */
  lemma FlDouble(a: nat, b: nat)
    requires b >= 1
    ensures Fl(2 * a, b).num * Fl(a, b).den == 2 * Fl(a, b).num * Fl(2 * a, b).den
  {
    FlSteps(a, b);
    FlSteps(2 * a, b);
    FlTwice(a, b);
    hide Fl, RoundDiv;
    Doubled(Fl(a, b), Fl(2 * a, b));
  }

  lemma FlTwice(a: nat, b: nat)
    requires b >= 1
    ensures Fl(2 * a, 2 * b) == Fl(a, b)
  {
    FlScale(a, b, 2);
    assert a * 2 == 2 * a && b * 2 == 2 * b;
  }

  lemma Doubled(r: Ratio, r': Ratio)
    requires r == Ratio(r'.num, 2 * r'.den) || r' == Ratio(2 * r.num, r.den) || (r.num == 0 && r'.num == 0)
    ensures r'.num * r.den == 2 * r.num * r'.den
  {
  }

  // Where the 53-bit numbers lie

  lemma {:induction false} FlLow(a: nat, b: nat)
    requires b >= 1
    ensures a < MANTISSA * b ==> Fl(a, b).num <= MANTISSA * Fl(a, b).den
    ensures a < HIDDEN * b ==> Fl(a, b).num <= HIDDEN * Fl(a, b).den
    decreases if a >= MANTISSA * b then a - HIDDEN * b else if a < HIDDEN * b then HIDDEN * b - a else 0
  {
    if 0 < a < HIDDEN * b {
      FlLow(2 * a, b);
    } else if HIDDEN * b <= a < MANTISSA * b {
      RoundDivMonotone(a, MANTISSA * b, b);
      RoundDivWhole(MANTISSA, b);
    }
  }

  lemma {:induction false} FlHigh(a: nat, b: nat)
    requires b >= 1
    ensures a >= MANTISSA * b ==> Fl(a, b).num >= MANTISSA * Fl(a, b).den
    ensures a >= HIDDEN * b ==> Fl(a, b).num >= HIDDEN * Fl(a, b).den
    decreases if a >= MANTISSA * b then a - HIDDEN * b else if a < HIDDEN * b then HIDDEN * b - a else 0
  {
    if a >= MANTISSA * b {
      FlHigh(a, 2 * b);
    } else if a >= HIDDEN * b {
      RoundDivMonotone(HIDDEN * b, a, b);
      RoundDivWhole(HIDDEN, b);
    }
  }

  // Order

  lemma Between(r: Ratio, r': Ratio, n: nat)
    requires r.num <= n * r.den && n * r'.den <= r'.num
    ensures AtMost(r, r')
  {
    Product(r.num, n * r.den, r'.den);
    Product(n * r'.den, r'.num, r.den);
    assert (n * r.den) * r'.den == (n * r'.den) * r.den;
  }

  lemma HalfAtMost(r: Ratio, r': Ratio)
    requires AtMost(r, r')
    ensures AtMost(Ratio(2 * r.num, r.den), Ratio(2 * r'.num, r'.den))
    ensures AtMost(Ratio(r.num, 2 * r.den), Ratio(r'.num, 2 * r'.den))
  {
  }

  /** Rounding keeps the order. */
  lemma {:induction false} FlMonotone(a: nat, a': nat, b: nat)
    requires b >= 1 && a <= a'
    ensures AtMost(Fl(a, b), Fl(a', b))
    decreases if a >= MANTISSA * b then a - HIDDEN * b else if a < HIDDEN * b then HIDDEN * b - a else 0
  {
    hide Fl, RoundDiv, AtMost;
    FlSteps(a, b);
    FlSteps(a', b);
    if a == 0 {
      NothingBelow(Fl(a, b), Fl(a', b));
    } else if a >= MANTISSA * b {
      FlMonotone(a, a', 2 * b);
      HalfAtMost(Fl(a, 2 * b), Fl(a', 2 * b));
    } else if a' < HIDDEN * b {
      FlMonotone(2 * a, 2 * a', b);
      HalfAtMost(Fl(2 * a, b), Fl(2 * a', b));
    } else if a < HIDDEN * b {
      FlLow(a, b);
      FlHigh(a', b);
      Between(Fl(a, b), Fl(a', b), HIDDEN);
    } else if a' >= MANTISSA * b {
      FlLow(a, b);
      FlHigh(a', b);
      Between(Fl(a, b), Fl(a', b), MANTISSA);
    } else {
      RoundDivMonotone(a, a', b);
      WholeAtMost(RoundDiv(a, b), RoundDiv(a', b));
    }
  }

  lemma NothingBelow(r: Ratio, r': Ratio)
    requires r.num == 0
    ensures AtMost(r, r')
  {
  }

  lemma WholeAtMost(x: nat, y: nat)
    requires x <= y
    ensures AtMost(Ratio(x, 1), Ratio(y, 1))
  {
  }

  /** The same for fractions with different denominators. */
  lemma FlOrder(a: nat, b: nat, a': nat, b': nat)
    requires b >= 1 && b' >= 1 && a * b' <= a' * b
    ensures AtMost(Fl(a, b), Fl(a', b'))
  {
    hide Fl, AtMost;
    FlScale(a, b, b');
    FlScale(a', b', b);
    assert b * b' == b' * b;
    FlMonotone(a * b', a' * b, b * b');
  }

  /** A smaller fraction has no larger integer part. */
  lemma FloorOrder(r: Ratio, r': Ratio)
    requires AtMost(r, r') && r.den >= 1 && r'.den >= 1
    ensures r.num / r.den <= r'.num / r'.den
  {
    var x, y := r.num / r.den, r'.num / r'.den;
    Divided(r.num, r.den);
    Divided(r'.num, r'.den);
    if y < x {
      FloorClash(r.num, r.den, x, r'.num, r'.den, y);
    }
  }

  lemma Regroup(x: nat, d: nat, d': nat)
    ensures (x * d) * d' == x * (d * d') == (x * d') * d
  {
  }

  lemma FloorClash(n: nat, d: nat, x: nat, n': nat, d': nat, y: nat)
    requires x * d <= n && n' < (y + 1) * d' && n * d' <= n' * d && d >= 1 && d' >= 1
    ensures x <= y
  {
    Product(x * d, n, d');
    ProductGap(n', (y + 1) * d', d);
    Regroup(x, d, d');
    Regroup(y + 1, d, d');
    if y + 1 <= x {
      Product(y + 1, x, d * d');
    }
  }

  /** The integer part stays below `n` exactly when the fraction does. */
  lemma FloorBelow(r: Ratio, n: nat)
    requires r.den >= 1
    ensures r.num / r.den < n <==> Below(r, n)
  {
    Divided(r.num, r.den);
    var x := r.num / r.den;
    if x < n {
      ProductGap(x, n, r.den);
    } else {
      Product(n, x, r.den);
    }
  }

  // Which numbers round to less than an integer

  /** At full precision: from half a unit below an even integer on, numbers round to it. */
  lemma FlLess(a: nat, b: nat, n: nat)
    requires b >= 1 && HIDDEN < n <= MANTISSA && n % 2 == 0
    ensures Below(Fl(a, b), n) <==> 2 * a + b < 2 * (n * b)
  {
    FlSteps(a, b);
    FlLow(a, b);
    FlHigh(a, b);
    RoundDivLess(a, b, n);
    ProductGap(HIDDEN, n, b);
    Product(n, MANTISSA, b);
    hide Fl, RoundDiv;
    var r := Fl(a, b);
    ProductGap(HIDDEN, n, r.den);
    Product(n, MANTISSA, r.den);
  }

  /** The power of two that brings `n` to full precision. */
  function Lift(n: nat): (p: nat)
    requires n >= 1
    ensures p >= 1
    decreases if n > HIDDEN then 0 else HIDDEN + 1 - n
  {
    if n > HIDDEN then 1 else 2 * Lift(2 * n)
  }

  lemma {:induction false} LiftFits(n: nat)
    requires 1 <= n <= MANTISSA
    ensures HIDDEN < Lift(n) * n <= MANTISSA
    decreases if n > HIDDEN then 0 else HIDDEN + 1 - n
  {
    if n <= HIDDEN {
      LiftFits(2 * n);
      assert Lift(n) * n == Lift(2 * n) * (2 * n);
    }
  }

  lemma BelowDouble(r: Ratio, r': Ratio, n: nat)
    requires r'.num * r.den == 2 * r.num * r'.den && r.den >= 1 && r'.den >= 1
    ensures Below(r, n) <==> Below(r', 2 * n)
  {
    var d, d' := r.den, r'.den;
    CancelIff(r'.num, 2 * n * d', d);
    CancelIff(r.num, n * d, 2 * d');
    RegroupTwo(r.num, n, d, d');
  }

  lemma RegroupTwo(x: nat, n: nat, d: nat, d': nat)
    ensures 2 * x * d' == x * (2 * d') && (2 * n * d') * d == (n * d) * (2 * d')
  {
    Regroup(2 * n, d, d');
  }

  /** `n - a / b` exceeds half a unit when everything is scaled by `p`. */
  ghost predicate Clear(p: nat, a: nat, n: nat, b: nat) {
    2 * (p * a) + b < 2 * (p * n * b)
  }

  lemma ClearDouble(p: nat, a: nat, n: nat, b: nat)
    ensures Clear(p, 2 * a, 2 * n, b) <==> Clear(2 * p, a, n, b)
  {
    assert (2 * p) * a == p * (2 * a) && (2 * p) * n == p * (2 * n);
  }

  /** When `a / b` rounds to less than the integer `n`. */
  lemma {:induction false} FlBelow(a: nat, b: nat, n: nat)
    requires b >= 1 && 1 <= n <= MANTISSA && (n > HIDDEN ==> n % 2 == 0)
    ensures Below(Fl(a, b), n) <==> Clear(Lift(n), a, n, b)
    decreases if n > HIDDEN then 0 else HIDDEN + 1 - n
  {
    hide Fl, Below;
    if n > HIDDEN {
      FlLess(a, b, n);
    } else {
      FlBelow(2 * a, b, 2 * n);
      FlDouble(a, b);
      hide Clear;
      BelowDouble(Fl(a, b), Fl(2 * a, b), n);
      ClearDouble(Lift(2 * n), a, n, b);
    }
  }

  // The error of one rounding

  ghost predicate Near(r: Ratio, a: nat, b: nat) {
    && MANTISSA * (r.num * b) <= (MANTISSA + 1) * (a * r.den)
    && (MANTISSA - 1) * (a * r.den) <= MANTISSA * (r.num * b)
  }

  lemma NearUp(r: Ratio, a: nat, b: nat)
    requires Near(r, a, 2 * b)
    ensures Near(Ratio(2 * r.num, r.den), a, b)
  {
    assert r.num * (2 * b) == (2 * r.num) * b;
  }

  lemma NearDown(r: Ratio, a: nat, b: nat)
    requires Near(r, 2 * a, b)
    ensures Near(Ratio(r.num, 2 * r.den), a, b)
  {
    assert (2 * a) * r.den == a * (2 * r.den);
  }

  lemma NearZero(b: nat)
    ensures Near(Ratio(0, 1), 0, b)
  {
  }

  lemma NearWhole(q: nat, a: nat, b: nat)
    requires a >= HIDDEN * b && 2 * (q * b) <= 2 * a + b && 2 * a <= 2 * (q * b) + b
    ensures Near(Ratio(q, 1), a, b)
  {
    var t := q * b;
  }

  /** A double is within one part in 2 to the 53 of the number. */
  lemma {:induction false} FlNear(a: nat, b: nat)
    requires b >= 1
    ensures Near(Fl(a, b), a, b)
    decreases if a >= MANTISSA * b then a - HIDDEN * b else if a < HIDDEN * b then HIDDEN * b - a else 0
  {
    FlSteps(a, b);
    hide Fl, RoundDiv, Near;
    if a == 0 {
      NearZero(b);
    } else if Zone(a, b) == 1 {
      FlNear(a, 2 * b);
      NearUp(Fl(a, 2 * b), a, b);
    } else if Zone(a, b) == 2 {
      FlNear(2 * a, b);
      NearDown(Fl(2 * a, b), a, b);
    } else if Zone(a, b) == 3 {
      RoundDivNear(a, b);
      NearWhole(RoundDiv(a, b), a, b);
    }
  }

  // Large integers

  function Pow2(k: nat): (p: nat)
    ensures p >= 1
  {
    if k == 0 then 1 else 2 * Pow2(k - 1)
  }

  lemma {:induction false} Pow2Sum(j: nat, k: nat)
    ensures Pow2(j + k) == Pow2(j) * Pow2(k)
  {
    if j > 0 {
      Pow2Sum(j - 1, k);
      assert Pow2(j + k) == 2 * Pow2(j - 1 + k) && Pow2(j) == 2 * Pow2(j - 1);
    }
  }

  lemma DescendFacts(b: nat, k: nat, d: nat, x: nat)
    requires b >= 1 && k > 0 && d == Pow2(k) * b
    ensures d == Pow2(k - 1) * (2 * b) && d >= 2 * b && Pow2(k) * x == 2 * (Pow2(k - 1) * x)
  {
    var p := Pow2(k - 1);
    assert (2 * p) * b == p * (2 * b) && (2 * p) * x == 2 * (p * x);
    Product(1, p, 2 * b);
  }

  /** A number with `k` bits too many is rounded to a multiple of 2 to the `k`. */
  lemma {:induction false} FlDescend(a: nat, b: nat, k: nat, d: nat)
    requires b >= 1 && d >= 1 && d == Pow2(k) * b && HIDDEN * d <= a < MANTISSA * d
    ensures Fl(a, b) == Ratio(Pow2(k) * RoundDiv(a, d), 1)
    decreases k
  {
    FlSteps(a, b);
    hide Fl, RoundDiv;
    if k > 0 {
      DescendFacts(b, k, d, RoundDiv(a, d));
      hide Pow2;
      FlDescend(a, 2 * b, k - 1, d);
    }
  }

  lemma {:induction false} LiftAt(n: nat, k: nat)
    requires n >= 1 && HIDDEN < Pow2(k) * n <= MANTISSA
    ensures Lift(n) == Pow2(k)
    decreases k
  {
    if k > 0 {
      assert Pow2(k) * n == Pow2(k - 1) * (2 * n);
      Product(1, Pow2(k - 1), 2 * n);
      LiftAt(2 * n, k - 1);
    }
  }

  // Ceilings

  function Ceil(g: nat, d: nat): nat
    requires d >= 1
  {
    (g + d - 1) / d
  }

  lemma CeilLess(x: nat, g: nat, d: nat)
    requires d >= 1
    ensures x * d < g <==> x < Ceil(g, d)
  {
    var c := Ceil(g, d);
    Divided(g + d - 1, d);
    if x < c {
      ProductGap(x, c, d);
    } else {
      Product(c, x, d);
    }
  }
}
