/**
 Which slot the program computes for a hash: the exact condition for each slot, how far it can be from the slot of
 exact arithmetic, and the slots themselves when their number is a power of two.
 */
module Slots {
  import opened Arithmetic
  import opened Doubles
  import opened Placement
  import opened Wiring
  import opened Routing

  // Numbers that are doubles already

  ghost predicate Same(r: Ratio, r': Ratio) { r.num * r'.den == r'.num * r.den }

  /** Rounding changes nothing. */
  ghost predicate IsDouble(a: nat, b: nat)
    requires b >= 1
  {
    Same(Fl(a, b), Ratio(a, b))
  }

  /** `Fl` depends on the value of the fraction alone. */
  lemma FlValue(a: nat, b: nat, a': nat, b': nat)
    requires b >= 1 && b' >= 1 && a * b' == a' * b
    ensures Same(Fl(a, b), Fl(a', b'))
  {
    FlOrder(a, b, a', b');
    FlOrder(a', b', a, b);
    hide Fl;
  }

  lemma SameFloor(r: Ratio, r': Ratio)
    requires Same(r, r') && r.den >= 1 && r'.den >= 1
    ensures r.num / r.den == r'.num / r'.den
  {
    FloorOrder(r, r');
    FloorOrder(r', r);
  }

  /** `s` is twice `r`, and `r` is `a / b`. */
  lemma TwiceSame(r: Ratio, s: Ratio, a: nat, b: nat)
    requires r.den >= 1 && s.num * r.den == 2 * r.num * s.den && r.num * b == a * r.den
    ensures s.num * b == (2 * a) * s.den
  {
    var d := r.den;
    assert (s.num * b) * d == (s.num * d) * b;
    assert (2 * r.num * s.den) * b == (2 * s.den) * (r.num * b);
    assert (2 * s.den) * (a * d) == ((2 * a) * s.den) * d;
    CancelSame(s.num * b, (2 * a) * s.den, d);
  }

  lemma HalfSame(r: Ratio, s: Ratio, a: nat, b: nat)
    requires r.den >= 1 && r.num * s.den == 2 * s.num * r.den && r.num * b == a * r.den
    ensures s.num * (2 * b) == a * s.den
  {
    var d := r.den;
    assert (s.num * (2 * b)) * d == (2 * s.num * d) * b;
    assert (r.num * s.den) * b == (r.num * b) * s.den;
    assert (a * d) * s.den == (a * s.den) * d;
    CancelSame(s.num * (2 * b), a * s.den, d);
  }

  lemma CancelSame(x: nat, y: nat, d: nat)
    requires d >= 1 && x * d == y * d
    ensures x == y
  {
    CancelIff(x, y, d);
    CancelIff(y, x, d);
  }

  lemma DoubleTwice(a: nat, b: nat)
    requires b >= 1 && IsDouble(a, b)
    ensures IsDouble(2 * a, b) && IsDouble(a, 2 * b)
  {
    FlDouble(a, b);
    FlDouble(a, 2 * b);
    FlTwice(a, b);
    hide Fl;
    TwiceSame(Fl(a, b), Fl(2 * a, b), a, b);
    HalfSame(Fl(a, b), Fl(a, 2 * b), a, b);
  }

  lemma {:induction false} DoubleScaled(a: nat, b: nat, j: nat, k: nat)
    requires b >= 1 && IsDouble(a, b)
    ensures b * Pow2(k) >= 1 && IsDouble(a * Pow2(j), b * Pow2(k))
    decreases j + k
  {
    hide Fl, IsDouble;
    Product(1, b, Pow2(k));
    if j > 0 {
      DoubleScaled(a, b, j - 1, k);
      DoubleTwice(a * Pow2(j - 1), b * Pow2(k));
      assert a * Pow2(j) == 2 * (a * Pow2(j - 1));
    } else if k > 0 {
      Product(1, b, Pow2(k - 1));
      DoubleScaled(a, b, j, k - 1);
      DoubleTwice(a * Pow2(j), b * Pow2(k - 1));
      assert b * Pow2(k) == 2 * (b * Pow2(k - 1));
    } else {
      assert a * Pow2(0) == a && b * Pow2(0) == b;
    }
  }

  lemma WholeDouble(r: nat)
    requires HIDDEN <= r <= MANTISSA
    ensures IsDouble(r, 1)
  {
    FlSteps(r, 1);
    FlSteps(r, 2);
    RoundDivWhole(r, 1);
    RoundDivWhole(HIDDEN, 2);
    hide Fl, RoundDiv;
  }

  /** Rounding twice is rounding once. */
  lemma {:induction false} FlIsDouble(a: nat, b: nat)
    requires b >= 1
    ensures IsDouble(Fl(a, b).num, Fl(a, b).den)
    decreases if a >= MANTISSA * b then a - HIDDEN * b else if a < HIDDEN * b then HIDDEN * b - a else 0
  {
    FlSteps(a, b);
    FlSteps(0, 1);
    if Zone(a, b) == 1 {
      FlIsDouble(a, 2 * b);
      DoubleTwice(Fl(a, 2 * b).num, Fl(a, 2 * b).den);
    } else if Zone(a, b) == 2 {
      FlIsDouble(2 * a, b);
      DoubleTwice(Fl(2 * a, b).num, Fl(2 * a, b).den);
    } else if Zone(a, b) == 3 {
      RoundDivMonotone(HIDDEN * b, a, b);
      RoundDivMonotone(a, MANTISSA * b, b);
      RoundDivWhole(HIDDEN, b);
      RoundDivWhole(MANTISSA, b);
      WholeDouble(RoundDiv(a, b));
    }
  }

  // The exact condition

  /** The double `x` is at least `s` widths, less half a unit in the last place of `s`. */
  ghost predicate Reaches(x: Ratio, q: Ratio, s: nat) {
    s == 0 || 2 * (Lift(s) * (x.num * q.den)) >= (2 * (Lift(s) * s) - 1) * (x.den * q.num)
  }

  lemma ReachesIff(x: Ratio, q: Ratio, s: nat)
    requires s >= 1
    ensures Reaches(x, q, s) <==> !Clear(Lift(s), x.num * q.den, s, x.den * q.num)
  {
    var p, b := Lift(s), x.den * q.num;
    hide Lift;
    assert (2 * (p * s) - 1) * b == 2 * (p * s * b) - b;
  }

  /** The hash gets to slot `s` exactly when its double reaches the slot. */
  lemma SlotReached(hash: nat, n: nat, s: nat)
    requires n >= 1 && s <= HIDDEN
    ensures SlotAsWritten(hash, n) >= s <==> Reaches(Fl(hash, 1), Width(n), s)
  {
    if s > 0 {
      var x, q := Fl(hash, 1), Width(n);
      Product(1, x.den, q.num);
      var y := Fl(x.num * q.den, x.den * q.num);
      assert SlotAsWritten(hash, n) == y.num / y.den;
      hide Fl, Width, SlotAsWritten, Reaches, Lift;
      FlBelow(x.num * q.den, x.den * q.num, s);
      FloorBelow(y, s);
      ReachesIff(x, q, s);
    }
  }

  /** Each slot is the doubles from one bound to the next. */
  lemma SlotExactly(hash: nat, n: nat, s: nat)
    requires n >= 1 && s < HIDDEN
    ensures SlotAsWritten(hash, n) == s <==>
      Reaches(Fl(hash, 1), Width(n), s) && !Reaches(Fl(hash, 1), Width(n), s + 1)
  {
    hide Fl, Width, SlotAsWritten, Reaches;
    SlotReached(hash, n, s);
    SlotReached(hash, n, s + 1);
  }

  // The distance from exact arithmetic

  /** Far enough above a boundary, the double is above it. */
  lemma FarAbove(x: Ratio, q: Ratio, hash: nat, n: nat, s: nat)
    requires n >= 1 && Near(x, hash, 1) && Near(q, HASHES, n)
    requires MANTISSA * (hash * n) >= (MANTISSA + 3) * (s * HASHES)
    ensures x.num * q.den >= s * (x.den * q.num)
  {
    FarScaled(hash * n, s * HASHES);
    assert x.num * 1 == x.num;
    Product((MANTISSA - 1) * (hash * x.den), MANTISSA * x.num, q.den * n);
    Product(MANTISSA * (q.num * n), (MANTISSA + 1) * (HASHES * q.den), s * x.den);
    Product((MANTISSA + 1) * (s * HASHES), (MANTISSA - 1) * (hash * n), x.den * q.den);
    hide Near;
    AboveFactors(x, q, hash, n, s);
    CancelLess(s * (x.den * q.num), x.num * q.den, MANTISSA * n);
  }

  /** The quotient of two nearby doubles, from above. */
  lemma QuotientBelow(x: Ratio, q: Ratio, hash: nat, n: nat, s: nat)
    requires Near(x, hash, 1) && Near(q, HASHES, n)
    ensures (x.num * q.den) * (MANTISSA * n) <= ((MANTISSA + 1) * (hash * n)) * (x.den * q.den)
    ensures ((MANTISSA - 1) * (s * HASHES)) * (x.den * q.den) <= (s * (x.den * q.num)) * (MANTISSA * n)
  {
    assert x.num * 1 == x.num;
    Product(MANTISSA * x.num, (MANTISSA + 1) * (hash * x.den), q.den * n);
    Product((MANTISSA - 1) * (HASHES * q.den), MANTISSA * (q.num * n), s * x.den);
    hide Near;
    BelowFactors(x, q, hash, n, s);
  }

  /** Far enough below a boundary, the double is below it by more than rounding can make up for. */
  lemma FarBelow(x: Ratio, q: Ratio, hash: nat, n: nat, s: nat)
    requires n >= 1 && Near(x, hash, 1) && Near(q, HASHES, n)
    requires MANTISSA * (hash * n) <= (MANTISSA - 3) * (s * HASHES)
    ensures MANTISSA * (x.num * q.den) <= (MANTISSA - 1) * (s * (x.den * q.num))
  {
    hide Near;
    FarScaled(hash * n, s * HASHES);
    QuotientBelow(x, q, hash, n, s);
    BelowChain(x.num * q.den, s * (x.den * q.num), MANTISSA * n, (MANTISSA + 1) * (hash * n),
               (MANTISSA - 1) * (s * HASHES), x.den * q.den);
  }

  lemma BelowChain(a: nat, b: nat, c: nat, k: nat, l: nat, d: nat)
    requires c >= 1 && a * c <= k * d && l * d <= b * c && MANTISSA * k <= (MANTISSA - 1) * l
    ensures MANTISSA * a <= (MANTISSA - 1) * b
  {
    Product(MANTISSA * k, (MANTISSA - 1) * l, d);
    Assoc(MANTISSA, k, d);
    Assoc(MANTISSA - 1, l, d);
    Assoc(MANTISSA, a, c);
    Assoc(MANTISSA - 1, b, c);
    CancelLess(MANTISSA * a, (MANTISSA - 1) * b, c);
  }

  lemma FarScaled(y: nat, z: nat)
    ensures MANTISSA * y >= (MANTISSA + 3) * z ==> (MANTISSA + 1) * z <= (MANTISSA - 1) * y
    ensures MANTISSA * y <= (MANTISSA - 3) * z ==>
      MANTISSA * ((MANTISSA + 1) * y) <= (MANTISSA - 1) * ((MANTISSA - 1) * z)
  {
  }

  lemma BelowFactors(x: Ratio, q: Ratio, hash: nat, n: nat, s: nat)
    ensures ((MANTISSA + 1) * (hash * x.den)) * (q.den * n) == ((MANTISSA + 1) * (hash * n)) * (x.den * q.den)
    ensures (MANTISSA * x.num) * (q.den * n) == (x.num * q.den) * (MANTISSA * n)
    ensures (MANTISSA * (q.num * n)) * (s * x.den) == (s * (x.den * q.num)) * (MANTISSA * n)
    ensures ((MANTISSA - 1) * (HASHES * q.den)) * (s * x.den) == ((MANTISSA - 1) * (s * HASHES)) * (x.den * q.den)
  {
    Six(MANTISSA + 1, hash, x.den, q.den, n);
    Six(MANTISSA, x.num, 1, q.den, n);
    Seven(MANTISSA, q.num, n, s, x.den);
    Seven(MANTISSA - 1, HASHES, q.den, s, x.den);
  }

  lemma Assoc(a: nat, b: nat, c: nat)
    ensures (a * b) * c == a * (b * c)
  {
  }

  /** Below by one part in 2 to the 53, the quotient is still below after rounding. */
  lemma ClearlyBelow(a: nat, b: nat, s: nat)
    requires b >= 1 && 1 <= s <= HIDDEN && MANTISSA * a <= (MANTISSA - 1) * (s * b)
    ensures Clear(Lift(s), a, s, b)
  {
    var p := Lift(s);
    LiftFits(s);
    hide Lift;
    Product(MANTISSA * a, (MANTISSA - 1) * (s * b), p);
    assert (MANTISSA * a) * p == MANTISSA * (p * a);
    assert ((MANTISSA - 1) * (s * b)) * p == (MANTISSA - 1) * (p * s * b);
    ProductGap(HIDDEN, p * s, b);
  }

  /** Above without any rounding error. */
  lemma NotBelow(a: nat, b: nat, s: nat)
    requires a >= s * b && s >= 1 && b >= 1
    ensures !Clear(Lift(s), a, s, b)
  {
    var p := Lift(s);
    hide Lift;
    Product(s * b, a, p);
    assert (s * b) * p == p * s * b && a * p == p * a;
  }

  /** Three parts in 2 to the 53 away from a slot boundary, the program is on the right side of it. */
  lemma RightSide(hash: nat, n: nat, s: nat)
    requires n >= 1 && s <= HIDDEN
    ensures MANTISSA * (hash * n) >= (MANTISSA + 3) * (s * HASHES) ==> SlotAsWritten(hash, n) >= s
    ensures s >= 1 && MANTISSA * (hash * n) <= (MANTISSA - 3) * (s * HASHES) ==> SlotAsWritten(hash, n) < s
  {
    if s >= 1 {
      var x, q := Fl(hash, 1), Width(n);
      FlNear(hash, 1);
      FlNear(HASHES, n);
      hide Fl, Width, SlotAsWritten, Reaches, Lift, Near, Clear;
      Product(1, x.den, q.num);
      SlotReached(hash, n, s);
      ReachesIff(x, q, s);
      if MANTISSA * (hash * n) >= (MANTISSA + 3) * (s * HASHES) {
        FarAbove(x, q, hash, n, s);
        NotBelow(x.num * q.den, x.den * q.num, s);
      }
      if MANTISSA * (hash * n) <= (MANTISSA - 3) * (s * HASHES) {
        FarBelow(x, q, hash, n, s);
        ClearlyBelow(x.num * q.den, x.den * q.num, s);
      }
    }
  }

  /** At least 6144 hashes away from the boundaries of its slot, the program computes the exact slot. */
  lemma AsWrittenAgrees(hash: nat, n: nat)
    requires hash < HASHES && 1 <= n <= HIDDEN
    requires SlotOf(hash, n) == 0 || SlotOf(hash, n) * HASHES <= (hash - 6144) * n
    requires (hash + 6144) * n <= (SlotOf(hash, n) + 1) * HASHES
    ensures SlotAsWritten(hash, n) == SlotOf(hash, n)
  {
    var t := SlotOf(hash, n);
    SlotRange(hash, n, t);
    hide SlotOf, SlotAsWritten;
    assert (hash - 6144) * n == hash * n - 6144 * n && (hash + 6144) * n == hash * n + 6144 * n;
    RightSide(hash, n, t);
    RightSide(hash, n, t + 1);
  }

  lemma CancelLess(a: nat, b: nat, c: nat)
    requires c >= 1 && a * c <= b * c
    ensures a <= b
  {
    CancelIff(b, a, c);
  }

  lemma AboveFactors(x: Ratio, q: Ratio, hash: nat, n: nat, s: nat)
    ensures ((MANTISSA - 1) * (hash * x.den)) * (q.den * n) == ((MANTISSA - 1) * (hash * n)) * (x.den * q.den)
    ensures (MANTISSA * x.num) * (q.den * n) == (x.num * q.den) * (MANTISSA * n)
    ensures (MANTISSA * (q.num * n)) * (s * x.den) == (s * (x.den * q.num)) * (MANTISSA * n)
    ensures ((MANTISSA + 1) * (HASHES * q.den)) * (s * x.den) == ((MANTISSA + 1) * (s * HASHES)) * (x.den * q.den)
  {
    Six(MANTISSA - 1, hash, x.den, q.den, n);
    Six(MANTISSA, x.num, 1, q.den, n);
    Seven(MANTISSA, q.num, n, s, x.den);
    Seven(MANTISSA + 1, HASHES, q.den, s, x.den);
  }

  lemma Six(m: nat, a: nat, b: nat, c: nat, d: nat)
    ensures (m * (a * b)) * (c * d) == (m * (a * d)) * (b * c)
  {
  }

  lemma Seven(m: nat, a: nat, b: nat, c: nat, d: nat)
    ensures (m * (a * b)) * (c * d) == (c * (d * a)) * (m * b) == (m * (c * a)) * (d * b)
  {
  }

  // Powers of two

  lemma Pow64()
    ensures Pow2(12) == 4096 && Pow2(64) == HASHES
  {
    Powers();
    assert Pow2(1) == 2 && Pow2(2) == 4;
    Pow2Sum(10, 2);
    Pow2Sum(52, 12);
  }

  lemma HashesDouble()
    ensures IsDouble(HASHES, 1)
  {
    Pow64();
    hide Pow2;
    FlDescend(HASHES, 1, 12, 4096);
    hide Fl;
    RoundDivWhole(HIDDEN, 4096);
    hide RoundDiv;
  }

  /** A power of two many slots have an exact width. */
  lemma WidthExact(k: nat)
    ensures Width(Pow2(k)).num * Pow2(k) == HASHES * Width(Pow2(k)).den
  {
    hide Fl;
    HashesDouble();
    DoubleScaled(HASHES, 1, 0, k);
    WidthIs(HASHES * Pow2(0), 1 * Pow2(k), Pow2(k));
  }

  lemma WidthIs(a: nat, b: nat, n: nat)
    requires a == HASHES && b == n >= 1 && IsDouble(a, b)
    ensures Width(n).num * n == HASHES * Width(n).den
  {
    hide Fl;
  }

  lemma SlotIs(hash: nat, n: nat)
    requires n >= 1
    ensures var x, q := Fl(hash, 1), Width(n);
      && x.den * q.num >= 1
      && var y := Fl(x.num * q.den, x.den * q.num);
         SlotAsWritten(hash, n) == y.num / y.den
  {
    hide Fl, Width;
    Product(1, Fl(hash, 1).den, Width(n).num);
  }

  /**
   With a power of two many slots, the rounding of the hash itself is the only one: the slot is that of the hash's
   double in exact arithmetic.
   */
  lemma PowerOfTwoSlots(hash: nat, k: nat)
    ensures Fl(hash, 1).den * HASHES >= 1
    ensures SlotAsWritten(hash, Pow2(k)) == Fl(hash, 1).num * Pow2(k) / (Fl(hash, 1).den * HASHES)
  {
    hide Fl, Width, SlotAsWritten, Pow2, IsDouble;
    var x, q, p := Fl(hash, 1), Width(Pow2(k)), Pow2(k);
    WidthExact(k);
    FlIsDouble(hash, 1);
    Pow64();
    SlotIs(hash, p);
    Product(1, x.den, HASHES);
    DoubleScaled(x.num, x.den, k, 64);
    SameQuotient(x, q, p);
    FlValue(x.num * q.den, x.den * q.num, x.num * p, x.den * HASHES);
    SameFloor(Fl(x.num * q.den, x.den * q.num), Fl(x.num * p, x.den * HASHES));
    RoundedAlready(x.num * p, x.den * HASHES);
  }

  lemma SameQuotient(x: Ratio, q: Ratio, p: nat)
    requires q.num * p == HASHES * q.den
    ensures (x.num * q.den) * (x.den * HASHES) == (x.num * p) * (x.den * q.num)
  {
    FourFactors(x.num, q.den, x.den, HASHES);
    FourFactors(x.num, p, x.den, q.num);
  }

  lemma RoundedAlready(a: nat, b: nat)
    requires b >= 1 && IsDouble(a, b)
    ensures Fl(a, b).num / Fl(a, b).den == a / b
  {
    hide Fl;
    SameFloor(Fl(a, b), Ratio(a, b));
  }

  /** A hash that is a double goes to its exact slot. */
  lemma DoublesExact(hash: nat, k: nat)
    requires IsDouble(hash, 1)
    ensures SlotAsWritten(hash, Pow2(k)) == SlotOf(hash, Pow2(k))
  {
    hide Fl, SlotAsWritten, Pow2;
    PowerOfTwoSlots(hash, k);
    OneFloor(Fl(hash, 1), hash, Pow2(k));
  }

  lemma OneFloor(x: Ratio, hash: nat, p: nat)
    requires Same(x, Ratio(hash, 1)) && x.den * HASHES >= 1
    ensures x.num * p / (x.den * HASHES) == SlotOf(hash, p)
  {
    assert x.num == hash * x.den;
    FourFactors(hash, x.den, p, HASHES);
    FourFactors(hash, p, x.den, HASHES);
    SameFloor(Ratio(x.num * p, x.den * HASHES), Ratio(hash * p, HASHES));
  }

  lemma UpperHalf(hash: nat)
    requires HASHES / 2 <= hash < HASHES
    ensures SlotAsWritten(hash, 2) == if hash < HASHES - 1024 then 1 else 2
  {
    assert Pow2(1) == 2;
    PowerOfTwoSlots(hash, 1);
    TopDouble(hash);
    RoundsBelow(hash, MANTISSA);
    RoundsBelow(hash, HIDDEN);
    RoundsBelow(hash, MANTISSA + 1);
    hide Fl, SlotAsWritten, RoundDiv;
  }

  lemma LowerHalf(hash: nat)
    requires HASHES / 4 <= hash < HASHES / 2
    ensures SlotAsWritten(hash, 2) == if hash < HASHES / 2 - 512 then 0 else 1
  {
    assert Pow2(1) == 2;
    Powers();
    PowerOfTwoSlots(hash, 1);
    FlDescend(hash, 1, 10, 1024);
    RoundDivLess(hash, 1024, MANTISSA);
    RoundDivLess(hash, 1024, MANTISSA + 2);
    hide Fl, SlotAsWritten, RoundDiv, Pow2;
  }

  /** The two slots of the shipped configuration, hash by hash. */
  lemma TwoSlotsExactly(hash: nat)
    requires hash < HASHES
    ensures SlotAsWritten(hash, 2) == if hash < HASHES / 2 - 512 then 0 else if hash < HASHES - 1024 then 1 else 2
  {
    if hash >= HASHES / 2 {
      UpperHalf(hash);
    } else if hash >= HASHES / 4 {
      LowerHalf(hash);
    } else {
      LowerHalf(HASHES / 4);
      AsWrittenMonotone(hash, HASHES / 4, 2);
    }
  }

  /**
   As written, every hash below `FirstLost` leads to a master that the server with its id owns and whose worker the
   server's dispatcher picks; the others lead outside the key map.
   */
  lemma HashRoutedAsWritten(c: Config, x: Index, rs: seq<Request>, hash: nat)
    requires Recorded(c, x, rs) && |rs| == c.n && 1 <= c.n * c.t <= HIDDEN && hash < HASHES
    ensures Units(c.n * c.t) >= 1
    ensures var s := SlotAsWritten(hash, c.n * c.t);
      if hash < FirstLost(c.n * c.t) then s < c.n * c.t && Routed(c, x, s) else s >= c.n * c.t
  {
    AsWrittenInRange(hash, c.n * c.t);
    var s := SlotAsWritten(hash, c.n * c.t);
    hide SlotAsWritten;
    if s < c.n * c.t {
      RoutingAgrees(c, x, rs, s);
    }
  }
}
