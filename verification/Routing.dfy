/**
 From a key's hash to the worker that serves it: the slot of the key map, the server that owns the
 tablet found there, and the worker that the server's dispatcher picks.
 */
module Routing {
  import opened Arithmetic
  import opened Placement
  import opened Wiring
  import opened Doubles

  const HASHES: nat := 0x1_0000_0000_0000_0000

  /** The slot of a hash among `n`, in exact arithmetic. */
  function SlotOf(hash: nat, n: nat): nat { hash * n / HASHES }

  lemma DivideBounds(x: nat)
    ensures x / HASHES * HASHES <= x < (x / HASHES + 1) * HASHES
  {
  }

  /** The slots cut the hashes into `n` ranges, in order. */
  lemma SlotRange(hash: nat, n: nat, s: nat)
    requires hash < HASHES && n >= 1
    ensures SlotOf(hash, n) < n
    ensures SlotOf(hash, n) == s <==> s * HASHES <= hash * n < (s + 1) * HASHES
  {
    var t := SlotOf(hash, n);
    DivideBounds(hash * n);
    assert hash * n < n * HASHES by {
      Product(hash + 1, HASHES, n);
    }
    Cancel(t, n, HASHES);
    if s * HASHES <= hash * n < (s + 1) * HASHES {
      Cancel(s, t + 1, HASHES);
      Cancel(t, s + 1, HASHES);
    }
  }

  lemma SlotMonotone(h: nat, h': nat, n: nat)
    requires h <= h'
    ensures SlotOf(h, n) <= SlotOf(h', n)
  {
    DivideBounds(h * n);
    DivideBounds(h' * n);
    Product(h, h', n);
    Cancel(SlotOf(h, n), SlotOf(h', n) + 1, HASHES);
  }

  lemma Remainder(i: nat, p: nat, y: nat)
    requires y < p
    ensures (i * p + y) % p == y
  {
    var x := i * p + y;
    DigitsUnique(p, x / p, x % p, i, y);
  }

  /**
   The slot leads to a tablet that is a master; the server that the client picks is the one with that id and owns
   the tablet, and its dispatcher, which takes the tablet's id modulo `Per`, picks the worker of that same tablet.
   */
  ghost predicate Routed(c: Config, x: Index, s: nat) {
    && s < |x.keyMap| && x.keyMap[s] < |x.tablets|
    && var id := x.keyMap[s]; var server := x.tablets[id].server;
    && !x.tablets[id].isBackup && server < |x.servers| && x.servers[server].id == server
    && c.Per() >= 1 && var worker := id % c.Per();
    && worker < c.t && worker < |x.servers[server].tablets| && x.servers[server].tablets[worker] == id
  }

  /** Whatever slot client and server agree on, requests are routed so. */
  lemma RoutingAgrees(c: Config, x: Index, rs: seq<Request>, s: nat)
    requires Recorded(c, x, rs) && |rs| == c.n && s < c.n * c.t
    ensures Routed(c, x, s)
  {
    var qs := Messages(rs);
    var i, k := KeyMapMasters(c, x, qs, s);
    FiledOne(c, x, qs, i, 0, k);
    Bounds(c, i, 0, k);
    IdBound(c, i, 0, k);
    Remainder(i, c.Per(), k);
  }

  /** Every hash is routed so, in exact arithmetic. */
  lemma HashRouted(c: Config, x: Index, rs: seq<Request>, hash: nat)
    requires Recorded(c, x, rs) && |rs| == c.n && c.n * c.t >= 1 && hash < HASHES
    ensures SlotOf(hash, c.n * c.t) < c.n * c.t && Routed(c, x, SlotOf(hash, c.n * c.t))
  {
    SlotRange(hash, c.n * c.t, 0);
    RoutingAgrees(c, x, rs, SlotOf(hash, c.n * c.t));
  }

  // The slot as written: every division is rounded to double precision

  /** The width of a slot: the double nearest to 2 to the 64 divided by the number of slots. */
  function Width(n: nat): (q: Ratio)
    requires n >= 1
    ensures q.num >= 1 && q.den >= 1
  {
    FlNear(HASHES, n);
    Fl(HASHES, n)
  }

  /** The hash is rounded to a double, divided by the width, rounded again, and cut off. */
  function SlotAsWritten(hash: nat, n: nat): nat
    requires n >= 1
  {
    var x, q := Fl(hash, 1), Width(n);
    Product(1, x.den, q.num);
    var y := Fl(x.num * q.den, x.den * q.num);
    y.num / y.den
  }

  /** Also as written, larger hashes never go to smaller slots. */
  lemma AsWrittenMonotone(h: nat, h': nat, n: nat)
    requires n >= 1 && h <= h'
    ensures SlotAsWritten(h, n) <= SlotAsWritten(h', n)
  {
    var x, x', q := Fl(h, 1), Fl(h', 1), Width(n);
    Product(1, x.den, q.num);
    Product(1, x'.den, q.num);
    FlMonotone(h, h', 1);
    Quotients(x, x', q);
    hide Fl, Width;
    FlOrder(x.num * q.den, x.den * q.num, x'.num * q.den, x'.den * q.num);
    FloorOrder(Fl(x.num * q.den, x.den * q.num), Fl(x'.num * q.den, x'.den * q.num));
  }

  lemma Quotients(x: Ratio, x': Ratio, q: Ratio)
    requires AtMost(x, x')
    ensures (x.num * q.den) * (x'.den * q.num) <= (x'.num * q.den) * (x.den * q.num)
  {
    var c := q.den * q.num;
    Product(x.num * x'.den, x'.num * x.den, c);
    FourFactors(x.num, q.den, x'.den, q.num);
    FourFactors(x'.num, q.den, x.den, q.num);
  }

  lemma FourFactors(a: nat, b: nat, c: nat, d: nat)
    ensures (a * b) * (c * d) == (a * c) * (b * d)
  {
    assert (a * b) * (c * d) == a * (b * (c * d));
    assert b * (c * d) == c * (b * d);
  }

  /** The slots in units of 2048, the spacing of doubles below 2 to the 64, that stay in range. */
  function Units(n: nat): nat
    requires n >= 1
  {
    var p, q := Lift(n), Width(n);
    Product(1, p, q.den);
    Product(1, p, n);
    Ceil(q.num * (2 * (p * n) - 1), 4096 * (p * q.den))
  }

  /** The smallest hash that falls outside the key map, if it is a hash at all. */
  function FirstLost(n: nat): nat
    requires n >= 1 && Units(n) >= 1
  {
    2048 * Units(n) - 1024 + Units(n) % 2
  }

  /** Hashes from 2 to the 63 on are rounded to multiples of 2048. */
  lemma TopDouble(hash: nat)
    requires HASHES / 2 <= hash < HASHES
    ensures Fl(hash, 1) == Ratio(2048 * RoundDiv(hash, 2048), 1)
  {
    assert Pow2(4) == 16 && Pow2(8) == 256 && Pow2(11) == 2048;
    FlDescend(hash, 1, 11, 2048);
  }

  /** For such hashes the quotient stays below `n` exactly when the rounded hash has fewer than `Units(n)` units. */
  lemma TopInRange(hash: nat, n: nat)
    requires HASHES / 2 <= hash < HASHES && 1 <= n <= HIDDEN
    ensures SlotAsWritten(hash, n) < n <==> RoundDiv(hash, 2048) < Units(n)
  {
    TopDouble(hash);
    var r, q := RoundDiv(hash, 2048), Width(n);
    var a := (2048 * r) * q.den;
    assert SlotAsWritten(hash, n) == Fl(a, q.num).num / Fl(a, q.num).den by {
      assert 1 * q.num == q.num;
    }
    hide Fl, RoundDiv, Width, SlotAsWritten;
    FlBelow(a, q.num, n);
    FloorBelow(Fl(a, q.num), n);
    UnitsLess(r, q, n);
  }

  lemma UnitsLess(r: nat, q: Ratio, n: nat)
    requires n >= 1 && q == Width(n)
    ensures Clear(Lift(n), (2048 * r) * q.den, n, q.num) <==> r < Units(n)
  {
    var p := Lift(n);
    hide Width, Lift, Ceil, Clear;
    Product(1, p, q.den);
    Product(1, p, n);
    CeilLess(r, q.num * (2 * (p * n) - 1), 4096 * (p * q.den));
    ClearUnits(p, r, q, n);
  }

  lemma ClearUnits(p: nat, r: nat, q: Ratio, n: nat)
    requires p >= 1 && n >= 1
    ensures Clear(p, (2048 * r) * q.den, n, q.num) <==> r * (4096 * (p * q.den)) < q.num * (2 * (p * n) - 1)
  {
    UnitFactors(p, r, q.den);
    Product(1, p, n);
    LessOne(q.num, p * n);
  }

  lemma LessOne(x: nat, y: nat)
    requires y >= 1
    ensures x * (2 * y - 1) == 2 * (y * x) - x
  {
  }

  lemma UnitFactors(p: nat, r: nat, d: nat)
    ensures 2 * (p * ((2048 * r) * d)) == r * (4096 * (p * d))
  {
    var x := p * d;
    assert p * ((2048 * r) * d) == (2048 * r) * x;
  }

  lemma RoundsBelow(hash: nat, j: nat)
    requires j >= 1
    ensures RoundDiv(hash, 2048) < j <==> hash < 2048 * j - 1024 + j % 2
  {
    Divided(hash, 2048);
  }

  /** The width is within one part in 2 to the 53 of its exact value, so `Units` is within one of 2 to the 53. */
  lemma UnitsBounds(n: nat)
    requires 1 <= n <= HIDDEN
    ensures MANTISSA - 1 <= Units(n) <= MANTISSA + 1
  {
    var p, q := Lift(n), Width(n);
    FlNear(HASHES, n);
    LiftFits(n);
    hide Fl, Width, Lift;
    Product(1, p, q.den);
    Product(1, p, n);
    var g, d := q.num * (2 * (p * n) - 1), 4096 * (p * q.den);
    LessOne(q.num, p * n);
    UnitsWithin(p, q, n);
    CeilLess(MANTISSA - 2, g, d);
    CeilLess(MANTISSA + 1, g, d);
  }

  /** With `y = num * n` and `z = HASHES * den`: the two bounds, scaled by `2 * p`. */
  lemma UnitsWithin(p: nat, q: Ratio, n: nat)
    requires n >= 1 && p >= 1 && q.num >= 1 && q.den >= 1 && HIDDEN < p * n && Near(q, HASHES, n)
    ensures var g, d := 2 * (p * n * q.num) - q.num, 4096 * (p * q.den);
      (MANTISSA - 2) * d < g <= (MANTISSA + 1) * d
  {
    var y, z, d := q.num * n, HASHES * q.den, 4096 * (p * q.den);
    assert p * n * q.num == p * y;
    assert 2 * (p * z) == MANTISSA * d;
    UpperBound(p, y, z, d);
    LowerBound(p, y, z, d);
    WidthBelow(p, q, n);
  }

  lemma UpperBound(p: nat, y: nat, z: nat, d: nat)
    requires MANTISSA * y <= (MANTISSA + 1) * z && 2 * (p * z) == MANTISSA * d
    ensures 2 * (p * y) <= (MANTISSA + 1) * d
  {
    Product(MANTISSA * y, (MANTISSA + 1) * z, 2 * p);
    assert (MANTISSA * y) * (2 * p) == MANTISSA * (2 * (p * y));
    assert ((MANTISSA + 1) * z) * (2 * p) == (MANTISSA + 1) * (2 * (p * z));
  }

  lemma LowerBound(p: nat, y: nat, z: nat, d: nat)
    requires (MANTISSA - 1) * z <= MANTISSA * y && 2 * (p * z) == MANTISSA * d
    ensures (MANTISSA - 1) * d <= 2 * (p * y)
  {
    Product((MANTISSA - 1) * z, MANTISSA * y, 2 * p);
    assert (MANTISSA * y) * (2 * p) == MANTISSA * (2 * (p * y));
    assert ((MANTISSA - 1) * z) * (2 * p) == (MANTISSA - 1) * (2 * (p * z));
  }

  /** The width is below one unit's worth of slots. */
  lemma WidthBelow(p: nat, q: Ratio, n: nat)
    requires n >= 1 && HIDDEN < p * n && q.den >= 1 && MANTISSA * (q.num * n) <= (MANTISSA + 1) * (HASHES * q.den)
    ensures q.num < 4096 * (p * q.den)
  {
    Product(HIDDEN + 1, p * n, q.den);
    assert (p * n) * q.den == (p * q.den) * n;
    Cancel(q.num, 4096 * (p * q.den), n);
  }

  /**
   As written, for every number of slots, the slot of a hash is in range exactly when the hash is below
   `FirstLost`. The 3071 topmost hashes are lost, or the 1024 topmost, or none.
   */
  lemma AsWrittenInRange(hash: nat, n: nat)
    requires hash < HASHES && 1 <= n <= HIDDEN
    ensures Units(n) >= 1 && (SlotAsWritten(hash, n) < n <==> hash < FirstLost(n))
    ensures FirstLost(n) == HASHES - 3071 || FirstLost(n) == HASHES - 1024 || FirstLost(n) > HASHES
  {
    hide SlotAsWritten, Units;
    UnitsBounds(n);
    var h := if hash < HASHES / 2 then HASHES / 2 else hash;
    TopInRange(h, n);
    RoundsBelow(h, Units(n));
    AsWrittenMonotone(hash, h, n);
  }

  lemma Powers()
    ensures Pow2(5) == 32 && Pow2(10) == 1024 && Pow2(11) == 2048
    ensures Pow2(46) == 0x4000_0000_0000 && Pow2(51) == 0x8_0000_0000_0000 && Pow2(52) == 0x10_0000_0000_0000
  {
    assert Pow2(5) == 32 && Pow2(6) == 64;
    Pow2Sum(5, 5);
    Pow2Sum(5, 6);
    Pow2Sum(10, 10);
    Pow2Sum(20, 20);
    Pow2Sum(40, 6);
    Pow2Sum(46, 5);
    Pow2Sum(46, 6);
  }

  /** `Units` from the scale of the width and the scale of `n`. */
  lemma UnitsAt(n: nat, k: nat, j: nat, r: nat)
    requires n >= 1 && HIDDEN * (Pow2(k) * n) <= HASHES < MANTISSA * (Pow2(k) * n) && Pow2(k) * n >= 1
    requires HIDDEN < Pow2(j) * n <= MANTISSA && r == RoundDiv(HASHES, Pow2(k) * n)
    ensures Pow2(j) * n >= 1 && Units(n) == Ceil((Pow2(k) * r) * (2 * (Pow2(j) * n) - 1), 4096 * Pow2(j))
  {
    FlDescend(HASHES, n, k, Pow2(k) * n);
    LiftAt(n, j);
    hide Fl, Lift, Pow2, RoundDiv, Ceil;
    assert Pow2(j) * 1 == Pow2(j);
  }

  lemma TwoSlots()
    ensures Units(2) == MANTISSA
  {
    Powers();
    hide Pow2;
    UnitsAt(2, 11, 52, 4503599627370496);
    hide Units;
  }

  lemma ThreeSlots()
    ensures Units(3) == MANTISSA - 1
  {
    Powers();
    hide Pow2;
    UnitsAt(3, 10, 51, 6004799503160661);
    hide Units;
  }

  lemma NinetyThreeSlots()
    ensures Units(93) == MANTISSA + 1
  {
    Powers();
    hide Pow2;
    UnitsAt(93, 5, 46, 6198502712940038);
    hide Units;
  }

  /** With two slots, as shipped, the 1024 topmost hashes fall outside the key map; with three, 3071; with 93, none. */
  lemma LostHashes()
    ensures Units(2) >= 1 && FirstLost(2) == HASHES - 1024
    ensures Units(3) >= 1 && FirstLost(3) == HASHES - 3071
    ensures Units(93) >= 1 && FirstLost(93) > HASHES
  {
    hide Units;
    TwoSlots();
    ThreeSlots();
    NinetyThreeSlots();
  }
}
