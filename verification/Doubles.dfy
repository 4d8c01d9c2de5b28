/**
 * What the fields of a double stand for. Doubles are counted in units of the smallest one,
 * two to the -1074: the fields enumerate them in order, each exactly one last place above
 * the one before. The boundaries Grisu2 works between are the midpoints to the neighbours,
 * and a parsed hexadecimal score is the double its significand and grid denote.
 */
module Doubles {
  import opened Crc
  import opened Grisu
  import HexScore

  /** A number with this exponent or a higher one, in units of two to the base. */
  function Amount(w: Fp, base: int): nat
    requires base <= w.exponent
  {
    NotNegative(w.fraction, Pow2(w.exponent - base));
    Times(w.fraction, Pow2(w.exponent - base))
  }

  const LEAST: int := -1074

  lemma InRange(encoded: nat, mantissa: nat)
    requires Positive(encoded, mantissa)
    ensures LEAST <= Value(encoded, mantissa).exponent
  {
  }

  /** How many of the smallest double a positive double is. */
  function Units(encoded: nat, mantissa: nat): nat
    requires Positive(encoded, mantissa)
  {
    InRange(encoded, mantissa);
    Amount(Value(encoded, mantissa), LEAST)
  }

  datatype Fields = Fields(encoded: nat, mantissa: nat)

  /** The fields after these, as the bit pattern counts. */
  function Next(f: Fields): Fields {
    if f.mantissa + 1 < HIDDEN then Fields(f.encoded, f.mantissa + 1) else Fields(f.encoded + 1, 0)
  }

  /** The exponent of the last place, in units: that of the smallest normal double until there are larger ones. */
  function LastPlace(encoded: nat): nat { if encoded <= 1 then 0 else encoded - 1 }

  lemma UnitsAre(encoded: nat, mantissa: nat)
    requires Positive(encoded, mantissa)
    ensures Units(encoded, mantissa)
            == Times(mantissa + (if encoded == 0 then 0 else HIDDEN), Pow2(LastPlace(encoded)))
  {
    hide Times, Pow2;
  }

  lemma OneMore(a: nat, p: nat)
    ensures Times(a + 1, p) == Times(a, p) + p
  {
  }

  lemma Halve(a: nat, p: nat)
    ensures Times(2 * a, p) == Times(a, 2 * p)
  {
  }

  /** The smallest double is one unit. */
  lemma SmallestIsOne()
    ensures Units(0, 1) == 1
  {
  }

  /** Every double is exactly one last place below the next, across every change of exponent. */
  lemma NextDouble(f: Fields)
    requires Positive(f.encoded, f.mantissa) && Positive(Next(f).encoded, Next(f).mantissa)
    ensures Units(Next(f).encoded, Next(f).mantissa) == Units(f.encoded, f.mantissa) + Pow2(LastPlace(f.encoded))
  {
    hide Times, Pow2, Units;
    var n := Next(f);
    UnitsAre(f.encoded, f.mantissa);
    UnitsAre(n.encoded, n.mantissa);
    var p := Pow2(LastPlace(f.encoded));
    OneMore(f.mantissa + (if f.encoded == 0 then 0 else HIDDEN), p);
    if f.mantissa + 1 == HIDDEN && f.encoded >= 1 {
      NextPower(LastPlace(f.encoded));
      Halve(HIDDEN, p);
    }
  }

  /** One is two to the 1074 units. */
  lemma OneIs()
    ensures Positive(1023, 0) && Units(1023, 0) == Pow2(1074)
  {
    hide Times, Pow2, Units;
    UnitsAre(1023, 0);
    PowersAdd(52, 1022);
    PowerValues();
    Product(HIDDEN, Pow2(1022));
  }

  lemma Product(a: int, b: int)
    ensures Times(a, b) == a * b
  {
  }

  predicate Below(f: Fields, g: Fields) {
    f.encoded < g.encoded || (f.encoded == g.encoded && f.mantissa < g.mantissa)
  }

  /** Larger fields are larger doubles: no two fields denote the same one. */
  lemma FieldsOrdered(f: Fields, g: Fields)
    requires Positive(f.encoded, f.mantissa) && Positive(g.encoded, g.mantissa) && Below(f, g)
    ensures Units(f.encoded, f.mantissa) < Units(g.encoded, g.mantissa)
  {
    hide Times, Pow2, Units;
    UnitsAre(f.encoded, f.mantissa);
    UnitsAre(g.encoded, g.mantissa);
    var p, q := Pow2(LastPlace(f.encoded)), Pow2(LastPlace(g.encoded));
    var a := f.mantissa + (if f.encoded == 0 then 0 else HIDDEN);
    var b := g.mantissa + (if g.encoded == 0 then 0 else HIDDEN);
    if LastPlace(f.encoded) == LastPlace(g.encoded) {
      Grow(a, b, p);
    } else {
      PowersMonotone(LastPlace(f.encoded) + 1, LastPlace(g.encoded));
      NextPower(LastPlace(f.encoded));
      Grow(a, 2 * HIDDEN, p);
      Halve(HIDDEN, p);
      Wider(HIDDEN, 2 * p, q);
      HexScore.Spread(HIDDEN, b, q);
    }
  }

  lemma Grow(a: nat, b: nat, p: nat)
    requires a < b && p >= 1
    ensures Times(a, p) < Times(b, p)
  {
    HexScore.Spread(a + 1, b, p);
  }

  lemma Wider(a: nat, p: nat, q: nat)
    requires p <= q
    ensures Times(a, p) <= Times(a, q)
  {
    TimesMonotone(a, p, q);
  }

  // ---------- Boundaries ----------

  lemma MiddleIs(w: Fp)
    requires 0 < w.fraction < 2 * HIDDEN
    ensures var b := Neighbours(w);
            && b.exponent == w.exponent - 1 - Shift(w) && b.middle == Times(w.fraction, Pow2(Shift(w) + 1))
            && b.upper == Times(2 * w.fraction + 1, Pow2(Shift(w)))
            && b.lower == (if w.fraction == HIDDEN then Times(4 * w.fraction - 1, Pow2(Shift(w) - 1))
                           else Times(2 * w.fraction - 1, Pow2(Shift(w))))
  {
    hide Pow2, LeadingZeros;
    NeighboursFit(w);
  }

  /** The double itself is in the middle. */
  lemma MiddleIsValue(f: Fields)
    requires Positive(f.encoded, f.mantissa)
    ensures var w := Value(f.encoded, f.mantissa);
            && Neighbours(w).exponent <= w.exponent && Neighbours(w).middle == Amount(w, Neighbours(w).exponent)
  {
    hide Pow2, LeadingZeros, Times, Neighbours;
    MiddleIs(Value(f.encoded, f.mantissa));
  }

  lemma TwiceOdd(a: nat, p: nat)
    ensures 2 * Times(2 * a + 1, p) == Times(a, 2 * p) + Times(a + 1, 2 * p)
    ensures a >= 1 ==> 2 * Times(2 * a - 1, p) == Times(a, 2 * p) + Times(a - 1, 2 * p)
  {
    assert 2 * ((2 * a + 1) * p) == a * (2 * p) + (a + 1) * (2 * p);
    assert a >= 1 ==> 2 * ((2 * a - 1) * p) == a * (2 * p) + (a - 1) * (2 * p);
  }

  /** The upper boundary is the midpoint to the next double. */
  lemma UpperIsMidpoint(f: Fields)
    requires Positive(f.encoded, f.mantissa) && Positive(Next(f).encoded, Next(f).mantissa)
    ensures var w, n := Value(f.encoded, f.mantissa), Value(Next(f).encoded, Next(f).mantissa);
            var b := Neighbours(w);
            && b.exponent <= w.exponent <= n.exponent
            && 2 * b.upper == Amount(w, b.exponent) + Amount(n, b.exponent)
  {
    hide Pow2, LeadingZeros, Times, Neighbours;
    var w, n := Value(f.encoded, f.mantissa), Value(Next(f).encoded, Next(f).mantissa);
    MiddleIs(w);
    var s := Shift(w);
    TwiceOdd(w.fraction, Pow2(s));
    NextPower(s);
    if n.exponent > w.exponent {
      NextPower(s + 1);
      Halve(HIDDEN, Pow2(s + 1));
    }
  }

  lemma FourTimes(p: nat)
    ensures 2 * Times(4 * HIDDEN - 1, p) == Times(HIDDEN, 4 * p) + Times(2 * HIDDEN - 1, 2 * p)
    ensures p > 0 ==> 2 * Times(4 * HIDDEN - 1, p) > Times(HIDDEN, 4 * p) + Times(HIDDEN - 1, 4 * p)
  {
  }

  /**
   * The lower boundary is the midpoint to the double before; only below the smallest normal
   * double, where the spacing does not change, it lies nearer than that.
   */
  lemma LowerIsMidpoint(f: Fields)
    requires Positive(f.encoded, f.mantissa) && Positive(Next(f).encoded, Next(f).mantissa)
    ensures var p, w := Value(f.encoded, f.mantissa), Value(Next(f).encoded, Next(f).mantissa);
            var b := Neighbours(w);
            && b.exponent <= p.exponent && b.exponent <= w.exponent
            && (Next(f) != Fields(1, 0) ==> 2 * b.lower == Amount(w, b.exponent) + Amount(p, b.exponent))
            && (Next(f) == Fields(1, 0) ==> 2 * b.lower > Amount(w, b.exponent) + Amount(p, b.exponent))
  {
    hide Pow2, LeadingZeros, Times, Neighbours;
    var p, w := Value(f.encoded, f.mantissa), Value(Next(f).encoded, Next(f).mantissa);
    ShiftRange(w);
    MiddleIs(w);
    var s := Shift(w);
    NextPower(s);
    NextPower(s - 1);
    if w.fraction == HIDDEN {
      FourTimes(Pow2(s - 1));
    } else {
      TwiceOdd(w.fraction, Pow2(s));
    }
  }

  /** Below the smallest double the boundary is the midpoint to zero. */
  lemma LowestIsMidpoint()
    ensures var w := Value(0, 1);
            Neighbours(w).exponent <= w.exponent && 2 * Neighbours(w).lower == Amount(w, Neighbours(w).exponent)
  {
    hide Pow2, LeadingZeros, Times, Neighbours;
    var w := Value(0, 1);
    MiddleIs(w);
    NextPower(Shift(w));
    TwiceOdd(1, Pow2(Shift(w)));
    ZeroTimes(2 * Pow2(Shift(w)));
  }

  /** Scaling takes the nearest word to the product. */
  lemma ScaleIsNearest(x: u64, p: u64)
    ensures Apart(Scale(x, p) * WORD_SIZE, x * p) <= HALF
  {
    var a := x * p + HALF;
    assert a == a / WORD_SIZE * WORD_SIZE + a % WORD_SIZE;
  }

  // ---------- Parsed scores ----------

  /** The fields of a significand at a grid: a carry into the next power of two moves up one exponent. */
  function FieldsOf(significand: nat, grid: int): Fields
    requires LEAST <= grid && 0 < significand <= 2 * HIDDEN
  {
    if significand == 2 * HIDDEN then Fields(grid + 1076, 0)
    else if significand >= HIDDEN then Fields(grid + 1075, significand - HIDDEN)
    else Fields(0, significand)
  }

  /** A rounded significand fills its 53 bits, unless the grid is the lowest. */
  lemma Filled(v: HexScore.Exact)
    requires v.m > 0 && HexScore.Grid(HexScore.Top(v)) > LEAST
    ensures HexScore.Rounded(v) >= HIDDEN
  {
    hide Pow2, HexScore.Log2, Times, HexScore.RoundEven;
    var g, k := HexScore.Grid(HexScore.Top(v)), HexScore.Log2(v.m);
    PowerValues();
    if v.x >= g {
      PowersAdd(k, v.x - g);
      TimesMonotone(Pow2(v.x - g), Pow2(k), v.m);
      PowersMonotone(52, k + (v.x - g));
    } else {
      PowersAdd(52, g - v.x);
      AtLeast(v.m, Pow2(g - v.x), HIDDEN);
    }
  }

  lemma AtLeast(m: nat, d: nat, n: nat)
    requires d > 0 && n * d <= m
    ensures HexScore.RoundEven(m, d) >= n
  {
    HexScore.WholeMantissa(m, d);
    if m / d < n { TimesMonotone(d, m / d + 1, n); }
  }

  /** The double of a parsed score is its significand times two to its grid, exactly. */
  lemma ScoreIsDouble(v: HexScore.Exact)
    requires v.m > 0 && !HexScore.Overflows(v) && HexScore.Rounded(v) > 0
    ensures LEAST <= HexScore.Grid(HexScore.Top(v)) && HexScore.Rounded(v) <= 2 * HIDDEN
    ensures var m, g := HexScore.Rounded(v), HexScore.Grid(HexScore.Top(v));
            var f := FieldsOf(m, g);
            && Positive(f.encoded, f.mantissa)
            && Units(f.encoded, f.mantissa) == Times(m, Pow2(g - LEAST))
  {
    hide Pow2, HexScore.Log2, Times, HexScore.Rounded, Units;
    var m, g := HexScore.Rounded(v), HexScore.Grid(HexScore.Top(v));
    HexScore.RoundedSize(v);
    PowerValues();
    if g > LEAST { Filled(v); }
    var f := FieldsOf(m, g);
    UnitsAre(f.encoded, f.mantissa);
    if m == 2 * HIDDEN {
      NextPower(g - LEAST);
      Halve(HIDDEN, Pow2(g - LEAST));
    }
  }

  /** Rounding reaches an even number exactly from halfway below it on. */
  lemma RoundsUpTo(m: nat, e: nat, n: nat)
    requires e > 0 && n > 0 && n % 2 == 0 && m < Times(n, 2 * e)
    ensures HexScore.RoundEven(m, 2 * e) >= n <==> m >= Times(2 * n - 1, e)
  {
    hide Times;
    var d := 2 * e;
    var q, r := m / d, m % d;
    DivMod(m, d);
    if q >= n { HexScore.Spread(n, q, d); }
    if q < n - 1 { OneStep(q, n - 1, d); }
    OddHalf(n, e);
    UpByHalf(m, q, r, e, n, Times(q, d), Times(n - 1, d));
  }

  lemma OneStep(a: nat, b: nat, d: nat)
    requires a < b
    ensures Times(a, d) + d <= Times(b, d)
  {
    TimesMonotone(d, a + 1, b);
  }

  lemma UpByHalf(m: nat, q: nat, r: nat, e: nat, n: nat, x: int, y: int)
    requires m == x + r && 0 <= r < 2 * e && q <= n - 1 && n % 2 == 0 && y >= 0
    requires (q < n - 1 ==> x + 2 * e <= y) && (q == n - 1 ==> x == y)
    ensures (if 2 * r > 2 * e || (2 * r == 2 * e && q % 2 == 1) then q + 1 else q) >= n <==> m >= y + e
  {
  }

  lemma OddHalf(n: nat, e: nat)
    requires n > 0
    ensures Times(2 * n - 1, e) == Times(n - 1, 2 * e) + e
  {
  }

  /** A number scaled up compares as it did. */
  lemma Cancel(a: nat, b: nat, p: nat)
    requires p > 0
    ensures a * p >= b * p <==> a >= b
  {
    if a >= b { TimesMonotone(p, b, a); } else { TimesMonotone(p, a + 1, b); }
  }

  const TOP_SIGNIFICAND: nat := 2 * HIDDEN

  /** With the leading bit at 1023, overflow is rounding up to the next power of two. */
  lemma AtTheTop(v: HexScore.Exact, base: int)
    requires v.m > 0 && base <= v.x && base <= 970 && HexScore.Top(v) == 1023
    ensures HexScore.Rounded(v) >= TOP_SIGNIFICAND
            <==> HexScore.At(v.m, v.x, base) >= HexScore.At(4 * HIDDEN - 1, 970, base)
  {
    hide Pow2, HexScore.Log2, HexScore.RoundEven;
    PowerValues();
    var k := HexScore.Log2(v.m);
    assert v.m < Pow2(k + 1);
    if v.x >= 971 {
      var e := v.x - 971;
      PowersAdd(k + 1, e);
      Strict(v.m, Pow2(k + 1), Pow2(e));
      PowersAdd(e, 971 - base);
      PowersAdd(1, 970 - base);
      NextPower(970 - base);
      var r := v.m * Pow2(e);
      assert v.m * Pow2(v.x - base) == r * Pow2(971 - base) by { Regrouped(v.m, Pow2(e), Pow2(971 - base)); }
      assert r * Pow2(971 - base) == (2 * r) * Pow2(970 - base) by { Doubled(r, Pow2(970 - base)); }
      Cancel(2 * r, 4 * HIDDEN - 1, Pow2(970 - base));
    } else {
      var e := Pow2(970 - v.x);
      NextPower(970 - v.x);
      PowersAdd(53, 971 - v.x);
      RoundsUpTo(v.m, e, TOP_SIGNIFICAND);
      PowersAdd(970 - v.x, v.x - base);
      assert (4 * HIDDEN - 1) * Pow2(970 - base) == ((4 * HIDDEN - 1) * e) * Pow2(v.x - base) by {
        Regrouped(4 * HIDDEN - 1, e, Pow2(v.x - base));
      }
      Cancel(v.m, (4 * HIDDEN - 1) * e, Pow2(v.x - base));
    }
  }

  lemma Strict(a: nat, b: nat, p: nat)
    requires a < b && p > 0
    ensures a * p < b * p
  {
    TimesMonotone(p, a + 1, b);
  }

  lemma Regrouped(a: nat, b: nat, c: nat)
    ensures a * (b * c) == (a * b) * c
  {
  }

  lemma Doubled(r: nat, p: nat)
    ensures r * (2 * p) == (2 * r) * p
  {
  }

  /** A value is refused as too large exactly from halfway above the largest double on. */
  lemma OverflowsExactly(v: HexScore.Exact, base: int)
    requires v.m > 0 && base <= v.x && base <= 970
    ensures HexScore.Overflows(v) <==> HexScore.At(v.m, v.x, base) >= HexScore.At(4 * HIDDEN - 1, 970, base)
  {
    hide Pow2, HexScore.Log2, HexScore.Rounded;
    PowerValues();
    var top := HexScore.Top(v);
    if top == 1023 {
      AtTheTop(v, base);
    } else {
      var k, p := HexScore.Log2(v.m), Pow2(v.x - base);
      PowersAdd(k, v.x - base);
      PowersAdd(k + 1, v.x - base);
      TimesMonotone(p, Pow2(k), v.m);
      Strict(v.m, Pow2(k + 1), p);
      PowersAdd(53, 970 - base);
      PowersAdd(54, 970 - base);
      NextPower(53);
      Strict(4 * HIDDEN - 1, 4 * HIDDEN, Pow2(970 - base));
      TimesMonotone(Pow2(970 - base), TOP_SIGNIFICAND, 4 * HIDDEN - 1);
      if top > 1023 {
        PowersMonotone(54 + (970 - base), k + (v.x - base));
      } else {
        PowersMonotone(k + 1 + (v.x - base), 53 + (970 - base));
      }
    }
  }

  lemma RoundsToZero(m: nat, d: nat)
    requires d > 0
    ensures HexScore.RoundEven(m, d) == 0 <==> 2 * m <= d
  {
    HexScore.WholeMantissa(m, d);
    if m / d >= 1 { TimesMonotone(d, 1, m / d); }
  }

  /** A nonzero value is refused as too small exactly when it is at most half the smallest double. */
  lemma VanishesExactly(v: HexScore.Exact)
    requires v.m > 0
    ensures HexScore.Rounded(v) == 0 <==> v.x < LEAST && 2 * v.m <= Pow2(LEAST - v.x)
  {
    hide Pow2, HexScore.Log2, HexScore.RoundEven;
    var g, k := HexScore.Grid(HexScore.Top(v)), HexScore.Log2(v.m);
    if g > LEAST {
      Filled(v);
      if v.x < LEAST { PowersMonotone(LEAST - v.x, k); }
    } else if v.x >= g {
      Strict(0, v.m, Pow2(v.x - g));
    } else {
      RoundsToZero(v.m, Pow2(g - v.x));
    }
  }
}
