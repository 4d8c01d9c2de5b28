/**
 * Hexadecimal scores. The reader keeps sixteen significant digits and one sticky bit, with
 * saturating exponent arithmetic; its result is proved to be the exact value of the whole
 * text rounded to nearest, ties to even (section 4.3.1 of IEEE 754-2019).
 */
module HexScore {
  import opened Crc
  import opened Format
  import opened Grisu
  import Resp

  // ---------- Rounding ----------

  function Abs(x: int): nat { if x < 0 then -x else x }

  /** The quotient rounded to nearest, ties to even. */
  function RoundEven(m: nat, d: nat): nat
    requires d > 0
  {
    var q, r := m / d, m % d;
    if 2 * r > d || (2 * r == d && q % 2 == 1) then q + 1 else q
  }

  /** No multiple of the divisor is closer, and a tie takes the even one. */
  lemma RoundEvenNearest(m: nat, d: nat, n: nat)
    requires d > 0
    ensures Abs(Times(RoundEven(m, d), d) - m) <= Abs(Times(n, d) - m)
    ensures 2 * Abs(Times(RoundEven(m, d), d) - m) <= d
    ensures 2 * Abs(Times(RoundEven(m, d), d) - m) == d ==> RoundEven(m, d) % 2 == 0
  {
    hide Times;
    var q, r := m / d, m % d;
    DivMod(m, d);
    OneLess(q + 1, d);
    if n <= q {
      Spread(n, q, d);
    } else {
      Spread(q + 1, n, d);
    }
  }

  lemma Spread(a: nat, b: nat, d: nat)
    requires a <= b
    ensures Times(a, d) <= Times(b, d)
  {
    TimesMonotone(d, a, b);
  }

  function Log2(n: nat): (k: nat)
    requires n > 0
    ensures Pow2(k) <= n < Pow2(k + 1)
  {
    if n == 1 then 0 else 1 + Log2(n / 2)
  }

  lemma LogUnique(n: nat, k: nat)
    requires n > 0 && Pow2(k) <= n < Pow2(k + 1)
    ensures Log2(n) == k
  {
    hide Log2, Pow2;
    if Log2(n) < k { PowersMonotone(Log2(n) + 1, k); }
    if k < Log2(n) { PowersMonotone(k + 1, Log2(n)); }
  }

  /** The exponent of the last place of doubles whose leading bit is at h. */
  function Grid(h: int): int { if h - 52 > -1074 then h - 52 else -1074 }

  /** A positive number m times two to the x. */
  datatype Exact = Exact(m: nat, x: int)

  function Top(v: Exact): int
    requires v.m > 0
  {
    v.x + Log2(v.m)
  }

  /** The significand of the rounded value, at the grid of its leading bit. */
  function Rounded(v: Exact): nat
    requires v.m > 0
  {
    var g := Grid(Top(v));
    if v.x >= g then v.m * Pow2(v.x - g) else RoundEven(v.m, Pow2(g - v.x))
  }

  /** The rounded value is beyond every finite double. */
  predicate Overflows(v: Exact)
    requires v.m > 0
  {
    var g := Grid(Top(v));
    g > 971 || (g == 971 && Rounded(v) >= Pow2(53))
  }

  /** A number, brought to a common lower exponent. */
  function At(m: int, e: int, b: int): int
    requires b <= e
  {
    Times(m, Pow2(e - b))
  }

  lemma AtShift(m: nat, e: int, g: int, b: int)
    requires b <= g <= e
    ensures At(m, e, b) == Times(Times(m, Pow2(e - g)), Pow2(g - b))
  {
    hide Pow2;
    PowersAdd(e - g, g - b);
    Associate(m, Pow2(e - g), Pow2(g - b));
  }

  lemma Associate(a: int, b: int, c: int)
    ensures Times(a, b * c) == Times(Times(a, b), c)
  {
    assert a * (b * c) == (a * b) * c;
  }

  lemma ScaleAbs(a: int, b: int, c: int, p: nat)
    requires Abs(a - b) <= Abs(c - b)
    ensures Abs(Times(a, p) - Times(b, p)) <= Abs(Times(c, p) - Times(b, p))
  {
    var x, y := Abs(a - b), Abs(c - b);
    AbsTimes(a - b, p);
    AbsTimes(c - b, p);
    Minus(a, b, p);
    Minus(c, b, p);
    TimesMonotone(p, x, y);
  }

  lemma AbsTimes(x: int, p: nat)
    ensures Abs(Times(x, p)) == Times(Abs(x), p)
  {
    assert (-x) * p == -(x * p);
    assert x >= 0 ==> x * p >= 0;
    assert x < 0 ==> (-x) * p >= 0;
  }

  lemma Minus(a: int, b: int, p: nat)
    ensures Times(a - b, p) == Times(a, p) - Times(b, p)
  {
  }

  /** No multiple of the grid is closer to the exact value than the rounded one. */
  lemma NearestOnGrid(v: Exact, n: nat, b: int)
    requires v.m > 0 && b <= v.x && b <= Grid(Top(v))
    ensures var g := Grid(Top(v));
            Abs(At(Rounded(v), g, b) - At(v.m, v.x, b)) <= Abs(At(n, g, b) - At(v.m, v.x, b))
  {
    hide Pow2, Log2;
    var g := Grid(Top(v));
    if v.x >= g {
      AtShift(v.m, v.x, g, b);
    } else {
      var d, p := Pow2(g - v.x), Pow2(v.x - b);
      RoundEvenNearest(v.m, d, n);
      AtShift(Rounded(v), g, v.x, b);
      AtShift(n, g, v.x, b);
      ScaleAbs(Times(Rounded(v), d), v.m, Times(n, d), p);
    }
  }

  /** Doubles below the grid's exponent are below the leading bit of the value. */
  lemma BelowGrid(v: Exact, m: nat, e: int, b: int)
    requires v.m > 0 && b <= v.x && -1074 <= e < Grid(Top(v)) && b <= e && m < Pow2(53)
    ensures var g := Grid(Top(v));
            At(m, e, b) <= At(Pow2(52), g, b) <= At(v.m, v.x, b)
  {
    hide Pow2, Log2;
    var g := Grid(Top(v));
    PowersAdd(53, e - b);
    PowersAdd(52, g - b);
    PowersMonotone(53 + (e - b), 52 + (g - b));
    TimesMonotone(Pow2(e - b), m, Pow2(53));
    PowersAdd(Log2(v.m), v.x - b);
    TimesMonotone(Pow2(v.x - b), Pow2(Log2(v.m)), v.m);
  }

  /**
   * Correct rounding: no double is closer to the exact value, and a value halfway between
   * two multiples of the grid takes the even one.
   */
  lemma CorrectlyRounded(v: Exact, m: nat, e: int, b: int)
    requires v.m > 0 && b <= v.x && b <= Grid(Top(v)) && b <= e
    requires m < Pow2(53) && -1074 <= e
    ensures var g := Grid(Top(v));
            && Abs(At(Rounded(v), g, b) - At(v.m, v.x, b)) <= Abs(At(m, e, b) - At(v.m, v.x, b))
            && (v.x < g && 2 * Abs(Times(Rounded(v), Pow2(g - v.x)) - v.m) == Pow2(g - v.x) ==> Rounded(v) % 2 == 0)
  {
    hide Pow2, Log2, Rounded, At;
    var g := Grid(Top(v));
    if e >= g {
      assert At(m, e, b) == At(Times(m, Pow2(e - g)), g, b) by { OnGrid(m, e, g, b); }
      NearestOnGrid(v, Times(m, Pow2(e - g)), b);
    } else {
      BelowGrid(v, m, e, b);
      NearestOnGrid(v, Pow2(52), b);
    }
    if v.x < g {
      TieIsEven(v);
    }
  }

  lemma OnGrid(m: nat, e: int, g: int, b: int)
    requires b <= g <= e
    ensures Times(m, Pow2(e - g)) >= 0 && At(m, e, b) == At(Times(m, Pow2(e - g)), g, b)
  {
    AtShift(m, e, g, b);
    Spread(0, m, Pow2(e - g));
  }

  lemma TieIsEven(v: Exact)
    requires v.m > 0 && v.x < Grid(Top(v))
    ensures var d := Pow2(Grid(Top(v)) - v.x);
            2 * Abs(Times(Rounded(v), d) - v.m) == d ==> Rounded(v) % 2 == 0
  {
    hide Pow2, Log2;
    RoundEvenNearest(v.m, Pow2(Grid(Top(v)) - v.x), 0);
  }

  // ---------- The text ----------

  function HexDigit(b: byte): Option<nat> {
    if 48 <= b <= 57 then Some(b - 48)
    else if 97 <= b <= 102 then Some(b - 87)
    else if 65 <= b <= 70 then Some(b - 55)
    else None
  }

  /** A mantissa: all its digits as one number, how many there are, and how many follow the point. */
  datatype Mantissa = Mantissa(m: nat, digits: nat, fraction: nat, point: bool)

  function ReadMantissa(s: Bytes): (r: Option<Mantissa>)
    ensures r.Some? ==> r.value.digits <= |s| && r.value.fraction <= |s|
  {
    if s == [] then Some(Mantissa(0, 0, 0, false))
    else
      var before, b := ReadMantissa(s[..|s| - 1]), s[|s| - 1];
      if before.None? then None
      else NextByte(before.value, b)
  }

  function NextByte(a: Mantissa, b: byte): (r: Option<Mantissa>)
    ensures r.Some? ==> r.value.digits <= a.digits + 1 && r.value.fraction <= a.fraction + 1
  {
    if b == 46 then (if a.point then None else Some(a.(point := true)))
    else if HexDigit(b).None? then None
    else Some(Mantissa(16 * a.m + HexDigit(b).value, a.digits + 1, a.fraction + (if a.point then 1 else 0), a.point))
  }

  predicate IsSign(b: byte) { b == 43 || b == 45 }

  function Unsigned(s: Bytes): Bytes { if s != [] && IsSign(s[0]) then s[1..] else s }

  predicate IsNegative(s: Bytes) { s != [] && s[0] == 45 }

  /** The first p or P, or the end. */
  function Mark(s: Bytes): (i: nat)
    ensures i <= |s|
  {
    if s == [] then 0 else if s[0] == 112 || s[0] == 80 then 0 else 1 + Mark(s[1..])
  }

  function MantissaText(body: Bytes): Bytes { body[..Mark(body)] }

  function PowerText(body: Bytes): Bytes {
    if Mark(body) < |body| then body[Mark(body) + 1..] else [48]
  }

  function ReadPower(s: Bytes): Option<int> {
    if !Resp.Digits(Unsigned(s)) then None
    else
      var n: int := Resp.Number(Unsigned(s));
      Some(if IsNegative(s) then -n else n)
  }

  datatype Score = NoScore | Zero | Finite(negative: bool, significand: nat, grid: int)

  /**
   * What a hexadecimal text denotes: refused when malformed, when the rounded value is
   * beyond the finite doubles, or when a nonzero value rounds to zero.
   */
  function ReadHex(text: Bytes): Score
    requires |Unsigned(text)| >= 2
  {
    var body := Unsigned(text)[2..];
    var mantissa, power := ReadMantissa(MantissaText(body)), ReadPower(PowerText(body));
    if power.None? || mantissa.None? || mantissa.value.digits == 0 then NoScore
    else if mantissa.value.m == 0 then Zero
    else
      var v := Exact(mantissa.value.m, power.value - 4 * mantissa.value.fraction);
      if Overflows(v) || Rounded(v) == 0 then NoScore
      else Finite(IsNegative(text), Rounded(v), Grid(Top(v)))
  }

  // ---------- Saturating arithmetic ----------

  const MAX_I64: int := 0x7fff_ffff_ffff_ffff

  /** Up to here four times a digit count leaves room in the exponent's word for every exponent in range. */
  const MAX_TEXT: nat := 0x1fff_ffff_ffff_f000

  function Clamp(x: int): int {
    if x > MAX_I64 then MAX_I64 else if x < -MAX_I64 - 1 then -MAX_I64 - 1 else x
  }

  /** A number clamped to what can be negated. */
  function Near(p: int): int { if p < 0 then -Clamp(-p) else Clamp(p) }

  /** The exponent's digits, saturating; any exponent that is not small is only known to be huge. */
  method ParsePower(s: Bytes) returns (r: Option<int>)
    ensures r.Some? <==> ReadPower(s).Some?
    ensures r.Some? ==> r.value == Near(ReadPower(s).value)
  {
    var digits := Unsigned(s);
    if digits == [] {
      return None;
    }
    var power: int := 0;
    assert digits[..0] == [];
    for i := 0 to |digits|
      invariant forall j :: 0 <= j < i ==> Resp.IsDigit(digits[j])
      invariant power == Clamp(Resp.Number(digits[..i]))
    {
      if !Resp.IsDigit(digits[i]) {
        return None;
      }
      assert digits[..i + 1][..i] == digits[..i];
      power := Clamp(Clamp(power * 10) + (digits[i] - 48));
    }
    assert digits[..|digits|] == digits;
    r := Some(if IsNegative(s) then -power else power);
  }

  // ---------- Sixteen digits and a sticky bit ----------

  datatype Kept = Kept(value: nat, kept: nat, discarded: nat, sticky: bool)

  /** What the reader knows of a mantissa: its leading digits, and whether the rest is zero. */
  predicate Keeps(a: Kept, m: nat) {
    && a.value == m / Pow2(4 * a.discarded) && a.sticky == (m % Pow2(4 * a.discarded) != 0)
    && a.kept <= 16 && a.value < Pow2(4 * a.kept)
    && (a.kept == 0 ==> m == 0 && a.discarded == 0)
    && (a.kept > 0 ==> Pow2(4 * a.kept - 4) <= a.value)
    && (a.discarded > 0 ==> a.kept == 16)
  }

  function Keep(a: Kept, d: nat): Kept {
    if a.kept == 0 && d == 0 then a
    else if a.kept < 16 then Kept(16 * a.value + d, a.kept + 1, a.discarded, a.sticky)
    else Kept(a.value, a.kept, a.discarded + 1, a.sticky || d != 0)
  }

  lemma Sixteen(k: nat)
    ensures Pow2(4 * k + 4) == 16 * Pow2(4 * k)
  {
    assert Pow2(4 * k + 4) == 2 * Pow2(4 * k + 3);
    assert Pow2(4 * k + 2) == 2 * Pow2(4 * k + 1);
  }

  lemma DropDigit(m: nat, d: nat, p: nat)
    requires p > 0 && d < 16
    ensures (16 * m + d) / (16 * p) == m / p && (16 * m + d) % (16 * p) == 16 * (m % p) + d
  {
    var q, r := m / p, m % p;
    DivMod(m, p);
    assert 16 * m + d == q * (16 * p) + (16 * r + d);
    QuotientIs(16 * m + d, 16 * p, q, 16 * r + d);
  }

  lemma QuotientIs(x: nat, p: nat, q: nat, r: nat)
    requires p > 0 && x == q * p + r && r < p
    ensures x / p == q && x % p == r
  {
    var a, b := x / p, x % p;
    DivMod(x, p);
    if a < q { Above(a, q, p); }
    if a > q { Above(q, a, p); }
  }

  lemma Above(a: nat, b: nat, p: nat)
    requires a < b
    ensures b * p >= a * p + p
  {
    TimesMonotone(p, a + 1, b);
  }

  lemma KeepsNext(a: Kept, m: nat, d: nat)
    requires Keeps(a, m) && d < 16
    ensures Keeps(Keep(a, d), 16 * m + d)
  {
    hide Pow2;
    assert Pow2(0) == 1 by { PowZero(); }
    Sixteen(a.discarded);
    if a.kept > 0 { Sixteen(a.kept - 1); }
    Sixteen(a.kept);
    if a.kept == 16 {
      DropDigit(m, d, Pow2(4 * a.discarded));
    }
  }

  lemma PowZero()
    ensures Pow2(0) == 1
  {
  }

  /** The kept digits fit a word. */
  lemma KeptFits(a: Kept, m: nat)
    requires Keeps(a, m)
    ensures a.value < WORD_SIZE && (a.kept < 16 ==> 16 * a.value + 15 < WORD_SIZE)
  {
    hide Pow2;
    PowerValues();
    PowersMonotone(4 * a.kept, 64);
    if a.kept < 16 {
      PowersMonotone(4 * a.kept, 60);
    }
  }

  /** The digit loop: at most sixteen significant digits, the others only counted. */
  method ParseMantissa(s: Bytes) returns (any: bool, a: Kept, fraction: nat, ok: bool)
    ensures ok <==> ReadMantissa(s).Some?
    ensures ok ==> && (any <==> ReadMantissa(s).value.digits > 0) && fraction == ReadMantissa(s).value.fraction
                   && Keeps(a, ReadMantissa(s).value.m) && a.discarded <= |s|
  {
    hide Pow2, Keeps, HexDigit;
    any, a, fraction := false, Kept(0, 0, 0, false), 0;
    var point := false;
    KeepsNothing();
    assert s[..0] == [];
    for i := 0 to |s|
      invariant ReadMantissa(s[..i]).Some?
      invariant var r := ReadMantissa(s[..i]).value;
                && (any <==> r.digits > 0) && fraction == r.fraction && point == r.point && Keeps(a, r.m)
      invariant a.discarded <= i
    {
      assert s[..i + 1][..i] == s[..i];
      ghost var r := ReadMantissa(s[..i]).value;
      var b := s[i];
      if NextByte(r, b).None? {
        Unread(s, i + 1);
      }
      if b == 46 {
        if point {
          return any, a, fraction, false;
        }
        point := true;
      } else {
        var digit := HexDigit(b);
        if digit.None? {
          return any, a, fraction, false;
        }
        assert digit.value < 16 by { DigitRange(b); }
        any := true;
        fraction := fraction + if point then 1 else 0;
        KeptFits(a, r.m);
        KeepsNext(a, r.m, digit.value);
        if a.kept == 0 && digit.value == 0 {
        } else if a.kept < 16 {
          a := Kept(Add(Mul(a.value, 16), digit.value), a.kept + 1, a.discarded, a.sticky);
        } else {
          a := Kept(a.value, a.kept, a.discarded + 1, a.sticky || digit.value != 0);
        }
      }
    }
    assert s[..|s|] == s;
    ok := true;
  }

  lemma KeepsNothing()
    ensures Keeps(Kept(0, 0, 0, false), 0)
  {
  }

  lemma DigitRange(b: byte)
    requires HexDigit(b).Some?
    ensures HexDigit(b).value < 16
  {
  }

  lemma {:induction false} Unread(s: Bytes, i: nat)
    requires i <= |s| && ReadMantissa(s[..i]).None?
    ensures ReadMantissa(s).None?
  {
    if i == |s| {
      assert s[..i] == s;
    } else {
      assert s[..|s| - 1][..i] == s[..i];
      Unread(s[..|s| - 1], i);
    }
  }

  // ---------- Rounding the kept digits ----------

  /** Digits dropped at the end move the leading bit by exactly their weight. */
  lemma LogScaled(m: nat, n: nat)
    requires m / Pow2(n) > 0
    ensures m > 0 && Log2(m) == Log2(m / Pow2(n)) + n
  {
    hide Pow2, Log2;
    var d := Pow2(n);
    WholeMantissa(m, d);
    var value := m / d;
    var k := Log2(value);
    PowersAdd(k, n);
    PowersAdd(k + 1, n);
    TimesMonotone(d, Pow2(k), value);
    TimesMonotone(d, value + 1, Pow2(k + 1));
    assert (value + 1) * d == value * d + d;
    LogUnique(m, k + n);
  }

  lemma LogBounds(value: nat)
    requires 0 < value < WORD_SIZE
    ensures Log2(value) <= 63 && (value >= 0x1000_0000_0000_0000 ==> Log2(value) >= 60)
  {
    hide Pow2, Log2;
    PowerValues();
    var k := Log2(value);
    if k > 63 { PowersMonotone(64, k); }
    if k < 60 { PowersMonotone(k + 1, 60); }
  }

  /** The kept digits place the leading bit exactly. */
  lemma KeptTop(a: Kept, v: Exact)
    requires Keeps(a, v.m) && v.m > 0
    ensures a.value > 0 && Top(v) == v.x + 4 * a.discarded + Log2(a.value)
    ensures a.discarded > 0 ==> Log2(a.value) >= 60
    ensures Log2(a.value) <= 63
  {
    hide Pow2, Log2;
    assert a.value > 0 by { PowersPositive(4 * a.kept - 4); }
    LogScaled(v.m, 4 * a.discarded);
    KeptFits(a, v.m);
    LogBounds(a.value);
    if a.discarded > 0 { PowerValues(); }
  }

  lemma PowersPositive(n: nat)
    ensures Pow2(n) > 0
  {
  }

  /** Rounding with a half bit, lower bits and a sticky bit, against the whole number. */
  lemma StickyRound(value: nat, low: nat, d: nat, h: nat)
    requires d > 0 && h > 0 && low < d
    ensures RoundEven(value * d + low, 2 * h * d) == RoundHalf(value, h, low != 0)
  {
    var s := 2 * h;
    var q, r := value / s, value % s;
    DivMod(value, s);
    SplitHalf(value, h);
    assert value * d + low == q * (s * d) + (r * d + low) by { Distribute(q, s, r, d); }
    RestBelow(r, s, d, low);
    QuotientIs(value * d + low, s * d, q, r * d + low);
    CompareHalf(r, h, d, low);
    assert 2 * h * d == s * d;
  }

  lemma SplitHalf(value: nat, h: nat)
    requires h > 0
    ensures value % (2 * h) == (value / h % 2) * h + value % h && value / h / 2 == value / (2 * h)
  {
    var a, b := value / h, value % h;
    DivMod(value, h);
    assert a == 2 * (a / 2) + a % 2;
    assert value == (a / 2) * (2 * h) + ((a % 2) * h + b) by {
      assert a * h == (2 * (a / 2) + a % 2) * h;
      assert (2 * (a / 2) + a % 2) * h == (a / 2) * (2 * h) + (a % 2) * h;
    }
    assert (a % 2) * h + b < 2 * h by {
      assert a % 2 == 0 || a % 2 == 1;
    }
    QuotientIs(value, 2 * h, a / 2, (a % 2) * h + b);
  }

  lemma RestBelow(r: nat, s: nat, d: nat, low: nat)
    requires r < s && low < d
    ensures r * d + low < s * d
  {
    TimesMonotone(d, r + 1, s);
  }

  lemma CompareHalf(r: nat, h: nat, d: nat, low: nat)
    requires low < d
    ensures 2 * (r * d + low) > 2 * h * d <==> r > h || (r == h && low > 0)
    ensures 2 * (r * d + low) == 2 * h * d <==> r == h && low == 0
  {
    assert 2 * h * d == 2 * (h * d);
    if r < h { TimesMonotone(d, r + 1, h); }
    if r > h { TimesMonotone(d, h + 1, r); }
  }

  /** Far below half of the grid, a number rounds to zero. */
  lemma RoundsToZero(value: nat, low: nat, d: nat, s: nat)
    requires d > 0 && low < d && value < WORD_SIZE && s >= 2 * WORD_SIZE
    ensures RoundEven(value * d + low, s * d) == 0
  {
    RestBelow(value, WORD_SIZE, d, low);
    TimesMonotone(d, 2 * WORD_SIZE, s);
    QuotientIs(value * d + low, s * d, 0, value * d + low);
  }

  /** The code's rounding of the kept digits at a given shift. */
  function RoundKept(a: Kept, shift: int): nat {
    if shift <= 0 then a.value * Pow2(-shift)
    else if shift > 64 then 0
    else RoundHalf(a.value, Pow2(shift - 1), a.sticky)
  }

  /** The quotient by twice h, rounded on the half bit, the bits below it and the sticky bit. */
  function RoundHalf(value: nat, h: nat, sticky: bool): nat
    requires h > 0
  {
    var q: nat := value / (2 * h);
    if value / h % 2 == 1 && (value % h != 0 || sticky || q % 2 == 1) then q + 1 else q
  }

  /** Sixteen digits and a sticky bit round like the whole mantissa. */
  lemma KeptRounds(a: Kept, v: Exact)
    requires Keeps(a, v.m) && v.m > 0
    ensures RoundKept(a, Grid(Top(v)) - (v.x + 4 * a.discarded)) == Rounded(v)
  {
    hide Pow2, Log2, RoundEven, Times;
    KeptTop(a, v);
    KeptFits(a, v.m);
    PowZero();
    var g := Grid(Top(v));
    var shift := g - (v.x + 4 * a.discarded);
    if shift > 0 {
      var d, low := Pow2(4 * a.discarded), v.m % Pow2(4 * a.discarded);
      WholeMantissa(v.m, d);
      PowersAdd(shift, 4 * a.discarded);
      assert Pow2(shift) == 2 * Pow2(shift - 1) by { NextPower(shift - 1); }
      if shift > 64 {
        PowerValues();
        NextPower(64);
        PowersMonotone(65, shift);
        RoundsToZero(a.value, low, d, Pow2(shift));
      } else {
        StickyRound(a.value, low, d, Pow2(shift - 1));
      }
    }
  }

  lemma WholeMantissa(m: nat, d: nat)
    requires d > 0
    ensures m == m / d * d + m % d && 0 <= m % d < d
  {
  }

  /** Rounded significands have at most 53 bits, or are the next power of two. */
  lemma RoundedSize(v: Exact)
    requires v.m > 0
    ensures Rounded(v) <= Pow2(53)
  {
    hide Pow2, Log2, Times, RoundEven;
    var g, k := Grid(Top(v)), Log2(v.m);
    if v.x >= g {
      ProductBelow(v.m, k + 1, v.x - g, 53);
    } else {
      var d := Pow2(g - v.x);
      PowersAdd(53, g - v.x);
      PowersMonotone(k + 1, 53 + (g - v.x));
      RoundAtMost(v.m, d, Pow2(53));
    }
  }

  lemma RoundAtMost(m: nat, d: nat, n: nat)
    requires d > 0 && m < n * d
    ensures RoundEven(m, d) <= n
  {
    var q := m / d;
    WholeMantissa(m, d);
    if q >= n { TimesMonotone(d, n, q); }
  }

  /** The saturated exponent is exact, or both it and the exact one are out of every range. */
  lemma PowerExact(p: int, fraction: nat, discarded: nat)
    requires fraction < MAX_TEXT && discarded < MAX_TEXT
    ensures var power := Clamp(Clamp(Near(p) - fraction * 4) + discarded * 4);
            var exact := p - 4 * fraction + 4 * discarded;
            && -MAX_I64 - 1 <= fraction * 4 <= MAX_I64 && -MAX_I64 - 1 <= discarded * 4 <= MAX_I64
            && (power == exact || (power > 5000 && exact > 5000) || (power < -5000 && exact < -5000))
  {
  }

  /** Beyond the range, or exact: the leading bit and the rounding the code sees are the value's. */
  lemma RangeDecides(a: Kept, v: Exact, power: int)
    requires Keeps(a, v.m) && v.m > 0
    requires var exact := v.x + 4 * a.discarded;
             power == exact || (power > 5000 && exact > 5000) || (power < -5000 && exact < -5000)
    ensures a.value > 0
    ensures var top := power + Log2(a.value);
            && (top > 1023 <==> Grid(Top(v)) > 971)
            && (top <= 1023 ==> RoundKept(a, Grid(top) - power) == Rounded(v))
            && (top <= 1023 && Rounded(v) > 0 ==> Grid(top) == Grid(Top(v)))
  {
    hide Pow2, Log2, RoundEven, Rounded, RoundHalf;
    KeptTop(a, v);
    KeptRounds(a, v);
  }

  /** The word operations of the rounding step. */
  method RoundWord(value: u64, sticky: bool, shift: int) returns (r: u64)
    requires shift <= 0 ==> -shift < 64 && value * Pow2(-shift) < WORD_SIZE
    ensures r == RoundKept(Kept(value, 0, 0, sticky), shift)
  {
    hide Pow2;
    if shift <= 0 {
      r := Shl(value, -shift);
    } else if shift > 64 {
      r := 0;
    } else {
      WordFacts(value, shift);
      var half := Shl(1, shift - 1);
      var low: nat := value % half;
      var truncated: u64 := if shift == 64 then 0 else value / Pow2(shift);
      r := if value / half % 2 == 1 && (low != 0 || sticky || truncated % 2 == 1) then Add(truncated, 1) else truncated;
    }
  }

  /** A half bit inside the word, and what is left above it. */
  lemma WordFacts(value: u64, shift: nat)
    requires 0 < shift <= 64
    ensures 0 < Pow2(shift - 1) <= HALF && Pow2(shift) > 0
    ensures value / (2 * Pow2(shift - 1)) == if shift == 64 then 0 else value / Pow2(shift)
    ensures 0 <= value / (2 * Pow2(shift - 1)) <= HALF
  {
    hide Pow2;
    PowerValues();
    PowersMonotone(shift - 1, 63);
    PowersPositive(shift - 1);
    NextPower(shift - 1);
    HalfAtMost(value, Pow2(shift));
    if shift == 64 {
      QuotientIs(value, WORD_SIZE, 0, value);
    }
  }

  lemma HalfAtMost(value: u64, d: nat)
    requires d >= 2
    ensures 0 <= value / d <= HALF
  {
    WholeMantissa(value, d);
    TimesMonotone(value / d, 2, d);
  }

  lemma ProductBelow(value: nat, i: nat, n: nat, t: nat)
    requires value < Pow2(i) && i + n <= t
    ensures 0 <= value * Pow2(n) <= Pow2(t)
  {
    hide Pow2;
    PowersAdd(i, n);
    PowersMonotone(i + n, t);
    TimesMonotone(Pow2(n), value, Pow2(i));
  }

  lemma SmallShift(value: nat, power: int)
    requires value > 0 && Grid(power + Log2(value)) - power <= 0
    ensures var n := power - Grid(power + Log2(value)); 0 <= n < 64 && 0 <= value * Pow2(n) < WORD_SIZE
  {
    hide Pow2, Log2;
    var k := Log2(value);
    var n := power - Grid(power + k);
    assert Pow2(53) < WORD_SIZE by { PowerValues(); }
    ProductBelow(value, k + 1, n, 53);
  }

  /**
   * Reads a hexadecimal score of any realistic length. It is refused exactly when malformed,
   * too large or rounding to zero, and otherwise the correctly rounded double.
   */
  method ParseHex(text: Bytes) returns (score: Score)
    requires 2 <= |Unsigned(text)| && |text| < MAX_TEXT
    ensures score == ReadHex(text)
    ensures score.Finite? ==> score.significand <= Pow2(53) && -1074 <= score.grid <= 971
  {
    hide Pow2, Log2, Rounded, Keeps, RoundKept, ReadMantissa, ReadPower, Mark;
    var body := Unsigned(text)[2..];
    var power := ParsePower(PowerText(body));
    if power.None? {
      return NoScore;
    }
    var any, a, fraction, ok := ParseMantissa(MantissaText(body));
    if !ok || !any {
      return NoScore;
    }
    ghost var m := ReadMantissa(MantissaText(body)).value.m;
    assert a.value == 0 <==> m == 0 by { KeptZero(a, m); }
    if a.value == 0 {
      return Zero;
    }
    score := Finish(IsNegative(text), power.value, ReadPower(PowerText(body)).value, a, fraction, m);
  }

  lemma KeptZero(a: Kept, m: nat)
    requires Keeps(a, m)
    ensures a.value == 0 <==> m == 0
  {
    if a.kept > 0 { PowersPositive(4 * a.kept - 4); }
  }

  method Finish(negative: bool, near: int, ghost p: int, a: Kept, fraction: nat, ghost m: nat) returns (score: Score)
    requires m > 0 && Keeps(a, m) && fraction < MAX_TEXT && a.discarded < MAX_TEXT
    requires near == Near(p)
    ensures var v := Exact(m, p - 4 * fraction);
            score == if Overflows(v) || Rounded(v) == 0 then NoScore else Finite(negative, Rounded(v), Grid(Top(v)))
    ensures score.Finite? ==> score.significand <= Pow2(53) && -1074 <= score.grid <= 971
  {
    hide Pow2, Log2, Rounded, Keeps, RoundHalf;
    ghost var v := Exact(m, p - 4 * fraction);
    PowerExact(p, fraction, a.discarded);
    KeptFits(a, m);
    RoundedSize(v);
    var power := Clamp(Clamp(near - fraction * 4) + a.discarded * 4);
    RangeDecides(a, v, power);
    assert Log2(a.value) <= 63 by { LogBounds(a.value); }
    var highest := Clamp(power + Log2(a.value));
    if highest > 1023 {
      return NoScore;
    }
    var grid := if Clamp(highest - 52) > -1074 then Clamp(highest - 52) else -1074;
    var shift := Clamp(grid - power);
    if shift <= 0 { SmallShift(a.value, power); }
    var rounded := RoundWord(a.value, a.sticky, shift);
    if rounded == 0 {
      return NoScore;
    }
    if grid == 971 && rounded >= Pow2(53) {
      return NoScore;
    }
    score := Finite(negative, rounded, grid);
  }
}
