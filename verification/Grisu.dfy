/**
 * Grisu2 digit generation for positive finite doubles. Every word operation states when it
 * is safe, so that the code below never overflows or underflows on any input; the emitted
 * digits are proved to lie between the scaled bounds.
 */
module Grisu {
  import opened Crc
  import Resp

  const WORD_SIZE: nat := 0x1_0000_0000_0000_0000
  const HALF: nat := 0x8000_0000_0000_0000

  type u64 = x: int | 0 <= x < 0x1_0000_0000_0000_0000

  /** A number: fraction times two to the exponent. */
  datatype Fp = Fp(fraction: u64, exponent: int)

  // ---------- Checked word operations ----------

  function Add(a: u64, b: u64): u64
    requires a + b < WORD_SIZE
  {
    a + b
  }

  function Sub(a: u64, b: u64): u64
    requires b <= a
  {
    a - b
  }

  function Mul(a: u64, b: u64): u64
    requires 0 <= a * b < WORD_SIZE
  {
    a * b
  }

  function Shl(a: u64, n: nat): u64
    requires n < 64 && 0 <= a * Pow2(n) < WORD_SIZE
  {
    a * Pow2(n)
  }

  lemma {:induction false} PowersAdd(a: nat, b: nat)
    ensures Pow2(a + b) == Pow2(a) * Pow2(b)
  {
    if a > 0 { PowersAdd(a - 1, b); }
  }

  lemma {:induction false} PowersMonotone(a: nat, b: nat)
    requires a <= b
    ensures Pow2(a) <= Pow2(b)
  {
    if a < b { PowersMonotone(a, b - 1); }
  }

  lemma PowerValues()
    ensures Pow2(9) == 512 && Pow2(10) == 1024 && Pow2(32) == 0x1_0000_0000
    ensures Pow2(52) == 0x10_0000_0000_0000 && Pow2(53) == 0x20_0000_0000_0000
    ensures Pow2(60) == 0x1000_0000_0000_0000 && Pow2(62) == 0x4000_0000_0000_0000
    ensures Pow2(63) == HALF && Pow2(64) == WORD_SIZE
  {
    Powers();
    PowersAdd(32, 20);
    PowersAdd(8, 1);
    assert Pow2(1) == 2 && Pow2(2) == 4;
    PowersAdd(8, 2);
    PowersAdd(8, 12);
    PowersAdd(8, 4);
    assert Pow2(20) == 0x10_0000;
    PowersAdd(52, 1);
    PowersAdd(52, 8);
    PowersAdd(60, 2);
    PowersAdd(62, 1);
    PowersAdd(63, 1);
  }

  // ---------- Normalisation and scaling ----------

  function LeadingZeros(x: u64): (n: nat)
    requires x > 0
    ensures n < 64 && HALF <= x * Pow2(n) < WORD_SIZE
    decreases WORD_SIZE - x
  {
    if x >= HALF then
      assert x * Pow2(0) == x;
      0
    else
      var n := LeadingZeros(2 * x);
      assert x * Pow2(n + 1) == (2 * x) * Pow2(n);
      FewZeros(2 * x, n);
      n + 1
  }

  lemma FewZeros(x: u64, n: nat)
    requires x >= 2 && x * Pow2(n) < WORD_SIZE
    ensures n < 63
  {
    assert x * Pow2(n) >= 2 * Pow2(n);
    if n >= 63 {
      PowersMonotone(63, n);
      PowerValues();
    }
  }

  /** Only one shift brings a number to the top of the word. */
  lemma UniqueShift(x: u64, a: nat, b: nat)
    requires x > 0 && a < b && HALF <= x * Pow2(a)
    ensures x * Pow2(b) >= WORD_SIZE
  {
    PowersMonotone(a + 1, b);
    assert x * Pow2(b) >= x * Pow2(a + 1);
    assert x * Pow2(a + 1) == 2 * (x * Pow2(a));
  }

  function Normalize(f: Fp): Fp
    requires f.fraction > 0
  {
    Fp(Shl(f.fraction, LeadingZeros(f.fraction)), f.exponent - LeadingZeros(f.fraction))
  }

  /** The rounded upper half of a product of two words. */
  function Scale(x: u64, p: u64): (r: u64)
  {
    ScaleFits(x, p);
    (x * p + HALF) / WORD_SIZE
  }

  lemma ProductBound(x: nat, y: nat, b: nat)
    requires x <= b && y <= b
    ensures x * y <= b * b
  {
    assert x * y <= b * y;
    assert b * y <= b * b;
  }

  lemma ScaleFits(x: u64, p: u64)
    ensures 0 <= (x * p + HALF) / WORD_SIZE < WORD_SIZE
  {
    ProductBound(x, p, WORD_SIZE - 1);
    DivideBelow(x * p + HALF);
  }

  lemma DivideBelow(a: nat)
    requires a < WORD_SIZE * WORD_SIZE
    ensures a / WORD_SIZE < WORD_SIZE
  {
  }

  function Multiply(a: Fp, b: Fp): Fp {
    Fp(Scale(a.fraction, b.fraction), a.exponent + b.exponent + 64)
  }

  /** Scaling by a normalised power keeps at least half of a gap. */
  lemma ScaleGap(x: u64, y: u64, h: nat, p: u64)
    requires p >= HALF && x >= y + 2 * h
    ensures Scale(x, p) >= Scale(y, p) + h
  {
    assert x * p >= y * p + h * WORD_SIZE by {
      assert x * p == y * p + (x - y) * p;
      assert (x - y) * p >= (2 * h) * p;
      assert (2 * h) * p >= (2 * h) * HALF;
    }
    DivideAtLeast(x * p + HALF, y * p + HALF, h);
  }

  lemma DivideAtLeast(a: nat, b: nat, h: nat)
    requires a >= b + h * WORD_SIZE
    ensures a / WORD_SIZE >= b / WORD_SIZE + h
  {
  }

  lemma ScaleLarge(x: u64, p: u64)
    requires x >= HALF && p >= HALF
    ensures Scale(x, p) >= HALF / 2
  {
    assert x * p >= HALF * HALF by {
      assert x * p >= HALF * p;
      assert HALF * p >= HALF * HALF;
    }
  }

  // ---------- The table of powers ----------

  const POWERS: nat := 87

  /** Normalised powers of ten, eight decimal orders apart. */
  function Power(i: nat): Fp
    requires i < POWERS
  {
    match i
    case 0 => Fp(18054884314459144840, -1220)
    case 1 => Fp(13451937075301367670, -1193)
    case 2 => Fp(10022474136428063862, -1166)
    case 3 => Fp(14934650266808366570, -1140)
    case 4 => Fp(11127181549972568877, -1113)
    case 5 => Fp(16580792590934885855, -1087)
    case 6 => Fp(12353653155963782858, -1060)
    case 7 => Fp(18408377700990114895, -1034)
    case 8 => Fp(13715310171984221708, -1007)
    case 9 => Fp(10218702384817765436, -980)
    case 10 => Fp(15227053142812498563, -954)
    case 11 => Fp(11345038669416679861, -927)
    case 12 => Fp(16905424996341287883, -901)
    case 13 => Fp(12595523146049147757, -874)
    case 14 => Fp(9384396036005875287, -847)
    case 15 => Fp(13983839803942852151, -821)
    case 16 => Fp(10418772551374772303, -794)
    case 17 => Fp(15525180923007089351, -768)
    case 18 => Fp(11567161174868858868, -741)
    case 19 => Fp(17236413322193710309, -715)
    case 20 => Fp(12842128665889583758, -688)
    case 21 => Fp(9568131466127621947, -661)
    case 22 => Fp(14257626930069360058, -635)
    case 23 => Fp(10622759856335341974, -608)
    case 24 => Fp(15829145694278690180, -582)
    case 25 => Fp(11793632577567316726, -555)
    case 26 => Fp(17573882009934360870, -529)
    case 27 => Fp(13093562431584567480, -502)
    case 28 => Fp(9755464219737475723, -475)
    case 29 => Fp(14536774485912137811, -449)
    case 30 => Fp(10830740992659433045, -422)
    case 31 => Fp(16139061738043178685, -396)
    case 32 => Fp(12024538023802026127, -369)
    case 33 => Fp(17917957937422433684, -343)
    case 34 => Fp(13349918974505688015, -316)
    case 35 => Fp(9946464728195732843, -289)
    case 36 => Fp(14821387422376473014, -263)
    case 37 => Fp(11042794154864902060, -236)
    case 38 => Fp(16455045573212060422, -210)
    case 39 => Fp(12259964326927110867, -183)
    case 40 => Fp(18268770466636286478, -157)
    case 41 => Fp(13611294676837538539, -130)
    case 42 => Fp(10141204801825835212, -103)
    case 43 => Fp(15111572745182864684, -77)
    case 44 => Fp(11258999068426240000, -50)
    case 45 => Fp(16777216000000000000, -24)
    case 46 => Fp(12500000000000000000, 3)
    case 47 => Fp(9313225746154785156, 30)
    case 48 => Fp(13877787807814456755, 56)
    case 49 => Fp(10339757656912845936, 83)
    case 50 => Fp(15407439555097886824, 109)
    case 51 => Fp(11479437019748901445, 136)
    case 52 => Fp(17105694144590052135, 162)
    case 53 => Fp(12744735289059618216, 189)
    case 54 => Fp(9495567745759798747, 216)
    case 55 => Fp(14149498560666738074, 242)
    case 56 => Fp(10542197943230523224, 269)
    case 57 => Fp(15709099088952724970, 295)
    case 58 => Fp(11704190886730495818, 322)
    case 59 => Fp(17440603504673385349, 348)
    case 60 => Fp(12994262207056124023, 375)
    case 61 => Fp(9681479787123295682, 402)
    case 62 => Fp(14426529090290212157, 428)
    case 63 => Fp(10748601772107342003, 455)
    case 64 => Fp(16016664761464807395, 481)
    case 65 => Fp(11933345169920330789, 508)
    case 66 => Fp(17782069995880619868, 534)
    case 67 => Fp(13248674568444952270, 561)
    case 68 => Fp(9871031767461413346, 588)
    case 69 => Fp(14708983551653345445, 614)
    case 70 => Fp(10959046745042015199, 641)
    case 71 => Fp(16330252207878254650, 667)
    case 72 => Fp(12166986024289022870, 694)
    case 73 => Fp(18130221999122236476, 720)
    case 74 => Fp(13508068024458167312, 747)
    case 75 => Fp(10064294952495520794, 774)
    case 76 => Fp(14996968138956309548, 800)
    case 77 => Fp(11173611982879273257, 827)
    case 78 => Fp(16649979327439178909, 853)
    case 79 => Fp(12405201291620119593, 880)
    case 80 => Fp(9242595204427927429, 907)
    case 81 => Fp(13772540099066387757, 933)
    case 82 => Fp(10261342003245940623, 960)
    case 83 => Fp(15290591125556738113, 986)
    case 84 => Fp(11392378155556871081, 1013)
    case 85 => Fp(16975966327722178521, 1039)
    case _ => Fp(12648080533535911531, 1066)
  }

  lemma PowerNormal(i: nat)
    requires i < POWERS
    ensures Power(i).fraction >= HALF
  {
  }

  lemma PowerSteps(i: nat)
    requires i + 1 < POWERS
    ensures 26 <= Power(i + 1).exponent - Power(i).exponent <= 27
  {
    hide Power;
    if i < 29 { StepsLow(i); } else if i < 58 { StepsMiddle(i); } else { StepsHigh(i); }
  }

  lemma StepsLow(i: nat)
    requires i < 29
    ensures 26 <= Power(i + 1).exponent - Power(i).exponent <= 27
  {
  }

  lemma StepsMiddle(i: nat)
    requires 29 <= i < 58
    ensures 26 <= Power(i + 1).exponent - Power(i).exponent <= 27
  {
  }

  lemma StepsHigh(i: nat)
    requires 58 <= i < 86
    ensures 26 <= Power(i + 1).exponent - Power(i).exponent <= 27
  {
  }

  lemma PowerEnds()
    ensures Power(0).exponent == -1220 && Power(86).exponent == 1066
  {
  }

  function Scaled(exponent: int, i: nat): int
    requires i < POWERS
  {
    exponent + Power(i).exponent + 64
  }

  /** How far the search is from the window, in the direction it is going. */
  function Distance(exponent: int, i: nat): nat
    requires i < POWERS
  {
    if Scaled(exponent, i) < -60 then POWERS - i else if Scaled(exponent, i) > -32 then i + 1 else 0
  }

  /** An estimate of the decimal exponent less than one off names a place inside the table. */
  lemma EstimateInTable(exponent: int, approximation: int)
    requires -1137 <= exponent <= 960
    requires -1.0 < approximation as real - (0 - (exponent + 87)) as real * 0.301_029_995_663_981_14 < 1.0
    ensures 0 <= (approximation + 348) / 8 < POWERS
  {
  }

  /**
   * The search for a usable power, from any starting place: it stays in the table, it never
   * turns back, and it ends inside the window.
   */
  method SelectPower(exponent: int, start: nat) returns (index: nat)
    requires -1137 <= exponent <= 960 && start < POWERS
    ensures index < POWERS && -60 <= Scaled(exponent, index) <= -32
    ensures Scaled(exponent, start) < -60 ==> index > start
    ensures Scaled(exponent, start) > -32 ==> index < start
  {
    hide Power;
    index := start;
    PowerEnds();
    while true
      invariant index < POWERS
      invariant Scaled(exponent, start) < -60 ==>
                  start <= index && (start == index || Scaled(exponent, index) <= -32)
      invariant Scaled(exponent, start) > -32 ==>
                  index <= start && (start == index || Scaled(exponent, index) >= -60)
      invariant -60 <= Scaled(exponent, start) <= -32 ==> start == index
      decreases Distance(exponent, index)
    {
      var e := exponent + Power(index).exponent + 64;
      if e < -60 {
        assert index < 86;
        PowerSteps(index);
        index := index + 1;
      } else if e > -32 {
        assert index > 0;
        PowerSteps(index - 1);
        index := index - 1;
      } else {
        break;
      }
    }
  }

  // ---------- The neighbours of a double ----------

  const HIDDEN: nat := 0x10_0000_0000_0000

  /** A positive finite double by its exponent and mantissa fields. */
  predicate Positive(encoded: nat, mantissa: nat) {
    encoded < 2047 && mantissa < HIDDEN && (encoded > 0 || mantissa > 0)
  }

  function Value(encoded: nat, mantissa: nat): Fp
    requires Positive(encoded, mantissa)
  {
    if encoded != 0 then Fp(mantissa + HIDDEN, encoded - 1075) else Fp(mantissa, -1074)
  }

  /** The upper and lower boundary of a double, and the double, at one normalised exponent. */
  datatype Bounds = Bounds(lower: u64, middle: u64, upper: u64, exponent: int)

  function Shift(w: Fp): nat
    requires 0 < w.fraction < 2 * HIDDEN
  {
    LeadingZeros(2 * w.fraction + 1)
  }

  lemma TimesMonotone(x: nat, p: nat, q: nat)
    requires p <= q
    ensures x * p <= x * q
  {
  }

  lemma ShiftTooSmall(x: nat, s: nat)
    requires s < 10 && x < 4 * HIDDEN
    ensures x * Pow2(s) < HALF
  {
    PowersMonotone(s, 9);
    PowerValues();
    TimesMonotone(x, Pow2(s), 512);
  }

  lemma ShiftTooLarge(x: nat, s: nat)
    requires (s >= 63 && x >= 3) || (s >= 11 && x >= 2 * HIDDEN)
    ensures x * Pow2(s) >= WORD_SIZE
  {
    PowerValues();
    if s >= 63 && x >= 3 {
      PowersMonotone(63, s);
      TimesMonotone(x, HALF, Pow2(s));
    } else {
      PowersAdd(10, 1);
      assert Pow2(1) == 2;
      PowersMonotone(11, s);
      TimesMonotone(x, 2048, Pow2(s));
    }
  }

  lemma ShiftRange(w: Fp)
    requires 0 < w.fraction < 2 * HIDDEN
    ensures 10 <= Shift(w) <= 62
    ensures w.fraction >= HIDDEN ==> Shift(w) == 10
  {
    hide Pow2;
    var x, s := 2 * w.fraction + 1, Shift(w);
    if s < 10 { ShiftTooSmall(x, s); }
    if s >= 63 || (w.fraction >= HIDDEN && s > 10) { ShiftTooLarge(x, s); }
  }

  /** The double and its upper boundary are normalised by neighbouring shifts. */
  lemma SameExponent(w: Fp)
    requires 0 < w.fraction < 2 * HIDDEN
    ensures LeadingZeros(w.fraction) == Shift(w) + 1
  {
    hide LeadingZeros, Pow2;
    NeighboursFit(w);
    var f, s := w.fraction, Shift(w);
    AtLeastHalf(f, s);
    var z := LeadingZeros(f);
    if z < s + 1 { UniqueShift(f, z, s + 1); }
    if z > s + 1 { UniqueShift(f, s + 1, z); }
  }

  lemma WholeMultiple(f: nat, t: nat, p: nat)
    requires p > 0 && (2 * f + 1) * p >= t * (2 * p)
    ensures f >= t
  {
    if f + 1 <= t {
      TimesMonotone(2 * p, f + 1, t);
      Doubling(f, p);
    }
  }

  /** Products used below, spelled out. */
  lemma Doubling(f: nat, p: nat)
    ensures (2 * f + 1) * p == 2 * (f * p) + p && (2 * p) * (f + 1) == 2 * (f * p) + 2 * p
    ensures f * (2 * p) == 2 * (f * p) && (f >= 1 ==> (2 * f - 1) * p == 2 * (f * p) - p)
    ensures f >= 1 ==> (4 * f - 1) * p == 4 * (f * p) - p
  {
  }

  lemma AtLeastHalf(f: nat, s: nat)
    requires s <= 62 && (2 * f + 1) * Pow2(s) >= HALF
    ensures f * Pow2(s + 1) >= HALF
  {
    hide Pow2;
    assert Pow2(63) == HALF by { PowerValues(); }
    PowersAdd(62 - s, s + 1);
    var t, p := Pow2(62 - s), Pow2(s);
    assert Pow2(s + 1) == 2 * p by { NextPower(s); }
    assert t * (2 * p) == HALF;
    WholeMultiple(f, t, p);
    TimesMonotone(2 * p, t, f);
  }

  lemma NextPower(s: nat)
    ensures Pow2(s + 1) == 2 * Pow2(s)
  {
  }

  function Neighbours(w: Fp): (b: Bounds)
    requires 0 < w.fraction < 2 * HIDDEN
    ensures b.upper >= HALF && b.exponent == w.exponent - 1 - Shift(w)
    ensures b.upper - b.middle == Pow2(Shift(w)) >= 1024
    ensures b.middle - b.lower >= 512 && b.lower >= 0
  {
    NeighboursFit(w);
    var s := Shift(w);
    var upper := Shl(2 * w.fraction + 1, s);
    var middle := Shl(w.fraction, s + 1);
    var lower := if w.fraction == HIDDEN then Shl(4 * w.fraction - 1, s - 1) else Shl(2 * w.fraction - 1, s);
    Bounds(lower, middle, upper, w.exponent - 1 - s)
  }

  lemma NeighboursFit(w: Fp)
    requires 0 < w.fraction < 2 * HIDDEN
    ensures var f, s := w.fraction, Shift(w);
            && 10 <= s <= 62
            && HALF <= (2 * f + 1) * Pow2(s) < WORD_SIZE
            && 0 <= f * Pow2(s + 1) < WORD_SIZE && 0 <= (2 * f - 1) * Pow2(s) < WORD_SIZE
            && 0 <= (4 * f - 1) * Pow2(s - 1) < WORD_SIZE
            && (2 * f + 1) * Pow2(s) - f * Pow2(s + 1) == Pow2(s) >= 1024
            && f * Pow2(s + 1) - (2 * f - 1) * Pow2(s) == Pow2(s)
            && f * Pow2(s + 1) - (4 * f - 1) * Pow2(s - 1) == Pow2(s - 1) >= 512
  {
    hide LeadingZeros, Pow2;
    ShiftRange(w);
    PowerValues();
    var f, s := w.fraction, Shift(w);
    PowersMonotone(10, s);
    PowersMonotone(9, s - 1);
    NextPower(s);
    NextPower(s - 1);
    var p, h := Pow2(s), Pow2(s - 1);
    Doubling(f, p);
    Doubling(f, h);
    assert f * p == 2 * (f * h);
    assert f * p >= p by { TimesMonotone(p, 1, f); }
  }

  // ---------- Digits ----------

  function Pow10(n: nat): (p: nat)
    ensures p >= 1
  {
    if n == 0 then 1 else 10 * Pow10(n - 1)
  }

  predicate AllDigits(ds: seq<byte>) {
    forall i :: 0 <= i < |ds| ==> Resp.IsDigit(ds[i])
  }

  lemma NumberPush(ds: seq<byte>, d: byte)
    requires AllDigits(ds) && d < 10
    ensures AllDigits(ds + [48 + d]) && Resp.Number(ds + [48 + d]) == 10 * Resp.Number(ds) + d
  {
    var all := ds + [48 + d];
    assert all[..|ds|] == ds;
    forall i | 0 <= i < |all| ensures Resp.IsDigit(all[i]) {
      assert i < |ds| ==> Resp.IsDigit(ds[i]);
    }
  }

  lemma NumberSplit(ds: seq<byte>)
    requires Resp.Digits(ds)
    ensures Resp.IsDigit(ds[|ds| - 1]) && AllDigits(ds[..|ds| - 1])
    ensures Resp.Number(ds) == 10 * Resp.Number(ds[..|ds| - 1]) + (ds[|ds| - 1] - 48)
  {
    var all := ds[..|ds| - 1];
    forall i | 0 <= i < |all| ensures Resp.IsDigit(all[i]) {
      assert Resp.IsDigit(ds[i]);
    }
  }

  /** A product, kept apart from the rest of the arithmetic. */
  function Times(a: int, b: int): int { a * b }

  /** What is scaled: the upper bound, how far below it the number and the lower bound are, and the binary point. */
  datatype Window = Window(upper: u64, distance: u64, delta: u64, shift: nat)

  predicate Ready(g: Window) {
    32 <= g.shift <= 60 && Pow2(g.shift) <= g.upper && 1 <= g.delta < g.upper && g.distance <= g.delta
  }

  /** The weight of a decimal place of the integer part. */
  function Place(power: nat, g: Window): nat { Pow10(power) * Pow2(g.shift) }

  /** A number times its decimal unit lies between the bounds. */
  ghost predicate Within(n: nat, power: int, g: Window) {
    if power >= 0
    then g.upper - g.delta <= Times(n, Place(power, g)) <= g.upper
    else Times(g.upper - g.delta, Pow10(-power)) <= Times(n, Pow2(g.shift)) <= Times(g.upper, Pow10(-power))
  }

  function Apart(a: int, b: int): nat { if a < b then b - a else a - b }

  /** How far a number times its decimal unit is from the scaled double. */
  function Off(n: nat, power: int, g: Window): nat {
    if power >= 0
    then Apart(Times(n, Place(power, g)), g.upper - g.distance)
    else Apart(Times(n, Pow2(g.shift)), Times(g.upper - g.distance, Pow10(-power)))
  }

  ghost predicate Between(ds: seq<byte>, power: int, g: Window)
    requires Resp.Digits(ds)
  {
    Within(Resp.Number(ds), power, g)
  }

  /** No number between the bounds at the same decimal unit is closer to the double. */
  ghost predicate Closest(ds: seq<byte>, power: int, g: Window)
    requires Resp.Digits(ds)
  {
    forall n: nat :: Within(n, power, g) ==> Off(Resp.Number(ds), power, g) <= Off(n, power, g)
  }

  /** A number times its decimal unit lies between the bounds and not on the lower one. */
  ghost predicate Inside(n: nat, power: int, g: Window) {
    if power >= 0
    then g.upper - g.delta < Times(n, Place(power, g)) <= g.upper
    else Times(g.upper - g.delta, Pow10(-power)) < Times(n, Pow2(g.shift)) <= Times(g.upper, Pow10(-power))
  }

  ghost predicate Outside(power: int, g: Window) {
    forall n: nat :: !Inside(n, power, g)
  }

  /** Every number that would need fewer digits is outside. */
  ghost predicate Shortest(power: int, g: Window) {
    forall q: int, n: nat :: q > power ==> !Inside(n, q, g)
  }

  /** A number at a coarser unit is also one at a finer unit. */
  lemma FinerInside(n: nat, power: int, g: Window)
    requires g.delta <= g.upper && Inside(n, power + 1, g)
    ensures Inside(10 * n, power, g)
  {
    hide Pow2, Pow10, Times;
    var s := Pow2(g.shift);
    TenFold(n, 0, s);
    ZeroTimes(s);
    if power >= 0 {
      TenTimes(power);
      PlaceFiner(n, power, g);
    } else {
      TenTimes(-power - 1);
      TimesTen(g.upper, Pow10(-power - 1));
      TimesTen(g.upper - g.delta, Pow10(-power - 1));
      if power == -1 { WholePlace(n, g); }
    }
  }

  lemma PlaceFiner(n: nat, power: nat, g: Window)
    ensures Times(n, Place(power + 1, g)) == Times(10 * n, Place(power, g))
  {
    hide Pow2, Pow10;
    TenTimes(power);
    TenPlaces(n, 0, Pow10(power), Pow2(g.shift));
  }

  lemma WholePlace(n: nat, g: Window)
    ensures Times(n, Place(0, g)) == Times(n, Pow2(g.shift)) && Pow10(0) == 1
    ensures Times(g.upper, 1) == g.upper && Times(g.upper - g.delta, 1) == g.upper - g.delta
  {
    assert Place(0, g) == Pow2(g.shift);
  }

  /** If nothing at one unit is inside, nothing at a coarser one is. */
  lemma {:induction false} NothingCoarser(power: int, q: int, n: nat, g: Window)
    requires g.delta <= g.upper && q >= power && Outside(power, g)
    ensures !Inside(n, q, g)
    decreases q - power
  {
    if q > power && Inside(n, q, g) {
      FinerInside(n, q - 1, g);
      NothingCoarser(power, q - 1, 10 * n, g);
    }
  }

  lemma ShortestFrom(power: int, g: Window)
    requires g.delta <= g.upper && Outside(power + 1, g)
    ensures Shortest(power, g)
  {
    hide Inside, Outside;
    forall q: int, n: nat | q > power ensures !Inside(n, q, g) {
      NothingCoarser(power + 1, q, n, g);
    }
  }

  /** Among the first candidates, taking the unit k times, none is closer to the target. */
  ghost predicate Best(r: nat, start: nat, unit: nat, target: nat, last: nat) {
    forall k: nat :: k <= last ==> Apart(r, target) <= Apart(start + Times(k, unit), target)
  }

  /** Among all candidates in the gap, none is closer to the target. */
  ghost predicate Nearest(r: nat, start: nat, unit: nat, target: nat, delta: nat) {
    forall k: nat :: start + Times(k, unit) <= delta ==> Apart(r, target) <= Apart(start + Times(k, unit), target)
  }

  lemma MoreTimes(j: nat, k: nat, unit: nat)
    requires j < k
    ensures Times(k, unit) >= Times(j, unit) + unit && Times(j + 1, unit) == Times(j, unit) + unit
  {
    TimesMonotone(unit, j + 1, k);
  }

  lemma BestStart(start: nat, unit: nat, target: nat)
    ensures Times(0, unit) == 0 && Best(start, start, unit, target, 0)
  {
  }

  /** A step that comes closer is best so far. */
  lemma BestStep(r: nat, start: nat, unit: nat, target: nat, j: nat)
    requires Best(r, start, unit, target, j) && r == start + Times(j, unit) && r < target
    requires r + unit < target || target - r > r + unit - target
    ensures Best(r + unit, start, unit, target, j + 1) && r + unit == start + Times(j + 1, unit)
  {
    hide Times;
    MoreTimes(j, j + 1, unit);
  }

  /** When no step comes closer within the gap, the last is best of all. */
  lemma BestEnd(r: nat, start: nat, unit: nat, target: nat, j: nat, delta: nat)
    requires Best(r, start, unit, target, j) && r == start + Times(j, unit) && r <= delta
    requires !(r < target && delta - r >= unit && (r + unit < target || target - r > r + unit - target))
    ensures Nearest(r, start, unit, target, delta)
  {
    hide Times;
    forall k: nat | start + Times(k, unit) <= delta ensures Apart(r, target) <= Apart(start + Times(k, unit), target) {
      if k > j { MoreTimes(j, k, unit); }
    }
  }

  lemma AtLeastOne(a: int, unit: nat, b: int)
    requires Times(a, unit) >= b >= unit > 0
    ensures a >= 1
  {
  }

  /**
   * Moves the last digit down while that brings it closer: never below zero, the digits and
   * the remainder always make up the same number, and no candidate in the gap is closer.
   */
  method Round(ds: seq<byte>, delta: u64, start: u64, unit: u64, distance: u64) returns (out: seq<byte>, remainder: u64)
    requires Resp.Digits(ds) && start <= delta && unit > 0
    requires Times(ds[|ds| - 1] - 48, unit) + start >= delta
    ensures Resp.Digits(out) && |out| == |ds|
    ensures Times(Resp.Number(out), unit) + remainder == Times(Resp.Number(ds), unit) + start
    ensures start <= remainder <= delta
    ensures Nearest(remainder, start, unit, distance, delta)
  {
    hide Times, Resp.Number, Best, Nearest, Apart;
    var n := |ds| - 1;
    ghost var j := 0;
    BestStart(start, unit, distance);
    NumberSplit(ds);
    var front, last := ds[..n], ds[n];
    remainder := start;
    while remainder < distance && Sub(delta, remainder) >= unit
          && (Add(remainder, unit) < distance || Sub(distance, remainder) > Sub(Add(remainder, unit), distance))
      invariant 48 <= last <= ds[n] && start <= remainder <= delta
      invariant Times(last - 48, unit) + remainder == Times(ds[n] - 48, unit) + start
      invariant j >= 0 && Best(remainder, start, unit, distance, j) && remainder == start + Times(j, unit)
      decreases delta - remainder
    {
      BestStep(remainder, start, unit, distance, j);
      j := j + 1;
      AtLeastOne(last - 48, unit, delta - remainder);
      OneLess(last - 48, unit);
      last := last - 1;
      remainder := Add(remainder, unit);
    }
    BestEnd(remainder, start, unit, distance, j, delta);
    out := front + [last];
    assert out == front + [48 + (last - 48)];
    NumberPush(front, last - 48);
    Regroup(Resp.Number(front), last - 48, ds[n] - 48, unit);
  }

  lemma OneLess(a: int, unit: nat)
    ensures Times(a - 1, unit) + unit == Times(a, unit)
  {
  }

  lemma Regroup(front: nat, a: nat, b: nat, unit: nat)
    ensures Times(10 * front + a, unit) - Times(10 * front + b, unit) == Times(a, unit) - Times(b, unit)
  {
    assert (10 * front + a) * unit == (10 * front) * unit + a * unit;
    assert (10 * front + b) * unit == (10 * front) * unit + b * unit;
  }

  lemma PointRange(n: nat)
    requires 32 <= n <= 60
    ensures 0x1_0000_0000 <= Pow2(n) <= 0x1000_0000_0000_0000
  {
    hide Pow2;
    PowersMonotone(32, n);
    PowersMonotone(n, 60);
    PowerValues();
  }

  lemma DivMod(x: nat, p: nat)
    requires p > 0
    ensures x == Times(x / p, p) + x % p && 0 <= x % p < p && x / p >= 0
  {
  }

  lemma QuotientBound(x: nat, p: nat)
    requires 0x1_0000_0000 <= p && x < WORD_SIZE
    ensures x / p < 0x1_0000_0000
  {
    var q := x / p;
    assert q * p <= x;
    if q >= 0x1_0000_0000 {
      ProductAtLeast(q, p);
    }
  }

  lemma ProductAtLeast(q: nat, p: nat)
    requires q >= 0x1_0000_0000 && p >= 0x1_0000_0000
    ensures q * p >= WORD_SIZE
  {
    TimesMonotone(q, 0x1_0000_0000, p);
  }

  lemma DigitBound(x: nat, p: nat)
    requires p > 0 && x < 10 * p
    ensures 0 <= x / p < 10
  {
  }

  // ---------- The integer part ----------

  /** Digits emitted so far and what is left of the integer part make up the upper bound. */
  ghost predicate Emitting(ds: seq<byte>, left: nat, integer: nat, fractional: nat, g: Window) {
    && AllDigits(ds) && (ds != [] ==> Resp.Number(ds) >= 1)
    && integer < Pow10(left) && fractional < Pow2(g.shift)
    && Times(Resp.Number(ds), Place(left, g)) + Times(integer, Pow2(g.shift)) + fractional == g.upper
    && Times(integer, Pow2(g.shift)) + fractional > g.delta
  }

  /** While digits are being emitted, no number at the current place is inside. */
  lemma EmittingOutside(ds: seq<byte>, left: nat, integer: nat, fractional: nat, g: Window)
    requires Emitting(ds, left, integer, fractional, g) && g.delta <= g.upper
    ensures Outside(left, g)
  {
    hide Times, Place, Pow10, Pow2, Resp.Number;
    var r := Times(integer, Pow2(g.shift)) + fractional;
    RestBelowPlace(integer, fractional, left, g);
    forall n: nat ensures !Inside(n, left, g) {
      if Inside(n, left, g) {
        UnitsBelow(n, Resp.Number(ds), Place(left, g), r);
        NotNegative(Resp.Number(ds) - n, Place(left, g));
      }
    }
  }

  lemma NotNegative(a: nat, b: nat)
    ensures Times(a, b) >= 0
  {
  }

  lemma EmitStart(g: Window)
    requires Ready(g)
    ensures Pow2(g.shift) > 0 && 0 <= g.upper / Pow2(g.shift) < WORD_SIZE && 0 <= g.upper % Pow2(g.shift) < WORD_SIZE
    ensures Emitting([], 10, g.upper / Pow2(g.shift), g.upper % Pow2(g.shift), g)
  {
    hide Pow2, Times;
    var s := Pow2(g.shift);
    PointRange(g.shift);
    DivMod(g.upper, s);
    QuotientBound(g.upper, s);
    ZeroTimes(Place(10, g));
    assert Pow10(10) == 10_000_000_000;
  }

  lemma ZeroTimes(p: nat)
    ensures Times(0, p) == 0
  {
  }

  /** A digit moves from the integer part to the emitted number. */
  lemma MoveDigit(n: nat, left: nat, integer: nat, g: Window)
    ensures var p, s := Pow10(left), Pow2(g.shift);
            var d, rest := integer / p, integer % p;
            && Times(integer, s) == Times(d, Place(left, g)) + Times(rest, s)
            && Times(n, Place(left + 1, g)) + Times(d, Place(left, g)) == Times(10 * n + d, Place(left, g))
  {
    hide Pow10, Pow2;
    var p, s := Pow10(left), Pow2(g.shift);
    TenTimes(left);
    DivMod(integer, p);
    Distribute(integer / p, p, integer % p, s);
    TenPlaces(n, integer / p, p, s);
  }

  lemma Distribute(d: nat, p: nat, rest: nat, s: nat)
    ensures (d * p + rest) * s == d * (p * s) + rest * s
  {
    assert (d * p + rest) * s == d * p * s + rest * s;
    assert d * p * s == d * (p * s);
  }

  lemma TenPlaces(n: nat, d: nat, p: nat, s: nat)
    ensures n * (10 * p * s) + d * (p * s) == (10 * n + d) * (p * s)
  {
    var q := p * s;
    assert 10 * p * s == 10 * q;
    assert n * (10 * q) == (10 * n) * q;
  }

  lemma TenTimes(n: nat)
    ensures Pow10(n + 1) == 10 * Pow10(n)
  {
  }

  function Push(ds: seq<byte>, d: nat): seq<byte>
    requires d < 10
  {
    if d != 0 || ds != [] then ds + [48 + d] else ds
  }

  lemma PushNumber(ds: seq<byte>, d: nat)
    requires d < 10 && AllDigits(ds) && (ds != [] ==> Resp.Number(ds) >= 1)
    ensures var next := Push(ds, d);
            && AllDigits(next) && Resp.Number(next) == 10 * Resp.Number(ds) + d
            && (next != [] ==> Resp.Number(next) >= 1 && next[|next| - 1] - 48 == d)
  {
    hide Resp.Number;
    NoDigits();
    if d != 0 || ds != [] { NumberPush(ds, d); }
  }

  lemma NoDigits()
    ensures Resp.Number([]) == 0
  {
  }

  /** One digit of the integer part. */
  lemma EmitStep(ds: seq<byte>, left: nat, integer: nat, fractional: nat, g: Window)
    requires Emitting(ds, left + 1, integer, fractional, g)
    ensures var d, rest := integer / Pow10(left), integer % Pow10(left);
            && 0 <= d < 10 && 0 <= rest < Pow10(left) && AllDigits(Push(ds, d))
            && (Push(ds, d) != [] ==> Resp.Number(Push(ds, d)) >= 1 && Push(ds, d)[|Push(ds, d)| - 1] - 48 == d)
            && Times(Resp.Number(Push(ds, d)), Place(left, g)) + Times(rest, Pow2(g.shift)) + fractional == g.upper
            && Times(d, Place(left, g)) + Times(rest, Pow2(g.shift)) + fractional > g.delta
  {
    hide Pow2, Pow10, Resp.Number, Times, Place;
    TenTimes(left);
    DigitBound(integer, Pow10(left));
    DivMod(integer, Pow10(left));
    PushNumber(ds, integer / Pow10(left));
    MoveDigit(Resp.Number(ds), left, integer, g);
  }

  /** The words of an integer step are in range; before the first digit nothing is close enough. */
  lemma Fits(ds: seq<byte>, left: nat, rest: nat, fractional: nat, g: Window)
    requires AllDigits(ds) && (ds != [] ==> Resp.Number(ds) >= 1)
    requires Times(Resp.Number(ds), Place(left, g)) + Times(rest, Pow2(g.shift)) + fractional == g.upper
    ensures 0 <= rest * Pow2(g.shift) == Times(rest, Pow2(g.shift))
    ensures 0 <= Times(rest, Pow2(g.shift)) + fractional < WORD_SIZE
    ensures g.delta < g.upper && Times(rest, Pow2(g.shift)) + fractional <= g.delta ==> ds != []
    ensures ds != [] ==> 0 < Pow10(left) * Pow2(g.shift) == Place(left, g) < WORD_SIZE
  {
    hide Resp.Number, Pow2, Pow10;
    var n, u := Resp.Number(ds), Place(left, g);
    NoDigits();
    assert n * u >= 0 && rest * Pow2(g.shift) >= 0;
    if ds != [] { OneTimes(n, u); }
  }

  lemma OneTimes(n: nat, p: nat)
    requires n >= 1
    ensures p <= n * p
  {
  }

  /** A multiple below the bound is some number of units below the largest one. */
  lemma UnitsBelow(n: nat, most: nat, unit: nat, r: nat)
    requires Times(n, unit) <= Times(most, unit) + r && r < unit
    ensures n <= most && Times(most - n, unit) == Times(most, unit) - Times(n, unit)
  {
    if n > most { MoreTimes(most, n, unit); }
    assert (most - n) * unit == most * unit - n * unit;
  }

  lemma RestBelowPlace(rest: nat, fractional: nat, left: nat, g: Window)
    requires rest < Pow10(left) && fractional < Pow2(g.shift)
    ensures Times(rest, Pow2(g.shift)) + fractional < Place(left, g)
  {
    hide Pow10, Pow2;
    TimesMonotone(Pow2(g.shift), rest + 1, Pow10(left));
  }

  lemma RoundedInteger(before: seq<byte>, ds: seq<byte>, r: nat, remainder: nat, left: nat, g: Window)
    requires Resp.Digits(ds) && AllDigits(before) && 0 <= remainder <= g.delta && r < Place(left, g)
    requires Times(Resp.Number(before), Place(left, g)) + r == g.upper
    requires Times(Resp.Number(ds), Place(left, g)) + remainder == Times(Resp.Number(before), Place(left, g)) + r
    requires Nearest(remainder, r, Place(left, g), g.distance, g.delta)
    ensures Between(ds, left, g) && Closest(ds, left, g)
  {
    hide Times, Place, Resp.Number;
    forall n: nat | Within(n, left, g) ensures Off(Resp.Number(ds), left, g) <= Off(n, left, g) {
      UnitsBelow(n, Resp.Number(before), Place(left, g), r);
      var k: nat := Resp.Number(before) - n;
      assert r + Times(k, Place(left, g)) == g.upper - Times(n, Place(left, g));
    }
  }

  /** Digits of the integer part: a finished result, or all ten places done. */
  method IntegerDigits(g: Window) returns (done: bool, digits: seq<byte>, remaining: nat, fractional: u64)
    requires Ready(g)
    ensures done ==>
              && Resp.Digits(digits) && Between(digits, remaining, g) && Closest(digits, remaining, g)
              && Shortest(remaining, g)
    ensures !done ==> remaining == 0 && Emitting(digits, 0, 0, fractional, g)
  {
    hide Pow2, Resp.Number, Pow10, Times, Place, Between, Closest, Nearest, Shortest, Outside;
    EmitStart(g);
    var one := Pow2(g.shift);
    var integer: u64 := g.upper / one;
    fractional := g.upper % one;
    digits, remaining := [], 10;
    var divisor: u64 := 1_000_000_000;
    assert divisor == Pow10(9) by { Billion(); }
    while remaining > 0
      invariant 0 <= remaining <= 10 && Emitting(digits, remaining, integer, fractional, g)
      invariant remaining > 0 ==> divisor == Pow10(remaining - 1)
    {
      EmittingOutside(digits, remaining, integer, fractional, g);
      ShortestFrom(remaining - 1, g);
      EmitStep(digits, remaining - 1, integer, fractional, g);
      var digit := integer / divisor;
      if digit != 0 || digits != [] {
        digits := digits + [48 + digit];
      }
      integer := integer % divisor;
      remaining := remaining - 1;
      Fits(digits, remaining, integer, fractional, g);
      var remainder := Add(Shl(integer, g.shift), fractional);
      if remainder <= g.delta {
        var unit := Shl(divisor, g.shift);
        ghost var emitted := digits;
        var rest;
        digits, rest := Round(digits, g.delta, remainder, unit, g.distance);
        RestBelowPlace(integer, fractional, remaining, g);
        RoundedInteger(emitted, digits, remainder, rest, remaining, g);
        return true, digits, remaining, fractional;
      }
      if remaining > 0 { TenTimes(remaining - 1); }
      divisor := divisor / 10;
    }
    assert integer == 0 by { NothingLeft(); }
    done := false;
  }

  lemma Billion()
    ensures Pow10(9) == 1_000_000_000
  {
  }

  lemma NothingLeft()
    ensures Pow10(0) == 1
  {
  }

  // ---------- The fraction ----------

  /** After j places of the fraction: everything scaled by ten to the j. */
  ghost predicate Fraction(ds: seq<byte>, j: nat, fractional: nat, delta: nat, g: Window) {
    && Resp.Digits(ds) && fractional < Pow2(g.shift) && delta == Times(g.delta, Pow10(j)) && delta <= fractional
    && Times(Resp.Number(ds), Pow2(g.shift)) + fractional == Times(g.upper, Pow10(j))
  }

  lemma FractionStart(ds: seq<byte>, fractional: nat, g: Window)
    requires Ready(g) && Emitting(ds, 0, 0, fractional, g)
    ensures Fraction(ds, 0, fractional, g.delta, g)
  {
    hide Pow2, Resp.Number;
    NoDigits();
    NothingLeft();
    assert Place(0, g) == Pow2(g.shift);
    assert ds != [];
  }

  /** While the fraction goes on, no number at the current place is inside. */
  lemma FractionOutside(ds: seq<byte>, j: nat, fractional: nat, delta: nat, g: Window)
    requires Ready(g) && Fraction(ds, j, fractional, delta, g)
    ensures Outside(0 - j, g)
  {
    hide Times, Place, Pow10, Pow2, Resp.Number;
    var s, power := Pow2(g.shift), 0 - j;
    Difference(g.upper, g.delta, Pow10(j));
    forall n: nat ensures !Inside(n, power, g) {
      if j == 0 { WholePlace(n, g); }
      if Inside(n, power, g) {
        UnitsBelow(n, Resp.Number(ds), s, fractional);
        NotNegative(Resp.Number(ds) - n, s);
      }
    }
  }

  /** One place of the fraction. */
  lemma FractionStep(ds: seq<byte>, j: nat, fractional: nat, delta: nat, g: Window)
    requires Ready(g) && Fraction(ds, j, fractional, delta, g)
    ensures 0 <= 10 * fractional < WORD_SIZE && 0 <= 10 * delta < WORD_SIZE && Pow2(g.shift) > 0
    ensures var s := Pow2(g.shift);
            var d, rest := 10 * fractional / s, 10 * fractional % s;
            && 0 <= d < 10 && 0 <= rest < s && Resp.Digits(ds + [48 + d])
            && 10 * delta == Times(g.delta, Pow10(j + 1))
            && Times(Resp.Number(ds + [48 + d]), s) + rest == Times(g.upper, Pow10(j + 1))
            && Times(d, s) + rest >= 10 * delta
  {
    hide Pow2, Resp.Number, Times, Pow10;
    var s := Pow2(g.shift);
    PointRange(g.shift);
    DigitBound(10 * fractional, s);
    DivMod(10 * fractional, s);
    var d := 10 * fractional / s;
    NumberPush(ds, d);
    TenTimes(j);
    TenFold(Resp.Number(ds), d, s);
    TimesTen(g.delta, Pow10(j));
    TimesTen(g.upper, Pow10(j));
  }

  lemma TenFold(n: nat, d: nat, s: nat)
    ensures Times(10 * n + d, s) == 10 * Times(n, s) + Times(d, s)
  {
    assert (10 * n + d) * s == (10 * n) * s + d * s;
    assert (10 * n) * s == 10 * (n * s);
  }

  lemma TimesTen(a: nat, b: nat)
    ensures Times(a, 10 * b) == 10 * Times(a, b)
  {
  }

  lemma RoundedFraction(ds: seq<byte>, out: seq<byte>, j: nat, rest: nat, remainder: nat, g: Window)
    requires AllDigits(ds) && Resp.Digits(out) && j > 0 && g.distance <= g.delta <= g.upper
    requires 0 <= remainder <= Times(g.delta, Pow10(j)) && rest < Pow2(g.shift)
    requires Times(Resp.Number(ds), Pow2(g.shift)) + rest == Times(g.upper, Pow10(j))
    requires Times(Resp.Number(out), Pow2(g.shift)) + remainder == Times(Resp.Number(ds), Pow2(g.shift)) + rest
    requires 0 <= Times(g.distance, Pow10(j))
    requires Nearest(remainder, rest, Pow2(g.shift), Times(g.distance, Pow10(j)), Times(g.delta, Pow10(j)))
    ensures Between(out, 0 - j, g) && Closest(out, 0 - j, g)
  {
    hide Resp.Number, Pow2, Pow10, Times;
    Difference(g.upper, g.delta, Pow10(j));
    Difference(g.upper, g.distance, Pow10(j));
    var one := Pow2(g.shift);
    var power := 0 - j;
    forall n: nat | Within(n, power, g) ensures Off(Resp.Number(out), power, g) <= Off(n, power, g) {
      UnitsBelow(n, Resp.Number(ds), one, rest);
      var k: nat := Resp.Number(ds) - n;
      assert rest + Times(k, one) == Times(g.upper, Pow10(j)) - Times(n, one);
    }
  }

  lemma Difference(a: nat, b: nat, p: nat)
    ensures Times(a - b, p) == Times(a, p) - Times(b, p)
  {
  }

  /** The power of ten and the scaled distance stay below the scaled gap. */
  lemma UnitFits(g: Window, j: nat, delta: nat)
    requires Ready(g) && delta == Times(g.delta, Pow10(j))
    ensures 0 <= g.distance * Pow10(j) == Times(g.distance, Pow10(j)) <= delta && Pow10(j) <= delta
  {
    hide Pow10, Pow2;
    TimesMonotone(Pow10(j), g.distance, g.delta);
    OneTimes(g.delta, Pow10(j));
  }

  /** Digits of the fraction, until they are close enough. */
  method FractionDigits(g: Window, start: seq<byte>, first: u64) returns (digits: seq<byte>, remaining: int)
    requires Ready(g) && Emitting(start, 0, 0, first, g)
    ensures Resp.Digits(digits) && remaining < 0
    ensures Between(digits, remaining, g) && Closest(digits, remaining, g) && Shortest(remaining, g)
  {
    hide Pow2, Resp.Number, Pow10, Times, Between, Closest, Nearest, Emitting, Shortest, Outside;
    var one := Pow2(g.shift);
    FractionStart(start, first, g);
    PointRange(g.shift);
    var fractional, delta, unit: u64 := first, g.delta, 10;
    digits, remaining := start, 0;
    ghost var j := 0;
    assert Pow10(1) == 10 by { TenTimes(0); NothingLeft(); }
    while true
      invariant remaining == -j && Fraction(digits, j, fractional, delta, g) && delta > 0
      invariant unit == Pow10(j + 1) && unit < WORD_SIZE
      decreases one - delta
    {
      FractionOutside(digits, j, fractional, delta, g);
      ShortestFrom(remaining - 1, g);
      FractionStep(digits, j, fractional, delta, g);
      fractional := Mul(fractional, 10);
      delta := Mul(delta, 10);
      remaining := remaining - 1;
      j := j + 1;
      var digit := fractional / one;
      if digit != 0 || digits != [] {
        digits := digits + [48 + digit];
      }
      fractional := fractional % one;
      UnitFits(g, j, delta);
      if fractional < delta {
        ghost var emitted, rest := digits, fractional;
        var end;
        digits, end := Round(digits, delta, fractional, one, Mul(g.distance, unit));
        RoundedFraction(emitted, digits, j, rest, end, g);
        return;
      }
      TenTimes(j);
      unit := Mul(unit, 10);
    }
  }

  // ---------- From a double to its digits ----------

  /** The scaled bounds of a double at a power of the table. */
  function Framed(w: Fp, index: nat): (g: Window)
    requires 0 < w.fraction < 2 * HIDDEN && index < POWERS
    requires -60 <= Scaled(w.exponent - 1 - Shift(w), index) <= -32
    ensures Ready(g)
  {
    FramedFits(w, index);
    var b, p := Neighbours(w), Power(index).fraction;
    var upper := Sub(Scale(b.upper, p), 1);
    var lower := Add(Scale(b.lower, p), 1);
    Window(upper, Sub(upper, Scale(b.middle, p)), Sub(upper, lower), -Scaled(b.exponent, index))
  }

  lemma FramedFits(w: Fp, index: nat)
    requires 0 < w.fraction < 2 * HIDDEN && index < POWERS
    requires -60 <= Scaled(w.exponent - 1 - Shift(w), index) <= -32
    ensures var b, p := Neighbours(w), Power(index).fraction;
            var u, m, l := Scale(b.upper, p), Scale(b.middle, p), Scale(b.lower, p);
            && u >= HALF / 2 && u >= m + 512 && m >= l + 256
            && Pow2(-Scaled(b.exponent, index)) <= u - 1
  {
    hide Pow2, Power, Scale, Neighbours, Shift;
    var b, p := Neighbours(w), Power(index).fraction;
    PowerNormal(index);
    ScaleLarge(b.upper, p);
    ScaleGap(b.upper, b.middle, 512, p);
    ScaleGap(b.middle, b.lower, 256, p);
    PointRange(-Scaled(b.exponent, index));
  }

  lemma ExponentRange(encoded: nat, mantissa: nat)
    requires Positive(encoded, mantissa)
    ensures var w := Value(encoded, mantissa);
            && 0 < w.fraction < 2 * HIDDEN
            && -1137 <= w.exponent - 1 - Shift(w) <= 960
  {
    hide Pow2, LeadingZeros;
    ShiftRange(Value(encoded, mantissa));
  }

  /**
   * The significant digits of any positive finite double and their power of ten, whatever
   * power the search starts from: at least one digit, every digit between zero and nine, and
   * the number they spell within the scaled bounds, as close to the double as any other of
   * its unit there, and no number of a coarser unit inside.
   */
  method Digits(encoded: nat, mantissa: nat, start: nat) returns (digits: seq<byte>, power: int, index: nat)
    requires Positive(encoded, mantissa) && start < POWERS
    ensures Resp.Digits(digits) && index < POWERS
    ensures var w := Value(encoded, mantissa);
            && -60 <= Scaled(w.exponent - 1 - Shift(w), index) <= -32
            && Between(digits, power - (348 - 8 * index), Framed(w, index))
            && Closest(digits, power - (348 - 8 * index), Framed(w, index))
            && Shortest(power - (348 - 8 * index), Framed(w, index))
  {
    hide Pow2, LeadingZeros, Power, Between, Closest, Shortest, Emitting, Scale;
    ExponentRange(encoded, mantissa);
    var w := Value(encoded, mantissa);
    var upper := Normalize(Fp(2 * w.fraction + 1, w.exponent - 1));
    index := SelectPower(upper.exponent, start);
    var g := Frame(w, upper, index);
    var done, remaining, fractional;
    done, digits, remaining, fractional := IntegerDigits(g);
    power := 348 - 8 * index + remaining;
    if !done {
      var left;
      digits, left := FractionDigits(g, digits, fractional);
      power := 348 - 8 * index + left;
    }
  }

  /** Scales the double and its two boundaries, and moves the boundaries inwards. */
  method Frame(w: Fp, upper: Fp, index: nat) returns (g: Window)
    requires 0 < w.fraction < 2 * HIDDEN && index < POWERS
    requires upper == Normalize(Fp(2 * w.fraction + 1, w.exponent - 1))
    requires -60 <= Scaled(upper.exponent, index) <= -32
    ensures upper.exponent == w.exponent - 1 - Shift(w)
    ensures g == Framed(w, index)
  {
    hide Pow2, LeadingZeros, Power, Scale;
    NeighboursFit(w);
    SameExponent(w);
    FramedFits(w, index);
    var shift := if w.fraction == HIDDEN then 2 else 1;
    var doubled := if shift == 2 then 4 * w.fraction - 1 else 2 * w.fraction - 1;
    var lower := Fp(Shl(doubled, w.exponent - shift - upper.exponent),
                    upper.exponent);
    var power := Power(index);
    var middle := Multiply(Normalize(w), power);
    var high, low := Multiply(upper, power), Multiply(lower, power);
    var top, bottom := Sub(high.fraction, 1), Add(low.fraction, 1);
    g := Window(top, Sub(top, middle.fraction), Sub(top, bottom), -high.exponent);
  }
}
