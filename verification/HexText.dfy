/**
 * Hexadecimal scores as they are written: digits in either letter case, with any leading
 * zeros and a point anywhere, a sign, and an exponent behind either mark. Whatever is written
 * this way is read as the number it spells.
 */
module HexText {
  import opened Crc
  import opened Format
  import opened Grisu
  import opened HexScore
  import Resp

  const LOWER: Bytes := [48, 49, 50, 51, 52, 53, 54, 55, 56, 57, 97, 98, 99, 100, 101, 102]
  const UPPER: Bytes := [48, 49, 50, 51, 52, 53, 54, 55, 56, 57, 65, 66, 67, 68, 69, 70]

  function Glyph(d: nat, upper: bool): byte
    requires d < 16
  {
    if upper then UPPER[d] else LOWER[d]
  }

  /** A byte is a digit exactly when it is one of the twenty-two, and then it is that one. */
  lemma DigitIs(b: byte, d: nat)
    ensures HexDigit(b) == Some(d) <==> d < 16 && (b == LOWER[d] || b == UPPER[d])
    ensures HexDigit(b).Some? <==> b in LOWER || b in UPPER
  {
    if HexDigit(b).Some? {
      var v := HexDigit(b).value;
      assert LOWER[v] in LOWER && UPPER[v] in UPPER;
    }
    if b in LOWER {
      var i :| 0 <= i < 16 && LOWER[i] == b;
    }
    if b in UPPER {
      var i :| 0 <= i < 16 && UPPER[i] == b;
    }
  }

  function Pow16(n: nat): (p: nat)
    ensures p >= 1
  {
    if n == 0 then 1 else 16 * Pow16(n - 1)
  }

  /** A number in as many digits as there are choices of a letter case. */
  function Spelled(m: nat, caps: seq<bool>): (s: Bytes)
    ensures |s| == |caps|
  {
    if caps == [] then []
    else Spelled(m / 16, caps[..|caps| - 1]) + [Glyph(m % 16, caps[|caps| - 1])]
  }

  /** A number followed by n more digits that spell m. */
  function Joined(a: nat, n: nat, m: nat): nat {
    NotNegative(a, Pow16(n));
    Times(a, Pow16(n)) + m
  }

  lemma JoinedNext(a: nat, n: nat, m: nat)
    ensures 16 * Joined(a, n, m / 16) + m % 16 == Joined(a, n + 1, m)
  {
    hide Pow16;
    assert Pow16(n + 1) == 16 * Pow16(n) by { Sixteen(n); }
    assert a * (16 * Pow16(n)) == 16 * (a * Pow16(n));
  }

  lemma Sixteen(n: nat)
    ensures Pow16(n + 1) == 16 * Pow16(n)
  {
  }

  lemma ByteReads(s: Bytes, b: byte)
    requires ReadMantissa(s).Some?
    ensures ReadMantissa(s + [b]) == NextByte(ReadMantissa(s).value, b)
  {
    hide NextByte;
    assert (s + [b])[..|s|] == s;
  }

  lemma DigitReads(a: Mantissa, d: nat, upper: bool)
    requires d < 16
    ensures NextByte(a, Glyph(d, upper))
            == Some(Mantissa(16 * a.m + d, a.digits + 1, a.fraction + (if a.point then 1 else 0), a.point))
  {
    hide HexDigit;
    DigitIs(Glyph(d, upper), d);
    NotPoint(Glyph(d, upper));
  }

  lemma SpelledLast(m: nat, caps: seq<bool>)
    requires caps != []
    ensures Spelled(m, caps) == Spelled(m / 16, caps[..|caps| - 1]) + [Glyph(m % 16, caps[|caps| - 1])]
  {
  }

  /** Digits read on from what was read before them. */
  lemma {:induction false} DigitsRead(s: Bytes, m: nat, caps: seq<bool>)
    requires ReadMantissa(s).Some? && m < Pow16(|caps|)
    ensures var a, n := ReadMantissa(s).value, |caps|;
            ReadMantissa(s + Spelled(m, caps))
            == Some(Mantissa(Joined(a.m, n, m), a.digits + n, a.fraction + (if a.point then n else 0), a.point))
    decreases |caps|
  {
    hide ReadMantissa, NextByte, Spelled, Joined, Glyph;
    if caps == [] {
      assert s + Spelled(m, caps) == s;
      assert Joined(ReadMantissa(s).value.m, 0, 0) == ReadMantissa(s).value.m by {
        NothingJoined(ReadMantissa(s).value.m);
      }
    } else {
      var n := |caps| - 1;
      var front, last := Spelled(m / 16, caps[..n]), Glyph(m % 16, caps[n]);
      assert m / 16 < Pow16(n) by { Sixteen(n); }
      DigitsRead(s, m / 16, caps[..n]);
      SpelledLast(m, caps);
      assert s + Spelled(m, caps) == (s + front) + [last];
      ByteReads(s + front, last);
      DigitReads(ReadMantissa(s + front).value, m % 16, caps[n]);
      JoinedNext(ReadMantissa(s).value.m, n, m);
    }
  }

  lemma NothingJoined(a: nat)
    ensures Joined(a, 0, 0) == a
  {
  }

  lemma NotPoint(b: byte)
    requires HexDigit(b).Some?
    ensures b != 46 && b != 112 && b != 80
  {
  }

  /** A mantissa without a point, or with one between two runs of digits. */
  datatype Numeral = Numeral(whole: nat, wholeCaps: seq<bool>, fraction: nat, fractionCaps: seq<bool>, point: bool)

  predicate Fits(t: Numeral) {
    && t.whole < Pow16(|t.wholeCaps|) && t.fraction < Pow16(|t.fractionCaps|)
    && (!t.point ==> t.fractionCaps == []) && |t.wholeCaps| + |t.fractionCaps| > 0
  }

  function Text(t: Numeral): Bytes {
    Spelled(t.whole, t.wholeCaps) + (if t.point then [46] + Spelled(t.fraction, t.fractionCaps) else [])
  }

  /** The number all digits spell, the point left out. */
  function Digits(t: Numeral): nat { Joined(t.whole, |t.fractionCaps|, t.fraction) }

  /** Every mantissa reads as its digits, with the places behind the point counted. */
  lemma MantissaReads(t: Numeral)
    requires Fits(t)
    ensures ReadMantissa(Text(t))
            == Some(Mantissa(Digits(t), |t.wholeCaps| + |t.fractionCaps|, |t.fractionCaps|, t.point))
  {
    hide Spelled, ReadMantissa, Joined, Pow16;
    var whole := Spelled(t.whole, t.wholeCaps);
    assert ReadMantissa([]) == Some(Mantissa(0, 0, 0, false)) by { NothingRead(); }
    DigitsRead([], t.whole, t.wholeCaps);
    assert [] + whole == whole;
    assert Joined(0, |t.wholeCaps|, t.whole) == t.whole by { NoneBefore(|t.wholeCaps|, t.whole); }
    if t.point {
      ByteReads(whole, 46);
      DigitsRead(whole + [46], t.fraction, t.fractionCaps);
      assert Text(t) == (whole + [46]) + Spelled(t.fraction, t.fractionCaps);
    } else {
      assert Text(t) == whole;
      assert Digits(t) == t.whole by { NoneAfter(t); }
    }
  }

  lemma NothingRead()
    ensures ReadMantissa([]) == Some(Mantissa(0, 0, 0, false))
  {
  }

  lemma NoneBefore(n: nat, m: nat)
    ensures Joined(0, n, m) == m
  {
  }

  lemma NoneAfter(t: Numeral)
    requires Fits(t) && !t.point
    ensures Digits(t) == t.whole
  {
    assert Pow16(0) == 1;
  }

  predicate Unmarked(s: Bytes) {
    forall i :: 0 <= i < |s| ==> s[i] != 112 && s[i] != 80
  }

  lemma {:induction false} SpelledUnmarked(m: nat, caps: seq<bool>)
    ensures Unmarked(Spelled(m, caps))
  {
    if caps != [] {
      SpelledUnmarked(m / 16, caps[..|caps| - 1]);
      DigitIs(Glyph(m % 16, caps[|caps| - 1]), m % 16);
      NotPoint(Glyph(m % 16, caps[|caps| - 1]));
    }
  }

  /** The exponent starts behind the first mark, whichever letter case it has. */
  lemma {:induction false} MarkIs(s: Bytes, t: Bytes)
    requires Unmarked(s) && (t != [] ==> t[0] == 112 || t[0] == 80)
    ensures Mark(s + t) == |s|
  {
    if s == [] {
      assert s + t == t;
    } else {
      assert (s + t)[1..] == s[1..] + t;
      MarkIs(s[1..], t);
    }
  }

  datatype Sign = Plain | Plus | Minus

  function SignText(sign: Sign): Bytes {
    match sign
    case Plain => []
    case Plus => [43]
    case Minus => [45]
  }

  /** An exponent behind its mark: with an upper-case mark or not, a sign, and a decimal number. */
  datatype Exponent = NoExponent | Exponent(upper: bool, sign: Sign, n: nat)

  function ExponentText(e: Exponent): Bytes {
    if e.NoExponent? then []
    else [if e.upper then 80 else 112] + (SignText(e.sign) + Resp.Decimal(e.n))
  }

  function ExponentValue(e: Exponent): int {
    if e.NoExponent? then 0 else if e.sign.Minus? then 0 - e.n else e.n
  }

  /** A whole score: its sign, the two bytes of its prefix, its mantissa and its exponent. */
  function ScoreText(sign: Sign, prefix: Bytes, t: Numeral, e: Exponent): Bytes {
    SignText(sign) + (prefix + (Text(t) + ExponentText(e)))
  }

  /** What a number times a power of two is read as. */
  function Judged(negative: bool, m: nat, x: int): Score {
    if m == 0 then Zero
    else if Overflows(Exact(m, x)) || Rounded(Exact(m, x)) == 0 then NoScore
    else Finite(negative, Rounded(Exact(m, x)), Grid(Top(Exact(m, x))))
  }

  lemma PowerReads(e: Exponent)
    requires e.Exponent?
    ensures ReadPower(SignText(e.sign) + Resp.Decimal(e.n)) == Some(ExponentValue(e))
  {
    hide Resp.Decimal, Resp.Number;
    var digits := Resp.Decimal(e.n);
    Resp.DecimalValue(e.n);
    assert Resp.IsDigit(digits[0]);
    var s := SignText(e.sign) + digits;
    match e.sign
    case Plain => assert s == digits;
    case Plus => assert s[0] == 43 && s[1..] == digits;
    case Minus => assert s[0] == 45 && s[1..] == digits;
  }

  lemma SignReads(sign: Sign, prefix: Bytes, rest: Bytes)
    requires |prefix| == 2 && prefix[0] == 48
    ensures HexScore.Unsigned(SignText(sign) + (prefix + rest)) == prefix + rest
    ensures IsNegative(SignText(sign) + (prefix + rest)) <==> sign.Minus?
  {
    var s := SignText(sign) + (prefix + rest);
    if sign.Plain? {
      assert s == prefix + rest;
    } else {
      assert s[1..] == prefix + rest;
    }
  }

  /** The mantissa and the exponent are told apart, whichever mark is between them. */
  lemma BodyReads(t: Numeral, e: Exponent)
    ensures MantissaText(Text(t) + ExponentText(e)) == Text(t)
    ensures ReadPower(PowerText(Text(t) + ExponentText(e))) == Some(ExponentValue(e))
  {
    hide ReadPower, Mark, Spelled, Text, SignText, Resp.Decimal;
    var m, x := Text(t), ExponentText(e);
    TextUnmarked(t);
    MarkIs(m, x);
    assert (m + x)[..|m|] == m;
    if e.Exponent? {
      assert (m + x)[|m| + 1..] == SignText(e.sign) + Resp.Decimal(e.n);
      PowerReads(e);
    } else {
      assert m + x == m;
      ZeroPower();
    }
  }

  /**
   * Every score written this way is read as the number it spells, at the exponent it names
   * less four bits for every place behind the point; only a leading minus negates it.
   */
  lemma ScoreReads(sign: Sign, prefix: Bytes, t: Numeral, e: Exponent)
    requires |prefix| == 2 && prefix[0] == 48 && Fits(t)
    ensures |HexScore.Unsigned(ScoreText(sign, prefix, t, e))| >= 2
    ensures ReadHex(ScoreText(sign, prefix, t, e))
            == Judged(sign.Minus?, Digits(t), ExponentValue(e) - 4 * |t.fractionCaps|)
  {
    hide ReadMantissa, ReadPower, MantissaText, PowerText, Text, ExponentText, SignText, Digits, ExponentValue;
    hide Rounded, Overflows, Top, Grid, HexScore.Unsigned, IsNegative;
    var body := Text(t) + ExponentText(e);
    SignReads(sign, prefix, body);
    assert (prefix + body)[2..] == body;
    BodyReads(t, e);
    MantissaReads(t);
  }

  lemma ZeroPower()
    ensures ReadPower([48]) == Some(0)
  {
    assert Resp.Digits([48]);
  }

  lemma TextUnmarked(t: Numeral)
    ensures Unmarked(Text(t))
  {
    hide Spelled;
    SpelledUnmarked(t.whole, t.wholeCaps);
    SpelledUnmarked(t.fraction, t.fractionCaps);
  }
}
