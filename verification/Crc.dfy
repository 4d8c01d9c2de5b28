/**
 * CRC-32/ISO-HDLC as the append-only file uses it: the byte-at-a-time table form,
 * the bit-at-a-time definition of section 8 of RFC 1952, and what the checksum detects.
 *
 * A 32-bit register is the sequence of its bits, least significant first.
 */
module Crc {
  type byte = b: int | 0 <= b < 256
  type Word = w: seq<bool> | |w| == 32 witness Zeros(32)

  // ---------- Bits and integers ----------

  function Pow2(n: nat): (p: nat)
    ensures p >= 1
  {
    if n == 0 then 1 else 2 * Pow2(n - 1)
  }

  /** The low n bits of x. */
  function BitsOf(x: nat, n: nat): (bits: seq<bool>)
    ensures |bits| == n
    decreases n, x
  {
    if n == 0 then [] else [x % 2 == 1] + BitsOf(x / 2, n - 1)
  }

  function NatOf(bits: seq<bool>): (x: nat)
    ensures x < Pow2(|bits|)
  {
    if bits == [] then 0 else (if bits[0] then 1 else 0) + 2 * NatOf(bits[1..])
  }

  lemma {:induction false} NatOfBitsOf(x: nat, n: nat)
    requires x < Pow2(n)
    ensures NatOf(BitsOf(x, n)) == x
    decreases n
  {
    if n > 0 {
      NatOfBitsOf(x / 2, n - 1);
    }
  }

  lemma {:induction false} NatOfInjective(a: seq<bool>, b: seq<bool>)
    requires |a| == |b| && NatOf(a) == NatOf(b)
    ensures a == b
  {
    if a != [] {
      NatOfInjective(a[1..], b[1..]);
      assert a == [a[0]] + a[1..] && b == [b[0]] + b[1..];
    }
  }

  /** Widening a value with zero bits. */
  lemma {:induction false} BitsOfPad(x: nat, n: nat, k: nat)
    requires x < Pow2(n)
    ensures BitsOf(x, n + k) == BitsOf(x, n) + Zeros(k)
    decreases n + k
  {
    if n > 0 {
      BitsOfPad(x / 2, n - 1, k);
    } else if k > 0 {
      BitsOfPad(x, n, k - 1);
      assert [false] + Zeros(k - 1) == Zeros(k);
    }
  }

  lemma Powers()
    ensures Pow2(8) == 256 && Pow2(32) == 0x1_0000_0000
  {
    assert Pow2(4) == 16;
    assert Pow2(8) == 256;
    assert Pow2(12) == 0x1000;
    assert Pow2(16) == 0x1_0000;
    assert Pow2(20) == 0x10_0000;
    assert Pow2(24) == 0x100_0000;
    assert Pow2(28) == 0x1000_0000;
  }

  function Zeros(n: nat): (z: seq<bool>)
    ensures |z| == n && forall i :: 0 <= i < n ==> !z[i]
  {
    if n == 0 then [] else [false] + Zeros(n - 1)
  }

  function Xor(a: seq<bool>, b: seq<bool>): (c: seq<bool>)
    requires |a| == |b|
    ensures |c| == |a| && forall i :: 0 <= i < |a| ==> c[i] == (a[i] != b[i])
  {
    seq(|a|, i requires 0 <= i < |a| => a[i] != b[i])
  }

  // ---------- One bit, one byte ----------

  /** The reflected polynomial 0xedb88320, one byte (20, 83, b8, ed) to a line. */
  const POLYNOMIAL: Word := [
    false, false, false, false, false, true, false, false,
    true, true, false, false, false, false, false, true,
    false, false, false, true, true, true, false, true,
    true, false, true, true, false, true, true, true]

  /** That this is the number the standard names. */
  lemma PolynomialIs()
    ensures NatOf(POLYNOMIAL) == 0xedb8_8320
  {
    LowBits();
    HighBits();
    Nibbles(POLYNOMIAL);
  }

  predicate Spells(p: seq<bool>, i: nat, x: nat)
    requires i + 4 <= |p|
  {
    x == (if p[i] then 1 else 0) + (if p[i + 1] then 2 else 0) + (if p[i + 2] then 4 else 0)
         + (if p[i + 3] then 8 else 0)
  }

  lemma LowBits()
    ensures Spells(POLYNOMIAL, 0, 0x0) && Spells(POLYNOMIAL, 4, 0x2)
    ensures Spells(POLYNOMIAL, 8, 0x3) && Spells(POLYNOMIAL, 12, 0x8)
  {
  }

  lemma HighBits()
    ensures Spells(POLYNOMIAL, 16, 0x8) && Spells(POLYNOMIAL, 20, 0xb)
    ensures Spells(POLYNOMIAL, 24, 0xd) && Spells(POLYNOMIAL, 28, 0xe)
  {
  }

  lemma Nibbles(p: Word)
    requires Spells(p, 0, 0x0) && Spells(p, 4, 0x2) && Spells(p, 8, 0x3) && Spells(p, 12, 0x8)
    requires Spells(p, 16, 0x8) && Spells(p, 20, 0xb) && Spells(p, 24, 0xd) && Spells(p, 28, 0xe)
    ensures NatOf(p) == 0xedb8_8320
  {
    hide NatOf, Spells;
    NoBits(p);
    Nibble(p, 28, 0xe);
    Nibble(p, 24, 0xd);
    Nibble(p, 20, 0xb);
    Nibble(p, 16, 0x8);
    Nibble(p, 12, 0x8);
    Nibble(p, 8, 0x3);
    Nibble(p, 4, 0x2);
    Nibble(p, 0, 0x0);
  }

  lemma Nibble(p: seq<bool>, i: nat, x: nat)
    requires i + 4 <= |p| && Spells(p, i, x)
    ensures NatOf(p[i..]) == x + 16 * NatOf(p[i + 4..])
  {
    hide NatOf;
    FirstBit(p, i);
    FirstBit(p, i + 1);
    FirstBit(p, i + 2);
    FirstBit(p, i + 3);
  }

  lemma NoBits(p: Word)
    ensures NatOf(p[32..]) == 0 && p[0..] == p
  {
  }

  lemma FirstBit(p: seq<bool>, i: nat)
    requires i < |p|
    ensures NatOf(p[i..]) == (if p[i] then 1 else 0) + 2 * NatOf(p[i + 1..])
  {
    assert p[i..][1..] == p[i + 1..];
  }

  /** One bit of the reflected division: shift right, and subtract when a one leaves. */
  function Bit(c: Word): Word {
    var shifted := c[1..] + [false];
    if c[0] then Xor(shifted, POLYNOMIAL) else shifted
  }

  function Bits(c: Word, n: nat): Word
    decreases n, c
  {
    if n == 0 then c else Bits(Bit(c), n - 1)
  }

  lemma BitInjective(a: Word, b: Word)
    requires Bit(a) == Bit(b)
    ensures a == b
  {
    assert Bit(a)[31] == a[0] && Bit(b)[31] == b[0];
    forall i | 0 <= i < 32 ensures a[i] == b[i] {
      if i > 0 {
        assert Bit(a)[i - 1] == (a[i] != (a[0] && POLYNOMIAL[i - 1]));
        assert Bit(b)[i - 1] == (b[i] != (b[0] && POLYNOMIAL[i - 1]));
      }
    }
  }

  lemma BitLinear(a: Word, b: Word)
    ensures Bit(Xor(a, b)) == Xor(Bit(a), Bit(b))
  {
  }

  lemma {:induction false} BitsInjective(a: Word, b: Word, n: nat)
    requires Bits(a, n) == Bits(b, n)
    ensures a == b
    decreases n
  {
    if n > 0 {
      BitsInjective(Bit(a), Bit(b), n - 1);
      BitInjective(a, b);
    }
  }

  lemma {:induction false} BitsLinear(a: Word, b: Word, n: nat)
    ensures Bits(Xor(a, b), n) == Xor(Bits(a, n), Bits(b, n))
    decreases n
  {
    if n > 0 {
      BitLinear(a, b);
      BitsLinear(Bit(a), Bit(b), n - 1);
    }
  }

  /** Zero bits leave without subtracting. */
  lemma {:induction false} ZerosShift(t: seq<bool>, n: nat, k: nat)
    requires n + |t| + k == 32
    ensures Bits(Zeros(n) + t + Zeros(k), n) == t + Zeros(k + n)
    decreases n
  {
    if n > 0 {
      assert Bit(Zeros(n) + t + Zeros(k)) == Zeros(n - 1) + t + Zeros(k + 1);
      ZerosShift(t, n - 1, k + 1);
    } else {
      assert Zeros(0) + t + Zeros(k) == t + Zeros(k);
    }
  }

  /** Why a 256-entry table suffices: eight bit steps are a lookup and a byte shift. */
  lemma TableStep(c: Word)
    ensures Bits(c, 8) == Xor(Bits(c[..8] + Zeros(24), 8), c[8..] + Zeros(8))
  {
    var low: Word, high: Word := c[..8] + Zeros(24), Zeros(8) + c[8..] + Zeros(0);
    assert c == Xor(low, high);
    BitsLinear(low, high, 8);
    ZerosShift(c[8..], 8, 0);
  }

  // ---------- The checksum ----------

  const ONES: Word := [
    true, true, true, true, true, true, true, true, true, true, true, true, true, true, true, true,
    true, true, true, true, true, true, true, true, true, true, true, true, true, true, true, true]

  /** The register after the bytes of s, by the bitwise definition. */
  function Register(c: Word, s: seq<byte>): Word
    decreases |s|
  {
    if s == [] then c else Bits(Xor(BitsOf(s[|s| - 1], 32), Register(c, s[..|s| - 1])), 8)
  }

  /** The bitwise CRC-32 of section 8 of RFC 1952, below 2^32. */
  function Checksum(s: seq<byte>): (crc: nat)
    ensures crc < 0x1_0000_0000
  {
    Powers();
    NatOf(Xor(Register(ONES, s), ONES))
  }

  method TableEntry(index: byte) returns (crc: Word)
    ensures crc == Bits(BitsOf(index, 32), 8)
  {
    crc := BitsOf(index, 32);
    ghost var start := crc;
    for bit := 0 to 8
      invariant Bits(crc, 8 - bit) == Bits(start, 8)
    {
      var shifted := crc[1..] + [false];
      crc := if crc[0] then Xor(shifted, POLYNOMIAL) else shifted;
    }
  }

  method BuildTable() returns (table: seq<Word>)
    ensures |table| == 256
    ensures forall i :: 0 <= i < 256 ==> table[i] == Bits(BitsOf(i, 32), 8)
  {
    table := [];
    for index := 0 to 256
      invariant |table| == index
      invariant forall i :: 0 <= i < index ==> table[i] == Bits(BitsOf(i, 32), 8)
    {
      var crc := TableEntry(index);
      table := table + [crc];
    }
  }

  /** The slot the loop looks up holds the eight-step image of the low byte. */
  lemma LowByte(c: Word)
    ensures NatOf(c[..8]) < 256
    ensures BitsOf(NatOf(c[..8]), 32) == c[..8] + Zeros(24)
  {
    Powers();
    var x := NatOf(c[..8]);
    BitsOfPad(x, 8, 24);
    NatOfBitsOf(x, 8);
    NatOfInjective(BitsOf(x, 8), c[..8]);
  }

  /** One byte through the table: what the bitwise definition gives. */
  lemma TableByte(c: Word, b: byte)
    ensures |BitsOf(b, 32)| == 32
    ensures var mixed := Xor(BitsOf(b, 32), c);
            && |mixed| == 32 && NatOf(mixed[..8]) < 256
            && Bits(mixed, 8) == Xor(Bits(BitsOf(NatOf(mixed[..8]), 32), 8), c[8..] + Zeros(8))
  {
    hide Bits;
    var mixed: Word := Xor(BitsOf(b, 32), c);
    TableStep(mixed);
    LowByte(mixed);
    Powers();
    BitsOfPad(b, 8, 24);
    assert mixed[8..] == c[8..];
  }

  /** The table-driven loop of the source computes the bitwise checksum. */
  method TableChecksum(bytes: seq<byte>) returns (crc: nat)
    ensures crc == Checksum(bytes)
  {
    hide Xor, BitsOf, NatOf, Bits, Zeros;
    var table := BuildTable();
    var c := ONES;
    for i := 0 to |bytes|
      invariant c == Register(ONES, bytes[..i])
    {
      var mixed: Word := Xor(BitsOf(bytes[i], 32), c);
      TableByte(c, bytes[i]);
      assert bytes[..i + 1][..i] == bytes[..i];
      c := Xor(table[NatOf(mixed[..8])], c[8..] + Zeros(8));
    }
    assert bytes[..|bytes|] == bytes;
    Powers();
    crc := NatOf(Xor(c, ONES));
  }

  // ---------- Detection ----------

  lemma XorSymmetric(a: seq<bool>, b: seq<bool>)
    requires |a| == |b|
    ensures Xor(a, b) == Xor(b, a)
  {
  }

  lemma XorCancel(a: seq<bool>, b: seq<bool>, x: seq<bool>)
    requires |a| == |b| == |x| && Xor(a, x) == Xor(b, x)
    ensures a == b
  {
    forall i | 0 <= i < |a| ensures a[i] == b[i] {
      assert Xor(a, x)[i] == Xor(b, x)[i];
    }
  }

  lemma {:induction false} RegisterSplit(c: Word, a: seq<byte>, b: seq<byte>)
    ensures Register(c, a + b) == Register(Register(c, a), b)
    decreases |b|
  {
    if b == [] {
      assert a + b == a;
    } else {
      var n := |b| - 1;
      assert (a + b)[..|a + b| - 1] == a + b[..n];
      RegisterSplit(c, a, b[..n]);
    }
  }

  /** Bytes that follow never make two different registers meet again. */
  lemma {:induction false} RegisterInjective(c: Word, d: Word, s: seq<byte>)
    requires Register(c, s) == Register(d, s)
    ensures c == d
    decreases |s|
  {
    if s != [] {
      var n := |s| - 1;
      var u, v, x := Register(c, s[..n]), Register(d, s[..n]), BitsOf(s[n], 32);
      BitsInjective(Xor(x, u), Xor(x, v), 8);
      XorSymmetric(x, u);
      XorSymmetric(x, v);
      XorCancel(u, v, x);
      RegisterInjective(c, d, s[..n]);
    }
  }

  lemma SameRegister(s: seq<byte>, t: seq<byte>)
    requires Checksum(s) == Checksum(t)
    ensures Register(ONES, s) == Register(ONES, t)
  {
    hide Register, Xor, NatOf;
    NatOfInjective(Xor(Register(ONES, t), ONES), Xor(Register(ONES, s), ONES));
    XorCancel(Register(ONES, t), Register(ONES, s), ONES);
  }

  lemma {:induction false} BitsJoin(c: Word, m: nat, n: nat)
    ensures Bits(Bits(c, m), n) == Bits(c, m + n)
    decreases m
  {
    if m > 0 { BitsJoin(Bit(c), m - 1, n); }
  }

  /** The bits of bytes, first byte first. */
  function BitsFor(s: seq<byte>): (bits: seq<bool>)
    ensures |bits| == 8 * |s|
    decreases |s|
  {
    if s == [] then [] else BitsFor(s[..|s| - 1]) + BitsOf(s[|s| - 1], 8)
  }

  /** The bits of at most four bytes, filled up to a word. */
  function Window(s: seq<byte>): (w: seq<bool>)
    requires |s| <= 4
    ensures |w| == 32
  {
    BitsFor(s) + Zeros(32 - 8 * |s|)
  }

  /** The bits of one byte in place k of a word. */
  function At(b: byte, k: nat): (w: seq<bool>)
    requires k < 4
    ensures |w| == 32
  {
    Zeros(8 * k) + BitsOf(b, 8) + Zeros(24 - 8 * k)
  }

  /** The register takes up to four bytes as if they had been added to it in one piece. */
  lemma {:induction false} RegisterWindow(c: Word, s: seq<byte>)
    requires |s| <= 4
    ensures Register(c, s) == Bits(Xor(Window(s), c), 8 * |s|)
    decreases |s|
  {
    if s == [] {
      assert Xor(Window(s), c) == c;
    } else {
      hide BitsOf, Bits, Xor, Window, At;
      var n := |s| - 1;
      RegisterWindow(c, s[..n]);
      var w: Word, before: Word := At(s[n], n), Xor(Window(s[..n]), c);
      assert BitsOf(s[n], 32) == Bits(w, 8 * n) by { Enters(s[n], n); }
      BitsLinear(w, before, 8 * n);
      BitsJoin(Xor(w, before), 8 * n, 8);
      WindowLast(s);
      XorSwap(w, Window(s[..n]), c);
    }
  }

  /** A last byte goes to its own place. */
  lemma WindowLast(s: seq<byte>)
    requires 0 < |s| <= 4
    ensures Window(s) == Xor(Window(s[..|s| - 1]), At(s[|s| - 1], |s| - 1))
  {
    hide BitsOf;
  }

  lemma XorSwap(a: seq<bool>, b: seq<bool>, c: seq<bool>)
    requires |a| == |b| == |c|
    ensures Xor(a, Xor(b, c)) == Xor(Xor(b, a), c)
  {
  }

  lemma Enters(b: byte, k: nat)
    requires k < 4
    ensures BitsOf(b, 32) == Bits(At(b, k), 8 * k)
  {
    Powers();
    BitsOfPad(b, 8, 24);
    ZerosShift(BitsOf(b, 8), 8 * k, 24 - 8 * k);
  }

  lemma {:induction false} BitsForInjective(s: seq<byte>, t: seq<byte>)
    requires |s| == |t| && BitsFor(s) == BitsFor(t)
    ensures s == t
    decreases |s|
  {
    if s != [] {
      hide BitsOf;
      var n := |s| - 1;
      assert BitsFor(s[..n]) == BitsFor(s)[..8 * n] == BitsFor(t)[..8 * n] == BitsFor(t[..n]);
      assert BitsOf(s[n], 8) == BitsFor(s)[8 * n..] == BitsFor(t)[8 * n..] == BitsOf(t[n], 8);
      BitsForInjective(s[..n], t[..n]);
      SameByte(s[n], t[n]);
      assert s == s[..n] + [s[n]] && t == t[..n] + [t[n]];
    }
  }

  lemma SameByte(a: byte, b: byte)
    requires BitsOf(a, 8) == BitsOf(b, 8)
    ensures a == b
  {
    Powers();
    NatOfBitsOf(a, 8);
    NatOfBitsOf(b, 8);
  }

  /** A register tells apart any two pieces of one length up to four bytes. */
  lemma PieceSeen(c: Word, s: seq<byte>, t: seq<byte>)
    requires |s| == |t| <= 4 && Register(c, s) == Register(c, t)
    ensures s == t
  {
    hide Register, Bits, Xor, BitsFor;
    RegisterWindow(c, s);
    RegisterWindow(c, t);
    BitsInjective(Xor(Window(s), c), Xor(Window(t), c), 8 * |s|);
    XorCancel(Window(s), Window(t), c);
    assert BitsFor(s) == Window(s)[..8 * |s|] == Window(t)[..8 * |s|] == BitsFor(t);
    BitsForInjective(s, t);
  }

  /** Any change confined to four bytes in a row, anywhere in any message, changes the checksum. */
  lemma BurstDetected(before: seq<byte>, s: seq<byte>, t: seq<byte>, after: seq<byte>)
    requires |s| == |t| <= 4 && s != t
    ensures Checksum(before + s + after) != Checksum(before + t + after)
  {
    hide Register, Checksum;
    if Checksum(before + s + after) == Checksum(before + t + after) {
      SameRegister(before + s + after, before + t + after);
      RegisterSplit(ONES, before + s, after);
      RegisterSplit(ONES, before + t, after);
      RegisterInjective(Register(ONES, before + s), Register(ONES, before + t), after);
      RegisterSplit(ONES, before, s);
      RegisterSplit(ONES, before, t);
      PieceSeen(Register(ONES, before), s, t);
    }
  }

  /** Any change confined to one byte, at any position of any message, changes the checksum. */
  lemma ByteChangeDetected(s: seq<byte>, i: nat, x: byte)
    requires i < |s| && x != s[i]
    ensures Checksum(s[i := x]) != Checksum(s)
  {
    hide Checksum;
    BurstDetected(s[..i], [x], [s[i]], s[i + 1..]);
    assert s == s[..i] + [s[i]] + s[i + 1..] && s[i := x] == s[..i] + [x] + s[i + 1..];
  }
}
