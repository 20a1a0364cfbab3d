/** The compact form of a 256-bit number: a byte count and a 23-bit mantissa. */
module Compact {
  import opened Numbers
  import opened Limbs
  import opened Bits

  /** The position of the highest bit plus one. */
  function BitLen(x: nat): nat {
    if x == 0 then 0 else 1 + BitLen(x / 2)
  }

  lemma {:induction false} BitLenBounds(x: nat)
    ensures x < Pow2(BitLen(x))
    ensures x > 0 ==> BitLen(x) > 0 && Pow2(BitLen(x) - 1) <= x
  {
    if x > 0 {
      BitLenBounds(x / 2);
    }
  }

  lemma {:induction false} BitLenUnique(x: nat, n: nat)
    requires n > 0 && Pow2(n - 1) <= x < Pow2(n)
    ensures BitLen(x) == n
  {
    if n > 1 {
      BitLenUnique(x / 2, n - 1);
    }
  }

  function Size(x: nat): nat {
    (BitLen(x) + 7) / 8
  }

  /** The top three bytes. */
  function Mantissa(x: nat): nat {
    if Size(x) <= 3 then Shl(x, 8 * (3 - Size(x))) else Shr(x, 8 * (Size(x) - 3))
  }

  /** GetCompact: when the mantissa would reach the sign bit, it gives up its last byte. */
  function CompactOf(x: nat, negative: bool): nat {
    var big := Mantissa(x) >= 0x80_0000;
    var word := if big then Mantissa(x) / 256 else Mantissa(x);
    var size := if big then Size(x) + 1 else Size(x);
    word + size * 0x100_0000 + if negative && word != 0 then 0x80_0000 else 0
  }

  /** The number a compact form stands for, before it is cut to 256 bits. */
  function FullValue(c: nat): nat {
    var size, word := c / 0x100_0000, c % 0x80_0000;
    if size <= 3 then Shr(word, 8 * (3 - size)) else Shl(word, 8 * (size - 3))
  }

  function SignBit(c: nat): bool {
    c / 0x80_0000 % 2 == 1
  }

  lemma {:induction false} ShrTwice(x: nat, s: nat, t: nat)
    ensures Shr(Shr(x, s), t) == Shr(x, s + t)
  {
    if s > 0 {
      ShrTwice(x / 2, s - 1, t);
    }
  }

  lemma {:induction false} ShrShl(x: nat, s: nat)
    ensures Shr(Shl(x, s), s) == x
  {
    if s > 0 {
      ShrShl(x, s - 1);
    }
  }

  lemma Shr2(x: nat)
    ensures Shr(x, 2) == x / 4
  {
    assert Shr(x, 2) == Shr(x / 2, 1) == Shr(x / 2 / 2, 0);
  }

  lemma Shr8(x: nat)
    ensures Shr(x, 8) == x / 256
  {
    hide Shr;
    Shr2(x);
    Shr2(x / 4);
    Shr2(x / 16);
    Shr2(x / 64);
    ShrTwice(x, 2, 2);
    ShrTwice(x, 4, 2);
    ShrTwice(x, 6, 2);
  }

  lemma ShrIsQuotient(x: nat, s: nat)
    ensures Shr(x, s) == x / Pow2(s)
  {
    hide Shr, Shl, Low, Pow2;
    ShrSplit(x, s);
    ShlIsTimes(Shr(x, s), s);
    QuotientIs(x, Shr(x, s), Low(x, s), Pow2(s));
  }

  /** A compact form stands for its mantissa of 23 bits times 256 to its first byte less 3. */
  lemma FullValueIs(c: nat)
    ensures var size, word := c / 0x100_0000, c % 0x80_0000;
            FullValue(c) == if size <= 3 then word / Pow2(8 * (3 - size)) else word * Pow2(8 * (size - 3))
  {
    hide Shr, Shl, Pow2;
    var size, word := c / 0x100_0000, c % 0x80_0000;
    if size <= 3 {
      ShrIsQuotient(word, 8 * (3 - size));
    } else {
      ShlIsTimes(word, 8 * (size - 3));
    }
  }

  /** The number without its low `u` bits. */
  function Cut(x: nat, u: nat): nat {
    Shl(Shr(x, u), u)
  }

  lemma CutFacts(x: nat, u: nat)
    ensures Cut(x, u) <= x < Cut(x, u) + Pow2(u)
    ensures Shr(Cut(x, u), u) == Shr(x, u)
    ensures x < Pow2(u) <==> Shr(x, u) == 0
  {
    hide Shl, Shr, Low, Pow2;
    ShrSplit(x, u);
    ShrShl(Shr(x, u), u);
    ShlOne(u);
    ShlOrder(0, 0, u);
    if Shr(x, u) > 0 {
      ShlOrder(1, Shr(x, u), u);
    }
  }

  lemma {:induction false} ShrLow(x: nat, s: nat, m: nat)
    requires x >= Pow2(s + m)
    ensures Shr(x, s) >= Pow2(m)
  {
    if s > 0 {
      ShrLow(x / 2, s - 1, m);
    }
  }

  /** Cutting fewer than all bits keeps the length. */
  lemma CutLength(x: nat, u: nat)
    requires u < BitLen(x)
    ensures BitLen(Cut(x, u)) == BitLen(x)
  {
    hide Shl, Shr, Pow2;
    var n := BitLen(x);
    BitLenBounds(x);
    CutFacts(x, u);
    ShrLow(x, u, n - 1 - u);
    ShlOrder(Pow2(n - 1 - u), Shr(x, u), u);
    ShlOne(n - 1 - u);
    ShlTwice(1, n - 1 - u, u);
    ShlOne(n - 1);
    BitLenUnique(Cut(x, u), n);
  }

  /** How many low bits the compact form of `x` loses. */
  function Lost(x: nat): nat {
    var big := Mantissa(x) >= 0x80_0000;
    if Size(x) <= 3 then (if big && Size(x) == 3 then 8 else 0)
    else 8 * (Size(x) - 3) + if big then 8 else 0
  }

  lemma MantissaBound(x: nat)
    ensures Mantissa(x) < 0x100_0000
    ensures Size(x) > 3 ==> Mantissa(x) >= 0x1_0000
    ensures BitLen(x) <= 8 * Size(x) < BitLen(x) + 8
  {
    var n := BitLen(x);
    Pow2Constants();
    ZeroSize();
    hide Shl, Shr, Pow2, BitLen;
    BitLenBounds(x);
    if Size(x) <= 3 {
      var t := 8 * (3 - Size(x));
      ShlOrder(x, Pow2(n), t);
      ShlOne(n);
      ShlTwice(1, n, t);
      ShlOne(n + t);
      Pow2Grows(n + t, 24);
    } else {
      var t := 8 * (Size(x) - 3);
      Pow2Grows(n, t + 24);
      ShrBound(x, t, 24);
      Pow2Grows(t + 16, n - 1);
      ShrLow(x, t, 16);
    }
  }

  lemma Pow2Constants()
    ensures Pow2(8) == 256 && Pow2(15) == 0x8000 && Pow2(16) == 0x1_0000 && Pow2(23) == 0x80_0000
    ensures Pow2(24) == 0x100_0000
  {
    Pow2By8(0);
    Pow2By8(8);
    Pow2By8(16);
    assert Pow2(16) == 2 * Pow2(15) && Pow2(24) == 2 * Pow2(23) && Pow2(0) == 1;
  }

  /** The compact form keeps exactly the bits above those it loses. */
  lemma ReadsBack(x: nat)
    ensures FullValue(CompactOf(x, false)) == Cut(x, Lost(x))
    ensures !SignBit(CompactOf(x, false))
  {
    hide Shl, Shr, BitLen, Size, Mantissa;
    MantissaBound(x);
    var m, size := Mantissa(x), Size(x);
    var big := m >= 0x80_0000;
    var c := CompactOf(x, false);
    assert c / 0x100_0000 == (if big then size + 1 else size);
    assert c % 0x80_0000 == (if big then m / 256 else m);
    Shr8(m);
    MantissaIs(x);
    if size <= 3 {
      ShrShl(x, 8 * (3 - size));
      CutNone(x);
      if size < 3 {
        ShrTwice(m, 8, 8 * (3 - size - 1));
      }
    } else {
      ShrTwice(x, 8 * (size - 3), 8);
    }
  }

  lemma MantissaIs(x: nat)
    ensures Size(x) <= 3 ==> Mantissa(x) == Shl(x, 8 * (3 - Size(x)))
    ensures Size(x) > 3 ==> Mantissa(x) == Shr(x, 8 * (Size(x) - 3))
    ensures Size(x) == 3 ==> Mantissa(x) == x
  {
    ShlNone(x);
  }

  lemma CutNone(x: nat)
    ensures Cut(x, 0) == x
  {
  }

  lemma LostFacts(x: nat)
    ensures x > 0 ==> Lost(x) < BitLen(x)
    ensures x == 0 ==> Lost(x) == 0
    ensures Lost(x) > 0 ==> Pow2(Lost(x) + 15) <= x
  {
    MantissaBound(x);
    MantissaIs(x);
    ZeroSize();
    Pow2Constants();
    hide Shl, Shr, Pow2, BitLen, Size, Mantissa;
    BitLenBounds(x);
    if Lost(x) > 0 {
      var t := if Size(x) <= 3 then 0 else 8 * (Size(x) - 3);
      var n := if Mantissa(x) >= 0x80_0000 then 23 else 16;
      TopBytes(x, t, n);
      Pow2Grows(Lost(x) + 15, t + n);
      LongerThan(x, Lost(x));
    }
  }

  lemma ZeroSize()
    ensures Size(0) == 0 && BitLen(0) == 0
  {
  }

  lemma TopBytes(x: nat, t: nat, n: nat)
    requires t == (if Size(x) <= 3 then 0 else 8 * (Size(x) - 3))
    requires Mantissa(x) >= Pow2(n) && (Size(x) <= 3 ==> Size(x) == 3)
    ensures x >= Pow2(t + n)
  {
    MantissaIs(x);
    hide Shl, Shr, Pow2, BitLen, Size, Mantissa;
    ShrNone(x);
    ShrSplit(x, t);
    ShlOrder(Pow2(n), Shr(x, t), t);
    ShlOne(n);
    ShlTwice(1, n, t);
    ShlOne(n + t);
  }

  lemma ShrNone(x: nat)
    ensures Shr(x, 0) == x && Low(x, 0) == 0
  {
  }

  lemma LongerThan(x: nat, u: nat)
    requires Pow2(u + 15) <= x
    ensures u < BitLen(x)
  {
    hide Pow2;
    BitLenBounds(x);
    if BitLen(x) <= u {
      Pow2Grows(BitLen(x), u + 15);
    }
  }

  /** The compact form of a number and of what it reads back as are the same. */
  lemma CompactSame(x: nat, r: nat)
    requires r == Cut(x, Lost(x))
    ensures CompactOf(r, false) == CompactOf(x, false)
  {
    LostFacts(x);
    MantissaBound(x);
    hide Shl, Shr, Pow2, BitLen;
    CutNone(x);
    if Lost(x) > 0 {
      CutLength(x, Lost(x));
      CutFacts(x, Lost(x));
      Shr8(Mantissa(x));
      Shr8(Mantissa(r));
      ShlNone(x);
      ShlNone(r);
      if Size(x) > 3 {
        var t := 8 * (Size(x) - 3);
        ShrTwice(x, t, 8);
        ShrTwice(r, t, 8);
        if Mantissa(x) >= 0x80_0000 {
          BigStaysBig(x, r, t);
        }
      } else {
        ShrNone(x);
        ShrNone(r);
        BigStaysBig(x, r, 0);
      }
    }
  }

  lemma BigStaysBig(x: nat, r: nat, t: nat)
    requires r == Cut(x, t + 8) && Shr(x, t) >= 0x80_0000
    ensures Shr(r, t) >= 0x80_0000 && Shr(r, t) / 256 == Shr(x, t) / 256
  {
    hide Shl, Shr, Pow2;
    CutFacts(x, t + 8);
    ShrTwice(x, t, 8);
    ShrTwice(r, t, 8);
    Shr8(Shr(x, t));
    Shr8(Shr(r, t));
  }

  /** SetCompact after GetCompact never exceeds the number, is within one part in 2^15 of it, fits in 256 bits, has
      no sign, and has the same compact form. */
  lemma CompactRoundTrip(x: nat)
    requires x < Pow2(256)
    ensures var c := CompactOf(x, false);
            var r := FullValue(c);
            && r <= x && 0x8000 * (x - r) <= x
            && r < Pow2(256) && !SignBit(c)
            && CompactOf(r, false) == c
  {
    ReadsBack(x);
    LostFacts(x);
    hide Shl, Shr, Pow2, BitLen, CompactOf, FullValue, Lost, SignBit;
    var u := Lost(x);
    CutFacts(x, u);
    CompactSame(x, Cut(x, u));
    CutNone(x);
    if u > 0 {
      ShlOne(u);
      ShlTwice(1, u, 15);
      ShlOne(u + 15);
      ShlIsTimes(Pow2(u), 15);
      Pow2Constants();
    }
  }

  lemma NoMantissa(x: nat)
    ensures Mantissa(x) == 0 <==> x == 0
  {
    MantissaIs(x);
    ZeroSize();
    hide Pow2, BitLen, Shl, Shr, Size, Mantissa;
    MantissaBound(x);
    if Size(x) <= 3 {
      ShlIsTimes(x, 8 * (3 - Size(x)));
      TimesZero(x, Pow2(8 * (3 - Size(x))));
    }
  }

  lemma TimesZero(x: nat, n: nat)
    requires n > 0
    ensures x * n == 0 <==> x == 0
  {
    if x > 0 {
      assert x * n >= n;
    }
  }

  lemma SignOf(word: nat, size: nat, sign: bool)
    requires word < 0x80_0000
    ensures SignBit(word + size * 0x100_0000 + if sign then 0x80_0000 else 0) <==> sign
  {
  }

  /** A compact form has the sign bit exactly when it is written for a negative number other than zero. */
  lemma CompactSign(x: nat, negative: bool)
    ensures SignBit(CompactOf(x, negative)) <==> negative && x > 0
    ensures CompactOf(x, negative) - CompactOf(x, false) == if negative && x > 0 then 0x80_0000 else 0
  {
    hide Mantissa, Size, SignBit;
    NoMantissa(x);
    MantissaBound(x);
    var big := Mantissa(x) >= 0x80_0000;
    var word := if big then Mantissa(x) / 256 else Mantissa(x);
    SignOf(word, if big then Size(x) + 1 else Size(x), negative && word != 0);
  }
}
