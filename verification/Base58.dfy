/** Base 58 of byte strings, by repeated multiplication in a buffer whose size is computed beforehand. */
module Base58 {
  import opened Numbers
  import opened Lists

  const ALPHABET: string := "123456789" + "ABCDEFGH" + "JKLMN" + "PQRSTUVWXYZ" + "abcdefghijk" + "mnopqrstuvwxyz"

  // ---- Numbers by their digits

  /** The number that big-endian digits stand for. */
  function Num(s: seq<nat>, base: nat): nat {
    if s == [] then 0 else base * Num(s[..|s| - 1], base) + s[|s| - 1]
  }

  /** v * base^n */
  function Scale(v: nat, n: nat, base: nat): nat {
    if n == 0 then v else base * Scale(v, n - 1, base)
  }

  predicate Below(s: seq<nat>, base: nat) {
    forall i :: 0 <= i < |s| ==> s[i] < base
  }

  predicate Zeros(s: seq<nat>) {
    forall i :: 0 <= i < |s| ==> s[i] == 0
  }

  /** The digits of a number, without leading zeros. */
  function Digits(n: nat, base: nat): (s: seq<nat>)
    requires base >= 2
    ensures n > 0 ==> s != []
  {
    if n == 0 then [] else Digits(n / base, base) + [n % base]
  }

  lemma {:induction false} ScaleAdd(a: nat, b: nat, n: nat, base: nat)
    ensures Scale(a + b, n, base) == Scale(a, n, base) + Scale(b, n, base)
  {
    if n > 0 {
      ScaleAdd(a, b, n - 1, base);
      Distribute(base, Scale(a, n - 1, base), Scale(b, n - 1, base));
    }
  }

  lemma {:induction false} ScaleOrder(a: nat, b: nat, n: nat, base: nat)
    requires a <= b && base > 0
    ensures Scale(a, n, base) <= Scale(b, n, base)
    ensures a > 0 ==> Scale(a, n, base) > 0
  {
    if n > 0 {
      ScaleOrder(a, b, n - 1, base);
      OrderTimes(base, Scale(a, n - 1, base), Scale(b, n - 1, base));
    }
  }

  lemma OrderTimes(c: nat, a: nat, b: nat)
    requires c > 0 && a <= b
    ensures c * a <= c * b
    ensures a > 0 ==> c * a > 0
    ensures a < b ==> c * a + c <= c * b
  {
    Distribute(c, a, b - a);
    assert b - a >= 0 ==> c * (b - a) >= 0;
    assert a < b ==> c * (b - a) >= c;
  }

  lemma {:induction false} ScaleInside(v: nat, n: nat, base: nat)
    ensures Scale(base * v, n, base) == Scale(v, n + 1, base)
  {
    if n > 0 {
      ScaleInside(v, n - 1, base);
    }
  }

  lemma {:induction false} ScaleTimes(c: nat, v: nat, n: nat, base: nat)
    ensures Scale(c * v, n, base) == c * Scale(v, n, base)
  {
    if n > 0 {
      ScaleTimes(c, v, n - 1, base);
      Swap(base, c, Scale(v, n - 1, base));
    }
  }

  lemma Swap(a: nat, b: nat, c: nat)
    ensures a * (b * c) == b * (a * c)
  {
  }

  lemma {:induction false} NumPrepend(d: nat, t: seq<nat>, base: nat)
    ensures Num([d] + t, base) == Scale(d, |t|, base) + Num(t, base)
  {
    if t == [] {
      assert [d] + t == [d] && [d][..0] == [];
    } else {
      var u := t[..|t| - 1];
      NumPrepend(d, u, base);
      assert ([d] + t)[..|t|] == [d] + u;
      Distribute(base, Scale(d, |u|, base), Num(u, base));
    }
  }

  lemma {:induction false} NumBound(s: seq<nat>, base: nat)
    requires Below(s, base) && base > 0
    ensures Num(s, base) < Scale(1, |s|, base)
  {
    if s != [] {
      var u := s[..|s| - 1];
      NumBound(u, base);
      OrderTimes(base, Num(u, base), Scale(1, |u|, base));
    }
  }

  lemma {:induction false} NumSkipZeros(s: seq<nat>, k: nat, base: nat)
    requires k <= |s| && Zeros(s[..k])
    ensures Num(s, base) == Num(s[k..], base)
  {
    if k > 0 {
      NumSkipZeros(s[1..], k - 1, base);
      assert s == [s[0]] + s[1..] && s[1..][k - 1..] == s[k..] && s[0] == s[..k][0];
      NumPrepend(0, s[1..], base);
      ScaleZero(|s| - 1, base);
    }
  }

  lemma {:induction false} ScaleZero(n: nat, base: nat)
    ensures Scale(0, n, base) == 0
  {
    if n > 0 {
      ScaleZero(n - 1, base);
    }
  }

  lemma {:induction false} DigitsFacts(n: nat, base: nat)
    requires base >= 2
    ensures Num(Digits(n, base), base) == n
    ensures Below(Digits(n, base), base)
    ensures n > 0 ==> Digits(n, base)[0] != 0
  {
    if n > 0 {
      var u := Digits(n / base, base);
      QuotientSmaller(n, base);
      DigitsFacts(n / base, base);
      assert Digits(n, base)[..|u|] == u;
      if u == [] {
        assert n / base == 0;
      }
    }
  }

  lemma QuotientSmaller(n: nat, base: nat)
    requires base >= 2 && n > 0
    ensures n / base < n && n == base * (n / base) + n % base
  {
  }

  /** A number has only one string of digits without leading zeros. */
  lemma {:induction false} DigitsUnique(s: seq<nat>, base: nat)
    requires base >= 2 && Below(s, base) && (s != [] ==> s[0] != 0)
    ensures Digits(Num(s, base), base) == s
  {
    if s != [] {
      var u, d := s[..|s| - 1], s[|s| - 1];
      DigitsUnique(u, base);
      NotZero(s, base);
      assert u + [d] == s;
      assert Num(s, base) == base * Num(u, base) + d;
      hide Num;
      Split(Num(u, base), d, base);
    }
  }

  lemma Split(q: nat, d: nat, base: nat)
    requires d < base
    ensures (base * q + d) / base == q && (base * q + d) % base == d
  {
    var n := base * q + d;
    var e := n / base - q;
    assert n == base * (n / base) + n % base;
    Distribute(base, n / base, 0 - q);
    assert base * (n / base - q) == d - n % base;
    assert e >= 1 ==> base * e >= base;
    assert e <= -1 ==> base * e <= 0 - base;
  }

  lemma NotZero(s: seq<nat>, base: nat)
    requires base >= 2 && s != [] && s[0] != 0
    ensures Num(s, base) > 0
  {
    assert s == [s[0]] + s[1..];
    NumPrepend(s[0], s[1..], base);
    ScaleOrder(s[0], s[0], |s| - 1, base);
  }

  // ---- The buffer

  /** "buffer = buffer * factor + digit", from the last digit to the first, as both loops of the source do it. The
      assert that no carry is left holds because the buffer is large enough. */
  method Absorb(buf: array<nat>, length: nat, factor: nat, base: nat, digit: nat) returns (newLength: nat)
    requires base >= 2 && length <= buf.Length && Below(buf[..], base) && Zeros(buf[..buf.Length - length])
    requires factor * Num(buf[..], base) + digit < Scale(1, buf.Length, base)
    modifies buf
    ensures newLength <= buf.Length && Below(buf[..], base) && Zeros(buf[..buf.Length - newLength])
    ensures Num(buf[..], base) == factor * old(Num(buf[..], base)) + digit
  {
    hide Num, Scale, AbsorbInv;
    ghost var s := buf[..];
    ghost var size := buf.Length;
    var carry: nat := digit;
    var i := 0;
    AbsorbStart(s, factor, base, digit);
    while (carry != 0 || i < length) && i < buf.Length
      invariant i <= size && Below(buf[..], base)
      invariant buf[..size - i] == s[..size - i]
      invariant AbsorbInv(s, buf[..], i, factor, base, digit, carry)
      decreases size - i
    {
      ghost var x := buf[..];
      var pos := buf.Length - 1 - i;
      AbsorbStep(s, x, i, factor, base, digit, carry);
      carry := carry + factor * buf[pos];
      var low: nat := carry % base;
      buf[pos] := low;
      assert buf[..] == x[pos := low];
      carry := carry / base;
      i := i + 1;
    }
    AbsorbEnd(s, buf[..], length, i, factor, base, digit, carry);
    assert carry == 0;
    return i;
  }

  /** The last `i` digits are done, and `carry` is still to be added above them. */
  ghost predicate AbsorbInv(s: seq<nat>, x: seq<nat>, i: nat, factor: nat, base: nat, digit: nat, carry: nat) {
    && |x| == |s| && i <= |s|
    && factor * Num(s[|s| - i..], base) + digit == Num(x[|s| - i..], base) + Scale(carry, i, base)
  }

  lemma AbsorbStart(s: seq<nat>, factor: nat, base: nat, digit: nat)
    ensures AbsorbInv(s, s, 0, factor, base, digit, digit)
  {
    assert s[|s|..] == [];
  }

  lemma AbsorbStep(s: seq<nat>, x: seq<nat>, i: nat, factor: nat, base: nat, digit: nat, carry: nat)
    requires base >= 2 && |x| == |s| && i < |s| && x[|s| - 1 - i] == s[|s| - 1 - i]
    requires AbsorbInv(s, x, i, factor, base, digit, carry)
    ensures var c := carry + factor * x[|s| - 1 - i];
            && c >= 0 && c / base >= 0 && 0 <= c % base < base
            && var low: nat := c % base;
               AbsorbInv(s, x[|s| - 1 - i := low], i + 1, factor, base, digit, c / base)
  {
    var pos := |s| - 1 - i;
    var d := s[pos];
    var t, u := s[pos + 1..], x[pos + 1..];
    var c: nat := carry + factor * d;
    hide Num, Scale;
    assert s[pos..] == [d] + t;
    QuotientOf(c, base);
    var low: nat := c % base;
    assert x[pos := low][pos..] == [low] + u;
    NumPrepend(d, t, base);
    NumPrepend(low, u, base);
    Distribute(factor, Scale(d, i, base), Num(t, base));
    ScaleTimes(factor, d, i, base);
    ScaleAdd(carry, factor * d, i, base);
    ScaleInside(c / base, i, base);
    ScaleAdd(base * (c / base), c % base, i, base);
  }

  lemma QuotientOf(c: nat, base: nat)
    requires base >= 2
    ensures c == base * (c / base) + c % base && c / base >= 0 && c % base < base && base * (c / base) >= 0
  {
  }

  lemma AbsorbEnd(s: seq<nat>, x: seq<nat>, length: nat, i: nat, factor: nat, base: nat, digit: nat, carry: nat)
    requires base >= 2 && |x| == |s| && i <= |s| && length <= |s| && Zeros(s[..|s| - length])
    requires factor * Num(s, base) + digit < Scale(1, |s|, base)
    requires x[..|s| - i] == s[..|s| - i] && ((carry == 0 && i >= length) || i == |s|)
    requires AbsorbInv(s, x, i, factor, base, digit, carry)
    ensures carry == 0 && Zeros(x[..|s| - i]) && Num(x, base) == factor * Num(s, base) + digit
  {
    hide Num, Scale;
    if i == |s| {
      assert s[0..] == s && x[0..] == x;
      if carry > 0 {
        ScaleOrder(1, carry, i, base);
      }
      ScaleZero(i, base);
    } else {
      ScaleZero(i, base);
      assert s[..|s| - i] == s[..|s| - length][..|s| - i];
      NumSkipZeros(s, |s| - i, base);
      NumSkipZeros(x, |s| - i, base);
    }
  }

  /** Skips the leading zeros of the used part of the buffer: what is left are the digits of the number. */
  method Significant(buf: array<nat>, length: nat, base: nat) returns (it: nat)
    requires base >= 2 && length <= buf.Length && Below(buf[..], base) && Zeros(buf[..buf.Length - length])
    ensures it <= buf.Length && buf[it..] == Digits(Num(buf[..], base), base)
  {
    it := buf.Length - length;
    while it != buf.Length && buf[it] == 0
      invariant it <= buf.Length && Zeros(buf[..it])
      decreases buf.Length - it
    {
      it := it + 1;
    }
    NumSkipZeros(buf[..], it, base);
    assert buf[..][it..] == buf[it..];
    DigitsUnique(buf[it..], base);
  }

  // ---- The computed buffer sizes are large enough

  function EncodedSize(n: nat): nat {
    n * 138 / 100 + 1
  }

  function DecodedSize(n: nat): nat {
    n * 733 / 1000 + 1
  }

  lemma {:induction false} ScaleMono(a: nat, b: nat, base: nat)
    requires a <= b && base >= 1
    ensures Scale(1, a, base) <= Scale(1, b, base)
  {
    if a < b {
      ScaleMono(a, b - 1, base);
      ScaleOrder(1, 1, b - 1, base);
      OrderOne(base, Scale(1, b - 1, base));
    }
  }

  lemma OrderOne(c: nat, a: nat)
    requires c >= 1
    ensures c * a >= a
  {
  }

  lemma Up256By4(n: nat)
    ensures Scale(1, n + 4, 256) == 0x1_0000_0000 * Scale(1, n, 256)
  {
    assert Scale(1, n + 2, 256) == 0x1_0000 * Scale(1, n, 256);
    assert Scale(1, n + 4, 256) == 0x1_0000 * Scale(1, n + 2, 256);
  }

  lemma Up58By4(n: nat)
    ensures Scale(1, n + 4, 58) == 11316496 * Scale(1, n, 58)
  {
    assert Scale(1, n + 2, 58) == 3364 * Scale(1, n, 58);
    assert Scale(1, n + 4, 58) == 3364 * Scale(1, n + 2, 58);
  }

  lemma Up58By3(n: nat)
    ensures Scale(1, n + 1, 58) == 58 * Scale(1, n, 58)
    ensures Scale(1, n + 3, 58) == 195112 * Scale(1, n, 58)
  {
    assert Scale(1, n + 2, 58) == 3364 * Scale(1, n, 58);
  }

  lemma Up256By3(n: nat)
    ensures Scale(1, n + 1, 256) == 256 * Scale(1, n, 256)
    ensures Scale(1, n + 3, 256) == 0x100_0000 * Scale(1, n, 256)
  {
    assert Scale(1, n + 2, 256) == 0x1_0000 * Scale(1, n, 256);
  }

  /** 256^8 < 58^11, which is what 138 / 100 rests on. */
  lemma {:induction false} EncodeFits(n: nat)
    ensures Scale(1, n, 256) <= Scale(1, EncodedSize(n), 58)
  {
    if n < 8 {
      EncodeFitsSmall(n);
    } else {
      EncodeFits(n - 8);
      hide Scale;
      Up256By4(n - 8);
      Up256By4(n - 4);
      var m := EncodedSize(n - 8);
      Up58By4(m);
      Up58By4(m + 4);
      Up58By3(m + 8);
      ScaleMono(m + 11, EncodedSize(n), 58);
    }
  }

  lemma ScaleNone(base: nat)
    ensures Scale(1, 0, base) == 1
  {
  }

  lemma EncodeFitsSmall(n: nat)
    requires n < 8
    ensures Scale(1, n, 256) <= Scale(1, EncodedSize(n), 58)
  {
    hide Scale;
    ScaleNone(256);
    ScaleNone(58);
    Up256By3(0);
    Up256By3(1);
    Up256By3(4);
    Up256By4(0);
    Up256By3(3);
    Up58By3(0);
    Up58By4(0);
    Up58By3(1);
    Up58By3(4);
    Up58By3(3);
    Up58By3(2);
    Up58By4(1);
    Up58By4(2);
    Up58By4(3);
    Up58By4(5);
    Up58By4(6);
  }

  /** 58^r in bytes, for r below 15. */
  function SmallBytes(r: nat): nat
    requires r < 15
  {
    if r == 0 then 0 else if r <= 3 then r else if r <= 7 then r - 1 else if r <= 11 then r - 2 else r - 3
  }

  lemma DecodeFitsSmall(r: nat)
    requires r < 15
    ensures Scale(1, r, 58) <= Scale(1, SmallBytes(r), 256)
  {
    hide Scale;
    Powers58();
    Powers256();
    if r < 4 {
      assert r == 0 || r == 1 || r == 2 || r == 3;
    } else if r < 8 {
      assert r == 4 || r == 5 || r == 6 || r == 7;
    } else if r < 12 {
      assert r == 8 || r == 9 || r == 10 || r == 11;
    } else {
      assert r == 12 || r == 13 || r == 14;
    }
  }

  lemma Powers58()
    ensures Scale(1, 0, 58) == 1 && Scale(1, 1, 58) == 58 && Scale(1, 2, 58) == 3364 && Scale(1, 3, 58) == 195112
    ensures Scale(1, 4, 58) == 11316496 && Scale(1, 5, 58) == 656356768 && Scale(1, 6, 58) == 38068692544
    ensures Scale(1, 7, 58) == 2207984167552 && Scale(1, 8, 58) == 128063081718016
    ensures Scale(1, 9, 58) == 7427658739644928 && Scale(1, 10, 58) == 430804206899405824
    ensures Scale(1, 11, 58) == 24986644000165537792 && Scale(1, 12, 58) == 1449225352009601191936
    ensures Scale(1, 13, 58) == 84055070416556869132288 && Scale(1, 14, 58) == 4875194084160298409672704
  {
    assert Scale(1, 0, 58) == 1 && Scale(1, 1, 58) == 58 && Scale(1, 2, 58) == 3364 && Scale(1, 3, 58) == 195112;
    assert Scale(1, 4, 58) == 11316496 && Scale(1, 5, 58) == 656356768 && Scale(1, 6, 58) == 38068692544;
    assert Scale(1, 7, 58) == 2207984167552 && Scale(1, 8, 58) == 128063081718016;
    assert Scale(1, 9, 58) == 7427658739644928 && Scale(1, 10, 58) == 430804206899405824;
    assert Scale(1, 11, 58) == 24986644000165537792 && Scale(1, 12, 58) == 1449225352009601191936;
    assert Scale(1, 13, 58) == 84055070416556869132288 && Scale(1, 14, 58) == 4875194084160298409672704;
  }

  lemma Powers256()
    ensures Scale(1, 0, 256) == 1 && Scale(1, 1, 256) == 256 && Scale(1, 2, 256) == 65536
    ensures Scale(1, 3, 256) == 16777216 && Scale(1, 4, 256) == 4294967296 && Scale(1, 5, 256) == 1099511627776
    ensures Scale(1, 6, 256) == 281474976710656 && Scale(1, 7, 256) == 72057594037927936
    ensures Scale(1, 8, 256) == 18446744073709551616 && Scale(1, 9, 256) == 4722366482869645213696
    ensures Scale(1, 10, 256) == 1208925819614629174706176 && Scale(1, 11, 256) == 309485009821345068724781056
  {
    assert Scale(1, 0, 256) == 1 && Scale(1, 1, 256) == 256 && Scale(1, 2, 256) == 65536;
    assert Scale(1, 3, 256) == 16777216 && Scale(1, 4, 256) == 4294967296 && Scale(1, 5, 256) == 1099511627776;
    assert Scale(1, 6, 256) == 281474976710656 && Scale(1, 7, 256) == 72057594037927936;
    assert Scale(1, 8, 256) == 18446744073709551616 && Scale(1, 9, 256) == 4722366482869645213696;
    assert Scale(1, 10, 256) == 1208925819614629174706176 && Scale(1, 11, 256) == 309485009821345068724781056;
  }

  lemma {:induction false} ScaleSum(a: nat, b: nat, base: nat)
    ensures Scale(1, a + b, base) == Scale(Scale(1, b, base), a, base)
  {
    if a > 0 {
      ScaleSum(a - 1, b, base);
    }
  }

  /** 58^a <= 256^b and 58^c <= 256^d give 58^(a+c) <= 256^(b+d). */
  lemma FitsTogether(a: nat, b: nat, c: nat, d: nat)
    requires Scale(1, a, 58) <= Scale(1, b, 256) && Scale(1, c, 58) <= Scale(1, d, 256)
    ensures Scale(1, a + c, 58) <= Scale(1, b + d, 256)
  {
    hide Scale;
    ScaleSum(a, c, 58);
    ScaleSum(b, d, 256);
    var x, y := Scale(1, c, 58), Scale(1, d, 256);
    ScaleTimes(x, 1, a, 58);
    ScaleTimes(y, 1, b, 256);
    OrderBoth(x, y, Scale(1, a, 58), Scale(1, b, 256));
  }

  lemma OrderBoth(x: nat, y: nat, u: nat, v: nat)
    requires x <= y && u <= v
    ensures x * u <= y * v
  {
    assert x * u <= x * v;
    assert x * v <= y * v;
  }

  lemma {:induction false} DecodeFitsBelow(n: nat)
    requires n < 71
    ensures Scale(1, n, 58) <= Scale(1, 11 * (n / 15) + SmallBytes(n % 15), 256)
  {
    hide Scale, SmallBytes;
    if n < 15 {
      DecodeFitsSmall(n);
    } else {
      DecodeFitsBelow(n - 15);
      Step15();
      FitsTogether(15, 11, n - 15, 11 * ((n - 15) / 15) + SmallBytes(n % 15));
    }
  }

  /** 58^15 < 256^11 */
  lemma Step15()
    ensures Scale(1, 15, 58) <= Scale(1, 11, 256)
  {
    Powers58();
    Powers256();
  }

  /** 58^71 < 256^52 */
  lemma Step71()
    ensures Scale(1, 71, 58) <= Scale(1, 52, 256)
  {
    hide Scale;
    Powers58();
    Powers256();
    PowerSquare(58, 14, 14);
    PowerSquare(58, 28, 28);
    PowerSquare(58, 56, 14);
    PowerSquare(58, 70, 1);
    PowerSquare(256, 11, 11);
    PowerSquare(256, 22, 22);
    PowerSquare(256, 44, 8);
  }

  lemma PowerSquare(base: nat, a: nat, b: nat)
    ensures Scale(1, a + b, base) == Scale(1, a, base) * Scale(1, b, base)
  {
    hide Scale;
    ScaleSum(a, b, base);
    ScaleTimes(Scale(1, b, base), 1, a, base);
  }

  lemma TableFits(n: nat)
    requires n < 71
    ensures 11 * (n / 15) + SmallBytes(n % 15) <= DecodedSize(n)
  {
    if n < 15 {
    } else if n < 30 {
    } else if n < 45 {
    } else if n < 60 {
    }
  }

  lemma {:induction false} DecodeFits(n: nat)
    ensures Scale(1, n, 58) <= Scale(1, DecodedSize(n), 256)
  {
    hide Scale, SmallBytes;
    if n < 71 {
      DecodeFitsBelow(n);
      TableFits(n);
      ScaleMono(11 * (n / 15) + SmallBytes(n % 15), DecodedSize(n), 256);
    } else {
      DecodeFits(n - 71);
      Step71();
      FitsTogether(71, 52, n - 71, DecodedSize(n - 71));
      ScaleMono(52 + DecodedSize(n - 71), DecodedSize(n), 256);
    }
  }

  // ---- The alphabet

  /** A digit or letter that cannot be taken for another: not 0, capital o, capital i or small L. */
  predicate Plain(c: char) {
    || '1' <= c <= '9'
    || ('A' <= c <= 'Z' && c != 'I' && c != 'O')
    || ('a' <= c <= 'z' && c != 'l')
  }

  /** The code of letter `i`. */
  function Code(i: nat): nat {
    if i <= 8 then 49 + i
    else if i <= 16 then 56 + i
    else if i <= 21 then 57 + i
    else if i <= 32 then 58 + i
    else if i <= 43 then 64 + i
    else 65 + i
  }

  /** `s` holds the characters from code `first` on. */
  ghost predicate Consecutive(s: string, first: nat) {
    forall k :: 0 <= k < |s| ==> s[k] as int == first + k
  }

  lemma Runs()
    ensures Consecutive("123456789", 49) && Consecutive("ABCDEFGH", 65) && Consecutive("JKLMN", 74)
    ensures Consecutive("PQRSTUVWXYZ", 80) && Consecutive("abcdefghijk", 97) && Consecutive("mnopqrstuvwxyz", 109)
  {
  }

  lemma Coded(a: string, b: string, c: string, d: string, e: string, f: string)
    requires Consecutive(a, 49) && Consecutive(b, 65) && Consecutive(c, 74)
    requires Consecutive(d, 80) && Consecutive(e, 97) && Consecutive(f, 109)
    requires |a| == 9 && |b| == 8 && |c| == 5 && |d| == 11 && |e| == 11 && |f| == 14
    ensures var s := a + b + c + d + e + f;
            |s| == 58 && forall i :: 0 <= i < 58 ==> s[i] as int == Code(i)
  {
  }

  lemma AllCoded()
    ensures |ALPHABET| == 58 && forall i :: 0 <= i < 58 ==> ALPHABET[i] as int == Code(i)
  {
    Runs();
    hide Consecutive, Code;
    Coded("123456789", "ABCDEFGH", "JKLMN", "PQRSTUVWXYZ", "abcdefghijk", "mnopqrstuvwxyz");
  }

  /** The letters rise. */
  lemma Rises(i: nat, j: nat)
    requires i <= j < 58
    ensures ALPHABET[i] <= ALPHABET[j] && (i < j ==> ALPHABET[i] < ALPHABET[j])
    ensures ALPHABET[i] as int == Code(i)
  {
    AllCoded();
    hide ALPHABET;
  }

  /** The letters are exactly these characters, in the order of their codes. */
  lemma AlphabetIs()
    ensures |ALPHABET| == 58
    ensures forall i, j :: 0 <= i < j < 58 ==> ALPHABET[i] < ALPHABET[j]
    ensures forall c :: c in ALPHABET <==> Plain(c)
  {
    FirstLetter();
    hide ALPHABET;
    forall i, j | 0 <= i < j < 58 ensures ALPHABET[i] < ALPHABET[j] {
      Rises(i, j);
    }
    forall c ensures c in ALPHABET <==> Plain(c) {
      if Plain(c) {
        var i := Position(c);
        Rises(i, i);
        assert ALPHABET[i] == c;
      }
      if c in ALPHABET {
        var i :| 0 <= i < 58 && ALPHABET[i] == c;
        Rises(i, i);
      }
    }
  }

  lemma Position(c: char) returns (i: nat)
    requires Plain(c)
    ensures i < 58 && Code(i) == c as int
  {
    var n := c as int;
    i := if n <= 57 then n - 49 else if n <= 72 then n - 56 else if n <= 78 then n - 57 else if n <= 90 then n - 58
         else if n <= 107 then n - 64 else n - 65;
  }

  lemma FirstLetter()
    ensures |ALPHABET| == 58 && ALPHABET[0] == '1'
  {
  }

  /** strchr: the position of a letter, or -1. */
  function Letter(c: char): (r: int)
    ensures r == -1 || (0 <= r < 58 && r < |ALPHABET| && ALPHABET[r] == c)
  {
    LetterFrom(c, 0)
  }

  function LetterFrom(c: char, i: nat): (r: int)
    requires i <= 58
    ensures r == -1 || (i <= r < 58 && r < |ALPHABET| && ALPHABET[r] == c)
    decreases 58 - i
  {
    FirstLetter();
    if i == 58 then -1 else if ALPHABET[i] == c then i else LetterFrom(c, i + 1)
  }

  /** Letters are found where they stand; they are no spaces, and only the first is '1'. */
  lemma LetterOfAlphabet(k: nat)
    requires k < 58
    ensures k < |ALPHABET| && Letter(ALPHABET[k]) == k
    ensures !IsSpace(ALPHABET[k]) && (ALPHABET[k] == '1' <==> k == 0)
  {
    FirstLetter();
    hide ALPHABET, Code;
    SpaceOrOne(k);
    FoundFrom(k, 0);
  }

  lemma SpaceOrOne(k: nat)
    requires k < 58
    ensures |ALPHABET| == 58 && !IsSpace(ALPHABET[k]) && (ALPHABET[k] == '1' <==> k == 0)
  {
    FirstLetter();
    hide ALPHABET;
    Rises(k, k);
  }

  lemma {:induction false} FoundFrom(k: nat, i: nat)
    requires i <= k < 58 && |ALPHABET| == 58
    ensures LetterFrom(ALPHABET[k], i) == k
    decreases k - i
  {
    hide ALPHABET, Code;
    Rises(i, k);
    if i < k {
      FoundFrom(k, i + 1);
    }
  }

  // ---- Encoding and decoding as functions

  function LeadingZeros(b: seq<nat>): (z: nat)
    ensures z <= |b| && Zeros(b[..z]) && (z < |b| ==> b[z] != 0)
  {
    if b == [] || b[0] != 0 then 0 else 1 + LeadingZeros(b[1..])
  }

  function Letters(ds: seq<nat>): (s: string)
    requires Below(ds, 58)
    ensures |s| == |ds|
  {
    FirstLetter();
    seq(|ds|, i requires 0 <= i < |ds| => ALPHABET[ds[i]])
  }

  function Repeat<T>(n: nat, x: T): (s: seq<T>)
    ensures |s| == n && forall i :: 0 <= i < n ==> s[i] == x
  {
    seq(n, i => x)
  }

  /** A '1' for every leading zero byte, then the digits of the rest. */
  function Encode(b: seq<nat>): string {
    DigitsFacts(Num(b, 256), 58);
    Repeat(LeadingZeros(b), '1') + Letters(Digits(Num(b, 256), 58))
  }

  predicate IsSpace(c: char) {
    c == ' ' || c == '\t' || c == '\n' || c == '\r' || c == 11 as char || c == 12 as char
  }

  function SkipSpaces(s: string): string {
    if s != [] && IsSpace(s[0]) then SkipSpaces(s[1..]) else s
  }

  function LeadingOnes(s: string): (n: nat)
    ensures n <= |s| && (forall i :: 0 <= i < n ==> s[i] == '1') && (n < |s| ==> s[n] != '1')
  {
    if s == [] || s[0] != '1' then 0 else 1 + LeadingOnes(s[1..])
  }

  /** The length of the text before the next space. */
  function WordLength(s: string): (n: nat)
    ensures n <= |s| && (forall i :: 0 <= i < n ==> !IsSpace(s[i])) && (n < |s| ==> IsSpace(s[n]))
  {
    if s == [] || IsSpace(s[0]) then 0 else 1 + WordLength(s[1..])
  }

  predicate AllLetters(s: string) {
    forall i :: 0 <= i < |s| ==> Letter(s[i]) >= 0
  }

  function Values(s: string): (v: seq<nat>)
    requires AllLetters(s)
    ensures |v| == |s| && Below(v, 58) && forall i :: 0 <= i < |s| ==> v[i] == Letter(s[i])
  {
    seq(|s|, i requires 0 <= i < |s| => Letter(s[i]))
  }

  function Decode(s: string): Option<seq<nat>> {
    var t := SkipSpaces(s);
    var ones := LeadingOnes(t);
    var u := t[ones..];
    var n := WordLength(u);
    if AllLetters(u[..n]) && SkipSpaces(u[n..]) == []
    then Some(Repeat(ones, 0) + Digits(Num(Values(u[..n]), 58), 256))
    else None
  }

  /** The text without the spaces around it. */
  function Trim(s: string): string {
    var t := SkipSpaces(s);
    t[..WordLength(t)]
  }

  // ---- Round trips

  /** An encoding has a '1' for each leading zero byte and no more in front, letters only, and read as digits of base
      58, the highest first, it is the number of the bytes, the highest first. */
  lemma EncodingIs(b: seq<nat>)
    requires Below(b, 256)
    ensures var s := Encode(b);
            && LeadingOnes(s) == LeadingZeros(b) && AllLetters(s)
            && Num(Values(s), 58) == Num(b, 256)
  {
    hide Num, Letters, Digits, Encode, Values, Letter, LeadingZeros, LeadingOnes, Below;
    var z, ds := LeadingZeros(b), Digits(Num(b, 256), 58);
    DigitsFacts(Num(b, 256), 58);
    EncodeIs(b);
    DigitsStart(Num(b, 256), 58);
    OnesAndLetters(z, ds);
    NumSkipZeros(Repeat(z, 0) + ds, z, 58);
    assert (Repeat(z, 0) + ds)[z..] == ds;
  }

  lemma OnesAndLetters(z: nat, ds: seq<nat>)
    requires Below(ds, 58) && (ds != [] ==> ds[0] != 0)
    ensures var s := Repeat(z, '1') + Letters(ds);
            LeadingOnes(s) == z && AllLetters(s) && Values(s) == Repeat(z, 0) + ds
  {
    hide Letters, Values, Letter, LeadingOnes, IsSpace, ALPHABET;
    var s := Repeat(z, '1') + Letters(ds);
    LettersAre(ds);
    LetterOfAlphabet(0);
    forall i | z <= i < |s| ensures Letter(s[i]) == ds[i - z] && (s[i] == '1' <==> ds[i - z] == 0) {
      LetterOfAlphabet(ds[i - z]);
    }
    OnesAre(s, z);
  }

  lemma EncodeIs(b: seq<nat>)
    ensures Below(Digits(Num(b, 256), 58), 58)
    ensures Encode(b) == Repeat(LeadingZeros(b), '1') + Letters(Digits(Num(b, 256), 58))
  {
    DigitsFacts(Num(b, 256), 58);
  }

  lemma LettersAre(ds: seq<nat>)
    requires Below(ds, 58)
    ensures |ALPHABET| == 58 && ALPHABET[0] == '1'
    ensures forall i :: 0 <= i < |ds| ==> Letters(ds)[i] == ALPHABET[ds[i]]
  {
    FirstLetter();
  }

  lemma DigitsStart(n: nat, base: nat)
    requires base >= 2
    ensures Digits(n, base) != [] ==> Digits(n, base)[0] != 0
  {
    DigitsFacts(n, base);
  }

  lemma OnesAre(s: string, z: nat)
    requires z <= |s| && (forall i :: 0 <= i < z ==> s[i] == '1') && (z < |s| ==> s[z] != '1')
    ensures LeadingOnes(s) == z
  {
  }

  lemma {:induction false} LeadingZerosOf(z: nat, d: seq<nat>)
    requires d != [] ==> d[0] != 0
    ensures LeadingZeros(Repeat(z, 0) + d) == z
  {
    var s := Repeat(z, 0) + d;
    if z > 0 {
      LeadingZerosOf(z - 1, d);
      assert s[1..] == Repeat(z - 1, 0) + d;
    } else {
      assert s == d;
    }
  }

  lemma {:induction false} LeadingOnesOf(z: nat, d: string)
    requires d != [] ==> d[0] != '1'
    ensures LeadingOnes(Repeat(z, '1') + d) == z
  {
    var s := Repeat(z, '1') + d;
    if z > 0 {
      LeadingOnesOf(z - 1, d);
      assert s[1..] == Repeat(z - 1, '1') + d;
    } else {
      assert s == d;
    }
  }

  lemma {:induction false} NoSpaces(s: string)
    requires forall i :: 0 <= i < |s| ==> !IsSpace(s[i])
    ensures SkipSpaces(s) == s && WordLength(s) == |s|
  {
    if s != [] {
      NoSpaces(s[1..]);
    }
  }

  lemma LettersAreWord(ds: seq<nat>)
    requires Below(ds, 58)
    ensures AllLetters(Letters(ds)) && Values(Letters(ds)) == ds
    ensures forall i :: 0 <= i < |ds| ==> !IsSpace(Letters(ds)[i])
    ensures ds != [] ==> (Letters(ds)[0] == '1' <==> ds[0] == 0)
  {
    hide ALPHABET, IsSpace, Letter;
    forall i | 0 <= i < |ds|
      ensures Letter(Letters(ds)[i]) == ds[i] && !IsSpace(Letters(ds)[i]) && (Letters(ds)[i] == '1' <==> ds[i] == 0)
    {
      LetterOfAlphabet(ds[i]);
    }
  }

  lemma ValuesAreLetters(s: string)
    requires AllLetters(s)
    ensures Letters(Values(s)) == s
  {
    FirstLetter();
    hide ALPHABET;
  }

  lemma DecodeWord(z: nat, ds: seq<nat>)
    requires Below(ds, 58) && (ds != [] ==> ds[0] != 0)
    ensures Decode(Repeat(z, '1') + Letters(ds)) == Some(Repeat(z, 0) + Digits(Num(ds, 58), 256))
  {
    LettersAreWord(ds);
    OneIsNoSpace();
    hide ALPHABET, IsSpace, Letter, Letters, Num, Digits;
    var u := Letters(ds);
    var s := Repeat(z, '1') + u;
    LeadingOnesOf(z, u);
    NoSpaces(s);
    NoSpaces(u);
    assert s[z..] == u && u[..|u|] == u && u[|u|..] == [];
  }

  lemma ZerosAndDigits(b: seq<nat>)
    requires Below(b, 256)
    ensures b == Repeat(LeadingZeros(b), 0) + Digits(Num(b, 256), 256)
  {
    hide Num, Digits;
    var z := LeadingZeros(b);
    NumSkipZeros(b, z, 256);
    DigitsUnique(b[z..], 256);
    hide LeadingZeros, Below;
    StartZeros(b, z);
  }

  lemma StartZeros(b: seq<nat>, z: nat)
    requires z <= |b| && Zeros(b[..z])
    ensures b == Repeat(z, 0) + b[z..]
  {
    hide Repeat;
    assert forall i :: 0 <= i < z ==> b[i] == b[..z][i];
  }

  /** Every byte string decodes from its encoding. */
  lemma DecodeEncode(b: seq<nat>)
    requires Below(b, 256)
    ensures Decode(Encode(b)) == Some(b)
  {
    hide Num, Digits, Letters, Decode;
    DigitsFacts(Num(b, 256), 58);
    NoDigits();
    DecodeWord(LeadingZeros(b), Digits(Num(b, 256), 58));
    ZerosAndDigits(b);
  }

  lemma NoDigits()
    ensures Digits(0, 58) == []
  {
  }

  lemma OneIsNoSpace()
    ensures !IsSpace('1')
  {
  }

  lemma EncodeNumber(z: nat, num: nat)
    ensures Below(Digits(num, 58), 58) && Below(Repeat(z, 0) + Digits(num, 256), 256)
    ensures Encode(Repeat(z, 0) + Digits(num, 256)) == Repeat(z, '1') + Letters(Digits(num, 58))
  {
    hide Num, Letters, Digits;
    DigitsFacts(num, 58);
    DigitsFacts(num, 256);
    NoBytes();
    var ds := Digits(num, 256);
    var b := Repeat(z, 0) + ds;
    LeadingZerosOf(z, ds);
    assert b[..z] == Repeat(z, 0) && b[z..] == ds;
    NumSkipZeros(b, z, 256);
  }

  lemma NoBytes()
    ensures Digits(0, 256) == []
  {
  }

  /** Whatever decodes is, but for spaces around it, the encoding of what it decodes to. */
  lemma EncodeDecode(s: string)
    requires Decode(s).Some?
    ensures Below(Decode(s).value, 256) && Encode(Decode(s).value) == Trim(s)
  {
    hide Num, Letters, Digits, Encode, Letter, IsSpace, Values;
    var t := SkipSpaces(s);
    var ones := LeadingOnes(t);
    var u := t[ones..];
    var n := WordLength(u);
    var v := Values(u[..n]);
    EncodeNumber(ones, Num(v, 58));
    FirstValue(u, n);
    DigitsUnique(v, 58);
    ValuesAreLetters(u[..n]);
    WordAfterOnes(t, ones);
    assert t[..ones] == Repeat(ones, '1');
    assert t[..ones + n] == t[..ones] + u[..n];
  }

  lemma FirstValue(u: string, n: nat)
    requires n <= |u| && AllLetters(u[..n]) && (u != [] ==> u[0] != '1')
    ensures n > 0 ==> Values(u[..n])[0] != 0
  {
    FirstLetter();
    hide ALPHABET;
  }

  lemma {:induction false} WordAfterOnes(t: string, ones: nat)
    requires ones <= |t| && forall i :: 0 <= i < ones ==> t[i] == '1'
    ensures WordLength(t) == ones + WordLength(t[ones..])
  {
    if ones > 0 {
      OneIsNoSpace();
      WordAfterOnes(t[1..], ones - 1);
      assert t[1..][ones - 1..] == t[ones..];
    }
  }

  // ---- The algorithms

  /** EncodeBase58; its assert cannot fail. */
  method EncodeBase58(b: seq<nat>) returns (str: string)
    requires Below(b, 256)
    ensures str == Encode(b)
  {
    hide Num, Scale, Digits, ALPHABET, Letters, LeadingZeros, EncodedSize;
    var zeroes := CountZeros(b);
    var size := EncodedSize(|b| - zeroes);
    var b58 := new nat[size](_ => 0);
    var length := 0;
    EmptyBuffer(b58[..], b[..zeroes], 58, 256);
    var p := zeroes;
    while p < |b|
      invariant zeroes <= p <= |b| && length <= size && b58.Length == size && Below(b58[..], 58)
      invariant Zeros(b58[..size - length])
      invariant Num(b58[..], 58) == Num(b[..p], 256)
    {
      NextDigit(b, p, 256);
      PrefixFits(b, zeroes, p + 1, 256);
      EncodeFits(|b| - zeroes);
      length := Absorb(b58, length, 256, 58, b[p]);
      p := p + 1;
    }
    assert b[..|b|] == b;
    var it := Significant(b58, length, 58);
    str := Repeat(zeroes, '1');
    var rest := Translate(b58[it..]);
    str := str + rest;
  }

  method CountZeros(b: seq<nat>) returns (z: nat)
    ensures z == LeadingZeros(b) && z <= |b| && Zeros(b[..z])
  {
    z := 0;
    while z < |b| && b[z] == 0
      invariant z <= |b| && LeadingZeros(b) == z + LeadingZeros(b[z..])
    {
      assert b[z..][1..] == b[z + 1..];
      z := z + 1;
    }
  }

  method Translate(ds: seq<nat>) returns (s: string)
    requires Below(ds, 58)
    ensures s == Letters(ds)
  {
    FirstLetter();
    hide ALPHABET;
    s := "";
    var i := 0;
    while i < |ds|
      invariant i <= |ds| && |s| == i && forall j :: 0 <= j < i ==> s[j] == ALPHABET[ds[j]]
    {
      s := s + [ALPHABET[ds[i]]];
      i := i + 1;
    }
  }

  lemma EmptyBuffer(buf: seq<nat>, zeros: seq<nat>, base: nat, from: nat)
    requires Zeros(buf) && Zeros(zeros)
    ensures Num(buf, base) == 0 && Num(zeros, from) == 0
    ensures forall n :: 0 <= n <= |buf| ==> Zeros(buf[..n])
  {
    hide Num;
    assert buf[..|buf|] == buf && zeros[..|zeros|] == zeros;
    NumSkipZeros(buf, |buf|, base);
    NumSkipZeros(zeros, |zeros|, from);
    assert buf[|buf|..] == [] && zeros[|zeros|..] == [];
    NoNumber(base);
    NoNumber(from);
  }

  lemma NoNumber(base: nat)
    ensures Num([], base) == 0
  {
  }

  lemma NextDigit(s: seq<nat>, p: nat, base: nat)
    requires p < |s|
    ensures Num(s[..p + 1], base) == base * Num(s[..p], base) + s[p]
  {
    assert s[..p + 1][..p] == s[..p];
  }

  /** The number of a part of the input is less than the base to the length of the whole. */
  lemma PrefixFits(s: seq<nat>, z: nat, p: nat, base: nat)
    requires z <= p <= |s| && Below(s, base) && base >= 2 && Zeros(s[..z])
    ensures Num(s[..p], base) < Scale(1, |s| - z, base)
  {
    hide Num, Scale;
    assert s[..p][..z] == s[..z];
    NumSkipZeros(s[..p], z, base);
    NumBound(s[..p][z..], base);
    ScaleMono(p - z, |s| - z, base);
  }

  /** DecodeBase58 on a text without NUL characters; its assert cannot fail. */
  method DecodeBase58(psz: string) returns (ok: bool, vch: seq<nat>)
    ensures ok <==> Decode(psz).Some?
    ensures ok ==> vch == Decode(psz).value
  {
    hide Num, Scale, Digits, Letter, IsSpace, SkipSpaces, LeadingOnes, WordLength, DecodedSize, AllLetters, Values;
    vch := [];
    var t := Skip(psz);
    var zeroes := CountOnes(t);
    var u := t[zeroes..];
    var size := DecodedSize(|u|);
    var b256 := new nat[size](_ => 0);
    var length := 0;
    EmptyBuffer(b256[..], [], 256, 58);
    NoLetters(u);
    var p := 0;
    while p < |u| && !IsSpace(u[p])
      invariant p <= |u| && length <= size && b256.Length == size && Below(b256[..], 256)
      invariant Zeros(b256[..size - length])
      invariant WordLength(u) == p + WordLength(u[p..])
      invariant AllLetters(u[..p]) && Num(b256[..], 256) == Num(Values(u[..p]), 58)
    {
      WordGoesOn(u, p);
      var ch := Letter(u[p]);
      NextLetter(u, p);
      if ch < 0 {
        return false, [];
      }
      LetterFits(u, p);
      length := Absorb(b256, length, 58, 256, ch);
      p := p + 1;
    }
    WordEnds(u, p);
    var rest := Skip(u[p..]);
    if rest != [] {
      return false, [];
    }
    var it := Significant(b256, length, 256);
    return true, Repeat(zeroes, 0) + b256[it..];
  }

  method Skip(s: string) returns (t: string)
    ensures t == SkipSpaces(s)
  {
    hide IsSpace;
    t := s;
    while t != [] && IsSpace(t[0])
      invariant SkipSpaces(t) == SkipSpaces(s)
      decreases |t|
    {
      t := t[1..];
    }
  }

  method CountOnes(s: string) returns (n: nat)
    ensures n == LeadingOnes(s)
  {
    n := 0;
    while n < |s| && s[n] == '1'
      invariant n <= |s| && LeadingOnes(s) == n + LeadingOnes(s[n..])
    {
      assert s[n..][1..] == s[n + 1..];
      n := n + 1;
    }
  }

  lemma NoLetters(u: string)
    ensures AllLetters(u[..0]) && Num(Values(u[..0]), 58) == 0 && u[0..] == u
  {
    assert Values(u[..0]) == [];
    NoNumber(58);
  }

  lemma WordGoesOn(u: string, p: nat)
    requires p < |u| && !IsSpace(u[p])
    ensures WordLength(u[p..]) == 1 + WordLength(u[p + 1..])
  {
    assert u[p..][1..] == u[p + 1..];
  }

  /** The number of the letters read so far fits the buffer. */
  lemma LetterFits(u: string, p: nat)
    requires p < |u| && AllLetters(u[..p + 1]) && AllLetters(u[..p])
    requires Values(u[..p + 1])[..p] == Values(u[..p])
    ensures Num(Values(u[..p + 1]), 58) == 58 * Num(Values(u[..p]), 58) + Values(u[..p + 1])[p]
    ensures Num(Values(u[..p + 1]), 58) < Scale(1, DecodedSize(|u|), 256)
  {
    hide Num, Scale, DecodedSize, Letter;
    var v := Values(u[..p + 1]);
    assert v[..p + 1] == v;
    NextDigit(v, p, 58);
    PrefixFits(v, 0, p + 1, 58);
    ScaleMono(p + 1, |u|, 58);
    DecodeFits(|u|);
  }

  lemma WordEnds(u: string, p: nat)
    requires p <= |u| && (p == |u| || IsSpace(u[p]))
    ensures WordLength(u[p..]) == 0
  {
  }

  /** The next character of a word either is no letter, so that nothing decodes, or adds its value. */
  lemma NextLetter(u: string, p: nat)
    requires p < |u| && AllLetters(u[..p]) && WordLength(u) >= p + 1
    ensures Letter(u[p]) < 0 ==> !AllLetters(u[..WordLength(u)])
    ensures Letter(u[p]) >= 0 ==>
              && AllLetters(u[..p + 1])
              && |Values(u[..p + 1])| == p + 1
              && Values(u[..p + 1])[..p] == Values(u[..p]) && Values(u[..p + 1])[p] == Letter(u[p])
  {
    hide Letter;
    assert u[..WordLength(u)][p] == u[p];
    assert forall i :: 0 <= i < p ==> u[..p + 1][i] == u[..p][i];
  }
}
