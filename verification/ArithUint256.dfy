/** The 256-bit unsigned integer of eight 32-bit limbs: arithmetic modulo 2^256, division, compact form. */
module ArithUint256 {
  import opened Numbers
  import opened Limbs
  import opened Bits
  import opened Compact

  const WIDTH: nat := 8

  class ArithUint256 {
    const pn: array<nat>

    ghost predicate Valid()
      reads this, pn
    {
      pn.Length == WIDTH && Normal(pn[..])
    }

    ghost function Value(): nat
      reads this, pn
    {
      Val(pn[..])
    }

    constructor (b: nat)
      requires b < TWO64
      ensures Valid() && fresh(pn) && Value() == b
    {
      var low, high := Word(b), b / MAX_U32;
      pn := new nat[WIDTH](i => if i == 0 then low else if i == 1 then high else 0);
      new;
      SmallVal(pn[..], b);
    }

    constructor Copy(b: ArithUint256)
      requires b.Valid()
      ensures Valid() && fresh(pn) && Value() == b.Value() && pn[..] == b.pn[..]
    {
      var limbs := b.pn[..];
      pn := new nat[WIDTH](i requires 0 <= i < |limbs| => limbs[i]);
      new;
      assert pn[..] == limbs;
    }

    /** operator=(0) */
    method SetZero()
      requires Valid()
      modifies pn
      ensures Valid() && Value() == 0 && forall i :: 0 <= i < WIDTH ==> pn[i] == 0
    {
      forall i | 0 <= i < WIDTH {
        pn[i] := 0;
      }
      ValZeros(pn[..]);
    }

    /** CompareTo */
    method CompareTo(b: ArithUint256) returns (r: int)
      requires Valid() && b.Valid()
      ensures r < 0 <==> Value() < b.Value()
      ensures r > 0 <==> Value() > b.Value()
      ensures -1 <= r <= 1
    {
      var i := WIDTH - 1;
      while i >= 0
        invariant -1 <= i < WIDTH
        invariant forall j :: i < j < WIDTH ==> pn[j] == b.pn[j]
      {
        if pn[i] < b.pn[i] {
          ValCompare(b.pn[..], pn[..], i);
          return -1;
        }
        if pn[i] > b.pn[i] {
          ValCompare(pn[..], b.pn[..], i);
          return 1;
        }
        i := i - 1;
      }
      assert pn[..] == b.pn[..];
      return 0;
    }

    /** operator+=; `b` may be this very object. */
    method Add(b: ArithUint256)
      requires Valid() && b.Valid()
      modifies pn
      ensures Valid() && Value() == (old(Value()) + old(b.Value())) % Pow2(256)
    {
      hide Val, Place, Pow2;
      ghost var x, y := pn[..], b.pn[..];
      var carry: nat := 0;
      var i := 0;
      NoLimbs(x, y, pn[..]);
      while i < WIDTH
        invariant i <= WIDTH && carry <= 1 && Valid()
        invariant forall j :: i <= j < WIDTH ==> pn[j] == x[j] && b.pn[j] == y[j]
        invariant Val(x[..i]) + Val(y[..i]) == Val(pn[..i]) + Place(carry, i)
      {
        var n := carry + pn[i] + b.pn[i];
        ghost var s := pn[..];
        AddLimb(x, y, s, i, carry, n);
        pn[i] := Word(n);
        assert pn[..i + 1] == s[..i] + [Word(n)];
        carry := n / MAX_U32;
        i := i + 1;
      }
      assert x[..WIDTH] == x && y[..WIDTH] == y && pn[..WIDTH] == pn[..];
      ValBound(pn[..]);
      Wrapped(Val(x) + Val(y), Val(pn[..]), carry);
    }

    /** operator++ */
    method Increment()
      requires Valid()
      modifies pn
      ensures Valid() && Value() == (old(Value()) + 1) % Pow2(256)
    {
      hide Val, Place, Pow2;
      var i := 0;
      PlaceNone(1);
      while i < WIDTH
        invariant i <= WIDTH && Valid()
        invariant Value() + Place(1, i) == old(Value()) + 1
      {
        ghost var s := pn[..];
        StepLimb(s, i);
        pn[i] := Word(pn[i] + 1);
        assert pn[..] == s[i := Word(s[i] + 1)];
        if pn[i] != 0 {
          ValBound(pn[..]);
          Wrapped(old(Value()) + 1, Value(), 0);
          return;
        }
        i := i + 1;
      }
      ValBound(pn[..]);
      Wrapped(old(Value()) + 1, Value(), 1);
    }

    /** operator-- */
    method Decrement()
      requires Valid()
      modifies pn
      ensures Valid() && Value() == (old(Value()) - 1) % Pow2(256)
    {
      hide Val, Place, Pow2;
      var i := 0;
      PlaceNone(1);
      while i < WIDTH
        invariant i <= WIDTH && Valid()
        invariant Value() == old(Value()) - 1 + Place(1, i)
      {
        ghost var s := pn[..];
        BackLimb(s, i);
        pn[i] := (pn[i] - 1) % MAX_U32;
        assert pn[..] == s[i := (s[i] - 1) % MAX_U32];
        if pn[i] != MAX_U32 - 1 {
          ValBound(pn[..]);
          Wrapped(old(Value()) - 1, Value(), 0);
          return;
        }
        i := i + 1;
      }
      ValBound(pn[..]);
      MinusOne();
      Wrapped(old(Value()) - 1, Value(), -1);
    }

    /** operator-, unary */
    method Negated() returns (r: ArithUint256)
      requires Valid()
      ensures r.Valid() && fresh(r) && fresh(r.pn)
      ensures r.Value() == (0 - Value()) % Pow2(256)
    {
      hide Val, Place, Pow2;
      r := new ArithUint256(0);
      ghost var x := pn[..];
      var i := 0;
      while i < WIDTH
        invariant i <= WIDTH && r.Valid() && pn[..] == x && r.pn != pn
        invariant forall j :: 0 <= j < i ==> r.pn[j] == MAX_U32 - 1 - x[j]
      {
        r.pn[i] := MAX_U32 - 1 - pn[i];
        i := i + 1;
      }
      Complement(x, r.pn[..]);
      ghost var v := r.Value();
      r.Increment();
      ValBound(r.pn[..]);
      Negation(Val(x), v);
    }

    /** operator-=; `b` may be this very object. */
    method Sub(b: ArithUint256)
      requires Valid() && b.Valid()
      modifies pn
      ensures Valid() && Value() == (old(Value()) - old(b.Value())) % Pow2(256)
    {
      hide Val, Place, Pow2;
      var neg := b.Negated();
      Add(neg);
      AddedNegation(old(Value()), old(b.Value()));
    }

    /** bits(): the position of the highest bit plus one. */
    method BitCount() returns (r: nat)
      requires Valid()
      ensures r == 0 <==> Value() == 0
      ensures r > 0 ==> Pow2(r - 1) <= Value() < Pow2(r)
      ensures r <= 256
    {
      hide Val, Place, Pow2, Shr;
      var pos := WIDTH - 1;
      while pos >= 0
        invariant -1 <= pos < WIDTH
        invariant forall j :: pos < j < WIDTH ==> pn[j] == 0
      {
        if pn[pos] != 0 {
          var nbits := 31;
          Pow2Is32();
          while nbits > 0
            invariant 0 <= nbits <= 31
            invariant pn[pos] < Pow2(nbits + 1)
          {
            TopBit(pn[pos], nbits);
            if Shr(pn[pos], nbits) % 2 != 0 {
              TopLimb(pn[..], pos, nbits);
              return 32 * pos + nbits + 1;
            }
            nbits := nbits - 1;
          }
          TopLimb(pn[..], pos, 0);
          return 32 * pos + 1;
        }
        pos := pos - 1;
      }
      ValZeros(pn[..]);
      return 0;
    }

    /** operator<<= */
    method ShiftLeft(shift: nat)
      requires Valid()
      modifies pn
      ensures Valid() && Value() == (old(Value()) * Pow2(shift)) % Pow2(256)
    {
      hide Val, Place, Pow2, Shl, Shr, BitOr, ShlLimb;
      var a := pn[..];
      SetZero();
      var k, s := shift / 32, shift % 32;
      ghost var q := 0;
      ShlStart(a, shift);
      var i := 0;
      while i < WIDTH
        invariant i <= WIDTH && ShlInv(pn[..], a, i, k, s, q)
      {
        ghost var x := pn[..];
        q := ShlStep(x, a, i, k, s, q);
        LimbsUpdated(x, a[i], i + k, s);
        if i + k + 1 < WIDTH && s != 0 {
          pn[i + k + 1] := BitOr(pn[i + k + 1], Shr(a[i], 32 - s));
        }
        if i + k < WIDTH {
          pn[i + k] := BitOr(pn[i + k], Word(Shl(a[i], s)));
        }
        assert pn[..] == ShlLimb(x, a[i], i + k, s);
        i := i + 1;
      }
      assert a[..WIDTH] == a;
      ShlEnd(pn[..], a, shift, q);
    }

    /** operator>>= */
    method ShiftRight(shift: nat)
      requires Valid()
      modifies pn
      ensures Valid() && Value() == old(Value()) / Pow2(shift)
    {
      hide Val, Place, Pow2, Shl, Shr, BitOr, ShrLimb;
      var a := pn[..];
      SetZero();
      var k, s := shift / 32, shift % 32;
      ghost var rest := 0;
      ShrStart(a, shift);
      var i := 0;
      while i < WIDTH
        invariant i <= WIDTH && ShrInv(pn[..], a, i, k, s, rest)
      {
        ghost var x := pn[..];
        rest := ShrStep(x, a, i, k, s, rest);
        LimbsLowered(x, a[i], i, k, s);
        if i - k - 1 >= 0 && s != 0 {
          pn[i - k - 1] := BitOr(pn[i - k - 1], Word(Shl(a[i], 32 - s)));
        }
        if i - k >= 0 {
          pn[i - k] := BitOr(pn[i - k], Shr(a[i], s));
        }
        assert pn[..] == ShrLimb(x, a[i], i, k, s);
        i := i + 1;
      }
      assert a[..WIDTH] == a;
      ShrEnd(pn[..], a, shift, rest);
    }

    /** operator*=(uint32_t); no partial sum leaves 64 bits. */
    method MulWord(b32: nat)
      requires Valid() && b32 < MAX_U32
      modifies pn
      ensures Valid() && Value() == (old(Value()) * b32) % Pow2(256)
    {
      hide Val, Place, Pow2, Times;
      ghost var x := pn[..];
      var carry: nat := 0;
      var i := 0;
      MulStart(x, b32, pn[..]);
      while i < WIDTH
        invariant i <= WIDTH && carry < MAX_U32 && Valid()
        invariant forall j :: i <= j < WIDTH ==> pn[j] == x[j]
        invariant Times(Val(x[..i]), b32) == Val(pn[..i]) + Place(carry, i)
      {
        WordProduct(carry, 0, b32, pn[i]);
        var n := carry + b32 * pn[i];
        assert n < TWO64;
        ghost var s := pn[..];
        MulLimb(x, s, i, b32, carry, n);
        pn[i] := Word(n);
        assert pn[..i + 1] == s[..i] + [Word(n)];
        carry := n / MAX_U32;
        i := i + 1;
      }
      assert x[..WIDTH] == x && pn[..WIDTH] == pn[..];
      ValBound(pn[..]);
      TimesIs(Val(x), b32);
      Wrapped(Val(x) * b32, Val(pn[..]), carry);
    }

    /** operator*=; no partial sum leaves 64 bits. An object multiplied by itself becomes 0, because it is cleared
        before the operand is read. */
    method Mul(b: ArithUint256)
      requires Valid() && b.Valid()
      modifies pn
      ensures Valid()
      ensures b.pn != pn ==> Value() == (old(Value()) * b.Value()) % Pow2(256)
      ensures b.pn == pn ==> Value() == 0
    {
      hide Val, Place, Pow2, Times;
      var a := pn[..];
      SetZero();
      ghost var y := b.pn[..];
      ghost var q := 0;
      MulStart(a, Val(y), a);
      PlaceOrder(0, 0, WIDTH);
      var j := 0;
      while j < WIDTH
        invariant j <= WIDTH && Valid() && b.pn[..] == y
        invariant b.pn == pn ==> forall k :: 0 <= k < WIDTH ==> pn[k] == 0
        invariant Times(Val(a[..j]), Val(y)) == Val(pn[..]) + Place(q, WIDTH)
      {
        var carry: nat := 0;
        var i := 0;
        MulRow(a, y, j);
        while i + j < WIDTH
          invariant i + j <= WIDTH && carry < MAX_U32 && Valid() && b.pn[..] == y
          invariant b.pn == pn ==> carry == 0 && forall k :: 0 <= k < WIDTH ==> pn[k] == 0
          invariant Times(Val(a[..j]), Val(y)) + Place(Times(a[j], Val(y[..i])), j)
                    == Val(pn[..]) + Place(carry, i + j) + Place(q, WIDTH)
        {
          WordProduct(carry, pn[i + j], a[j], b.pn[i]);
          var n := carry + pn[i + j] + a[j] * b.pn[i];
          assert n < TWO64;
          assert b.pn == pn ==> n == 0;
          ghost var s := pn[..];
          MulCell(s, y, i, j, a[j], carry, n);
          pn[i + j] := Word(n);
          assert pn[..] == s[i + j := Word(n)];
          carry := n / MAX_U32;
          i := i + 1;
        }
        q := RowEnd(a, y, j, carry, q);
        j := j + 1;
      }
      assert a[..WIDTH] == a;
      if b.pn == pn {
        ValZeros(pn[..]);
      }
      ValBound(pn[..]);
      TimesIs(Val(a), Val(y));
      Wrapped(Val(a) * Val(y), Val(pn[..]), q);
    }

    /** operator/=: the quotient of the division by shifting and subtracting, `rest` being what num ends as. False,
        with the quotient already cleared, when the source throws. */
    method Div(b: ArithUint256) returns (ok: bool, ghost rest: nat)
      requires Valid() && b.Valid()
      modifies pn
      ensures Valid()
      ensures ok <==> old(b.Value()) != 0
      ensures !ok ==> Value() == 0
      ensures ok ==> old(Value()) == old(b.Value()) * Value() + rest && rest < old(b.Value())
      ensures ok ==> Value() == old(Value()) / old(b.Value())
    {
      hide Val, Place, Pow2, Shl, Shr, Low, BitOr, Times;
      ghost var n, d := Value(), b.Value();
      var div := new ArithUint256.Copy(b);
      var num := new ArithUint256.Copy(this);
      SetZero();
      var numBits := num.BitCount();
      var divBits := div.BitCount();
      if divBits == 0 {
        return false, 0;
      }
      if divBits > numBits {
        SmallerBits(n, d, numBits, divBits);
        return true, n;
      }
      AlignedBits(n, d, numBits, divBits);
      div.ShiftLeft(numBits - divBits);
      ClearAll(pn[..], numBits - divBits + 1, d);
      ok := true;
      rest := DivLoop(num, div, numBits - divBits, n, d);
    }

    /** Shift and subtract: one bit of the quotient per turn, from the highest down. */
    method DivLoop(num: ArithUint256, div: ArithUint256, start: nat, ghost n: nat, ghost d: nat)
      returns (ghost rest: nat)
      requires Valid() && num.Valid() && div.Valid() && pn != num.pn && pn != div.pn && num.pn != div.pn
      requires start < 256 && num.Value() == n && div.Value() == Shl(d, start) && n < Shl(d, start + 1)
      requires Times(Value(), d) == 0 && ClearBelow(pn[..], start + 1)
      modifies pn, num.pn, div.pn
      ensures Valid() && n == d * Value() + rest && rest < d
      ensures d != 0 && Value() == n / d
    {
      hide Val, Place, Pow2, Shl, Shr, Low, BitOr, Times, ClearBelow, Normal;
      var shift: int := start;
      while shift >= 0
        invariant -1 <= shift < 256 && Valid() && num.Valid() && div.Valid()
        invariant num.Value() + Times(Value(), d) == n
        invariant num.Value() < Shl(d, shift + 1)
        invariant shift >= 0 ==> div.Value() == Shl(d, shift)
        invariant ClearBelow(pn[..], shift + 1)
      {
        ghost var s := pn[..];
        DivStep(s, d, shift, num.Value(), num.pn[..]);
        var c := num.CompareTo(div);
        if c >= 0 {
          num.Sub(div);
          pn[shift / 32] := BitOr(pn[shift / 32], Shl(1, shift % 32));
          assert pn[..] == s[shift / 32 := BitOr(s[shift / 32], Shl(1, shift % 32))];
        }
        div.ShiftRight(1);
        shift := shift - 1;
      }
      ShlNone(d);
      rest := num.Value();
      TimesIs(Value(), d);
      QuotientIs(n, Value(), rest, d);
    }

    /** GetLow64 */
    method GetLow64() returns (r: nat)
      requires Valid()
      ensures r < TWO64 && r == Value() % TWO64
    {
      hide Shl, BitOr;
      BitOrDisjoint32(pn[0], pn[1]);
      LowLimbs(pn[..]);
      return BitOr(pn[0], Shl(pn[1], 32));
    }

    /** SetCompact. The overflow flag tells exactly when the compact form does not fit in 256 bits. */
    method SetCompact(nCompact: nat) returns (negative: bool, overflow: bool)
      requires Valid() && nCompact < MAX_U32
      modifies pn
      ensures Valid() && Value() == FullValue(nCompact) % Pow2(256)
      ensures negative <==> SignBit(nCompact) && CompactWord(nCompact) != 0
      ensures overflow <==> FullValue(nCompact) >= Pow2(256)
    {
      hide Shl, Shr, Pow2, Val;
      var nSize, nWord := nCompact / 0x100_0000, nCompact % 0x80_0000;
      if nSize <= 3 {
        SmallCompact(nCompact);
        nWord := Shr(nWord, 8 * (3 - nSize));
        SetWord(nWord);
      } else {
        SetWord(nWord);
        ShiftLeft(8 * (nSize - 3));
        ShlIsTimes(nWord, 8 * (nSize - 3));
        WordBytes(nWord, 8 * (nSize - 3));
      }
      negative := nWord != 0 && nCompact / 0x80_0000 % 2 != 0;
      overflow := nWord != 0 && (nSize > 34 || (nWord > 0xff && nSize > 33) || (nWord > 0xffff && nSize > 32));
    }

    /** operator=(uint64_t) */
    method SetWord(b: nat)
      requires Valid() && b < TWO64
      modifies pn
      ensures Valid() && Value() == b
    {
      pn[0], pn[1] := Word(b), b / MAX_U32;
      var i := 2;
      while i < WIDTH
        invariant 2 <= i <= WIDTH && Valid() && pn[0] == b % MAX_U32 && pn[1] == b / MAX_U32
        invariant forall j :: 2 <= j < i ==> pn[j] == 0
      {
        pn[i] := 0;
        i := i + 1;
      }
      SmallVal(pn[..], b);
    }

    /** The top three bytes of the number, as GetCompact takes them. */
    method LeadingBytes(nSize: nat) returns (nCompact: nat)
      requires Valid() && nSize == Size(Value())
      ensures nCompact == Mantissa(Value())
    {
      hide Shl, Shr, Pow2, Val, Size, Mantissa, Word;
      LeadingWord(Value());
      if nSize <= 3 {
        var low := GetLow64();
        return Word(Shl(low, 8 * (3 - nSize)));
      } else {
        var bn := new ArithUint256.Copy(this);
        bn.ShiftRight(8 * (nSize - 3));
        var low := bn.GetLow64();
        return Word(low);
      }
    }

    /** GetCompact; neither of its two asserts can fail. */
    method GetCompact(negative: bool) returns (r: nat)
      requires Valid()
      ensures r == CompactOf(Value(), negative)
      ensures r < MAX_U32
    {
      hide Shl, Shr, Pow2, Val, BitOr, BitLen, Mantissa;
      var bits := BitCount();
      LengthIs(Value(), bits);
      var nSize := (bits + 7) / 8;
      var nCompact := LeadingBytes(nSize);
      MantissaBound(Value());
      if nCompact / 0x80_0000 % 2 != 0 {
        Shr8(nCompact);
        nCompact := Shr(nCompact, 8);
        nSize := nSize + 1;
      }
      assert nCompact < 0x80_0000;
      assert nSize < 256;
      JoinSize(nCompact, nSize, negative && nCompact != 0);
      r := BitOr(nCompact, Shl(nSize, 24));
      r := BitOr(r, if negative && nCompact % 0x80_0000 != 0 then 0x80_0000 else 0);
    }
  }

  // ---- Limb steps

  lemma SmallVal(s: seq<nat>, b: nat)
    requires |s| == WIDTH && s[0] == b % MAX_U32 && s[1] == b / MAX_U32 && forall i :: 2 <= i < WIDTH ==> s[i] == 0
    ensures Val(s) == b
  {
    ValZeros(s[2..]);
    assert s[1..][1..] == s[2..];
  }

  lemma NoLimbs(x: seq<nat>, y: seq<nat>, s: seq<nat>)
    ensures Val(x[..0]) == 0 && Val(y[..0]) == 0 && Val(s[..0]) == 0 && Place(0, 0) == 0
  {
  }

  lemma PlaceNone(v: int)
    ensures Place(v, 0) == v
  {
  }

  /** `x` is `r` up to a multiple of 2^256. */
  lemma Wrapped(x: int, r: nat, q: int)
    requires x == r + Place(q, WIDTH) && r < Place(1, WIDTH)
    ensures r == x % Pow2(256)
  {
    hide Place, Pow2;
    PlacePow2(0, WIDTH);
    Pow2None();
    PlaceTimes(1, WIDTH, q);
    ModIs(x, r, q, Pow2(256));
  }

  lemma ModIs(x: int, r: nat, q: int, m: nat)
    requires x == r + m * q && r < m
    ensures r == x % m
  {
    var d := x / m - q;
    assert x == m * (x / m) + x % m;
    assert m * (x / m) - m * q == m * d;
    assert d >= 1 ==> m * d >= m;
    assert d <= -1 ==> m * d <= 0 - m;
  }

  lemma {:induction false} PlaceTimes(v: int, i: nat, c: int)
    ensures Place(v * c, i) == Place(v, i) * c
  {
    if i > 0 {
      PlaceTimes(v, i - 1, c);
      var p := Place(v, i - 1);
      assert (MAX_U32 * p) * c == MAX_U32 * (p * c);
    }
  }

  lemma Prefix(s: seq<nat>, i: nat)
    requires i < |s|
    ensures s[..i + 1] == s[..i] + [s[i]]
    ensures Val(s[..i + 1]) == Val(s[..i]) + Place(s[i], i)
  {
    hide Val, Place;
    ValAppend(s[..i], s[i]);
    assert s[..i + 1] == s[..i] + [s[i]];
  }

  /** Splitting a sum into the limb it leaves and the carry it passes on. */
  lemma PlaceSplit(n: nat, i: nat)
    ensures Place(n, i) == Place(Word(n), i) + Place(n / MAX_U32, i + 1)
  {
    hide Place;
    PlaceCarry(n / MAX_U32, i);
    PlaceAdd(Word(n), MAX_U32 * (n / MAX_U32), i);
  }

  lemma AddLimb(x: seq<nat>, y: seq<nat>, s: seq<nat>, i: nat, carry: nat, n: nat)
    requires i < |x| == |y| == |s| && x[i] < MAX_U32 && y[i] < MAX_U32 && carry <= 1
    requires n == carry + x[i] + y[i]
    requires Val(x[..i]) + Val(y[..i]) == Val(s[..i]) + Place(carry, i)
    ensures n / MAX_U32 <= 1
    ensures Val(x[..i + 1]) + Val(y[..i + 1]) == Val(s[..i] + [Word(n)]) + Place(n / MAX_U32, i + 1)
  {
    hide Val, Place;
    Prefix(x, i);
    Prefix(y, i);
    ValAppend(s[..i], Word(n));
    PlaceSplit(n, i);
    PlaceAdd(carry, x[i], i);
    PlaceAdd(carry + x[i], y[i], i);
  }

  lemma StepLimb(s: seq<nat>, i: nat)
    requires i < |s| && s[i] < MAX_U32
    ensures Word(s[i] + 1) == 0 ==> Val(s[i := 0]) + Place(1, i + 1) == Val(s) + Place(1, i)
    ensures Word(s[i] + 1) != 0 ==> Val(s[i := Word(s[i] + 1)]) == Val(s) + Place(1, i)
    ensures Place(0, WIDTH) == 0
  {
    hide Val, Place;
    PlaceOrder(0, 0, WIDTH);
    PlaceCarry(1, i);
    ValUpdate(s, i, Word(s[i] + 1));
    PlaceAdd(1, MAX_U32, i);
  }

  lemma BackLimb(s: seq<nat>, i: nat)
    requires i < |s| && s[i] < MAX_U32
    ensures (s[i] - 1) % MAX_U32 == MAX_U32 - 1 ==> Val(s[i := MAX_U32 - 1]) == Val(s) - Place(1, i) + Place(1, i + 1)
    ensures (s[i] - 1) % MAX_U32 != MAX_U32 - 1 ==> Val(s[i := (s[i] - 1) % MAX_U32]) == Val(s) - Place(1, i)
    ensures Place(0, WIDTH) == 0
  {
    hide Val, Place;
    PlaceOrder(0, 0, WIDTH);
    PlaceCarry(1, i);
    ValUpdate(s, i, (s[i] - 1) % MAX_U32);
    PlaceAdd(MAX_U32, 1, i);
    PlaceAdd(0, 1, i);
    PlaceOrder(0, 0, i);
  }

  lemma MinusOne()
    ensures Place(-1, WIDTH) == 0 - Place(1, WIDTH)
  {
    hide Place;
    PlaceOrder(0, 0, WIDTH);
    PlaceAdd(0, 1, WIDTH);
  }

  lemma {:induction false} Complement(x: seq<nat>, y: seq<nat>)
    requires |x| == |y| && forall i :: 0 <= i < |x| ==> x[i] < MAX_U32 && y[i] == MAX_U32 - 1 - x[i]
    ensures Val(x) + Val(y) == Place(1, |x|) - 1
  {
    if x != [] {
      Complement(x[1..], y[1..]);
    }
  }

  lemma TwoTo256()
    ensures Place(1, WIDTH) == Pow2(256)
  {
    hide Place, Pow2;
    PlacePow2(0, WIDTH);
    Pow2None();
  }

  lemma Negation(x: nat, y: nat)
    requires x + y == Place(1, WIDTH) - 1
    ensures (y + 1) % Pow2(256) == (0 - x) % Pow2(256)
  {
    hide Place, Pow2;
    TwoTo256();
    var m := Pow2(256);
    if x == 0 {
      ModIs(m, 0, 1, m);
      ModIs(0, 0, 0, m);
    } else {
      ModIs(y + 1, y + 1, 0, m);
      ModIs(0 - x, y + 1, -1, m);
    }
  }

  lemma AddedNegation(x: int, y: int)
    ensures (x + (0 - y) % Pow2(256)) % Pow2(256) == (x - y) % Pow2(256)
  {
    hide Pow2;
    var m := Pow2(256);
    var r := (0 - y) % m;
    var q := (0 - y) / m;
    assert 0 - y == m * q + r;
    var t := x + r;
    assert t == m * (t / m) + t % m;
    Distribute(m, q, t / m);
    ModIs(x - y, t % m, q + t / m, m);
  }

  /** The number lies between the powers of two of its top bit. */
  lemma TopLimb(s: seq<nat>, pos: nat, n: nat)
    requires pos < |s| == WIDTH && Normal(s) && n < 32
    requires forall j :: pos < j < |s| ==> s[j] == 0
    requires s[pos] < Pow2(n + 1) && (s[pos] >= Pow2(n) || (n == 0 && s[pos] != 0))
    ensures Pow2(32 * pos + n) <= Val(s) < Pow2(32 * pos + n + 1)
    ensures Val(s) != 0
  {
    hide Val, Place, Pow2;
    Pow2None();
    ValAtLeast(s, pos);
    ValTop(s, pos);
    PlaceOrder(Pow2(n), s[pos], pos);
    PlaceOrder(s[pos] + 1, Pow2(n + 1), pos);
    PlacePow2(n, pos);
    PlacePow2(n + 1, pos);
  }

  lemma {:induction false} ValTop(s: seq<nat>, pos: nat)
    requires pos < |s| && Normal(s) && forall j :: pos < j < |s| ==> s[j] == 0
    ensures Val(s) < Place(s[pos] + 1, pos)
  {
    if pos == 0 {
      ValZeros(s[1..]);
    } else {
      ValTop(s[1..], pos - 1);
    }
  }

  // ---- Shifting left

  /** One turn of the loop of operator<<=: limb `v` lands on limbs `t` and `t + 1`. */
  function ShlLimb(x: seq<nat>, v: nat, t: nat, s: nat): (y: seq<nat>)
    requires s < 32
    ensures |y| == |x|
  {
    var y := if t + 1 < |x| && s != 0 then x[t + 1 := BitOr(x[t + 1], Shr(v, 32 - s))] else x;
    if t < |x| then y[t := BitOr(y[t], Word(Shl(v, s)))] else y
  }

  lemma LimbsUpdated(x: seq<nat>, v: nat, t: nat, s: nat)
    requires s < 32
    ensures ShlLimb(x, v, t, s) ==
              (var y := if t + 1 < |x| && s != 0 then x[t + 1 := BitOr(x[t + 1], Shr(v, 32 - s))] else x;
               if t < |x| then y[t := BitOr(y[t], Word(Shl(v, s)))] else y)
  {
  }

  /** `i` limbs are shifted; `q` is what fell off the top. */
  ghost predicate ShlInv(x: seq<nat>, a: seq<nat>, i: nat, k: nat, s: nat, q: int) {
    && |x| == |a| == WIDTH && Normal(x) && Normal(a) && i <= WIDTH && s < 32
    && Shl(Val(a[..i]), 32 * k + s) == Val(x) + Place(q, WIDTH)
    && (forall j :: i + k < j < WIDTH ==> x[j] == 0)
    && (i + k < WIDTH ==> x[i + k] < Pow2(s))
  }

  lemma ShlStart(a: seq<nat>, shift: nat)
    requires |a| == WIDTH && Normal(a)
    ensures forall x: seq<nat> :: |x| == WIDTH && (forall i :: 0 <= i < WIDTH ==> x[i] == 0) ==>
                                    ShlInv(x, a, 0, shift / 32, shift % 32, 0)
  {
    hide Place, Pow2, Shl;
    PlaceOrder(0, 0, WIDTH);
    ShlAdd(0, 0, shift);
    forall x: seq<nat> | |x| == WIDTH && (forall i :: 0 <= i < WIDTH ==> x[i] == 0)
      ensures ShlInv(x, a, 0, shift / 32, shift % 32, 0)
    {
      ValZeros(x);
    }
  }

  lemma {:induction false} PlacePlace(v: int, i: nat, j: nat)
    ensures Place(Place(v, i), j) == Place(v, i + j)
  {
    if j > 0 {
      PlacePlace(v, i, j - 1);
    }
  }

  /** A limb shifted by `32 k + s` bits, in place. */
  lemma PlaceShifted(v: int, i: nat, k: nat, s: nat)
    ensures Shl(Place(v, i), 32 * k + s) == Place(Shl(v, s), i + k)
  {
    hide Shl, Place;
    ShlTwice(Place(v, i), s, 32 * k);
    ShlPlace(v, i, s);
    PlaceUp(Shl(v, s), i, k);
  }

  lemma ShlStep(x: seq<nat>, a: seq<nat>, i: nat, k: nat, s: nat, q: int) returns (q': int)
    requires i < WIDTH && ShlInv(x, a, i, k, s, q)
    ensures ShlInv(ShlLimb(x, a[i], i + k, s), a, i + 1, k, s, q')
  {
    hide Shl, Place, Val, Pow2, ShlLimb, BitOr, Shr, Low;
    var v, t := a[i], i + k;
    var y := ShlLimb(x, v, t, s);
    Prefix(a, i);
    ShlAdd(Val(a[..i]), Place(v, i), 32 * k + s);
    PlaceShifted(v, i, k, s);
    WordSplit(v, s);
    LimbLanded(x, v, t, s);
    if t >= WIDTH {
      q' := q + Place(Shl(v, s), t - WIDTH);
      PlacePlace(Shl(v, s), t - WIDTH, WIDTH);
      PlaceAdd(q, Place(Shl(v, s), t - WIDTH), WIDTH);
    } else if t == WIDTH - 1 {
      q' := q + Shr(v, 32 - s);
      PlaceAdd(q, Shr(v, 32 - s), WIDTH);
    } else {
      q' := q;
    }
  }

  /** Where a shifted limb lands, nothing is lost except above the last limb. */
  lemma LimbLanded(x: seq<nat>, v: nat, t: nat, s: nat)
    requires |x| == WIDTH && Normal(x) && v < MAX_U32 && s < 32
    requires forall j :: t < j < WIDTH ==> x[j] == 0
    requires t < WIDTH ==> x[t] < Pow2(s)
    ensures var y := ShlLimb(x, v, t, s);
            && Normal(y) && (forall j :: t + 1 < j < WIDTH ==> y[j] == 0)
            && (t + 1 < WIDTH ==> y[t + 1] < Pow2(s))
            && (t >= WIDTH ==> y == x)
            && (t == WIDTH - 1 ==> Val(y) == Val(x) + Place(Shl(v, s), t) - Place(Shr(v, 32 - s), WIDTH))
            && (t < WIDTH - 1 ==> Val(y) == Val(x) + Place(Shl(v, s), t))
  {
    hide Shl, Place, Val, Pow2, BitOr, Shr, Low;
    if t < WIDTH {
      var hi, lo := Shr(v, 32 - s), Word(Shl(v, s));
      WordSplit(v, s);
      Pow2Small(s);
      BitOrDisjoint(x[t], Low(v, 32 - s), s);
      Fits(x[t], lo, Low(v, 32 - s), s);
      var y := if t + 1 < WIDTH && s != 0 then x[t + 1 := BitOr(x[t + 1], hi)] else x;
      PlaceCarry(hi, t);
      PlaceAdd(lo, MAX_U32 * hi, t);
      if t + 1 < WIDTH {
        BitOrZero(hi);
        NoShift(v, s);
        ValUpdate(x, t + 1, hi);
        PlaceOrder(0, 0, t + 1);
        assert s == 0 ==> x[t + 1 := 0] == x;
      }
      ValUpdate(y, t, x[t] + lo);
      PlaceAdd(x[t], lo, t);
    }
  }

  lemma NoShift(v: nat, s: nat)
    requires v < MAX_U32
    ensures s == 0 ==> Shr(v, 32) == 0 && Pow2(s) == 1
  {
    Pow2Is32();
    ShrBound(v, 32, 0);
  }

  /** A low part below 2^s and a word that is a multiple of 2^s add up to a word. */
  lemma Fits(x: nat, lo: nat, m: nat, s: nat)
    requires x < Pow2(s) && s < 32 && lo == Shl(m, s) && lo < MAX_U32
    ensures x + lo < MAX_U32
  {
    hide Shl, Pow2;
    Pow2Is32();
    ShlOne(32 - s);
    ShlTwice(1, 32 - s, s);
    ShlOne(32);
    if m >= Pow2(32 - s) {
      ShlOrder(Pow2(32 - s), m, s);
    }
    ShlOrder(m + 1, Pow2(32 - s), s);
    ShlAdd(m, 1, s);
    ShlOne(s);
  }

  lemma ShlEnd(x: seq<nat>, a: seq<nat>, shift: nat, q: int)
    requires ShlInv(x, a, WIDTH, shift / 32, shift % 32, q) && a[..WIDTH] == a
    ensures Val(x) == (Val(a) * Pow2(shift)) % Pow2(256)
  {
    hide Shl, Place, Val, Pow2;
    ValBound(x);
    ShlIsTimes(Val(a), shift);
    Wrapped(Val(a) * Pow2(shift), Val(x), q);
  }

  // ---- Shifting right

  /** One turn of the loop of operator>>=: limb `i` lands on limbs `i - k` and `i - k - 1`. */
  function ShrLimb(x: seq<nat>, v: nat, i: nat, k: nat, s: nat): (y: seq<nat>)
    requires s < 32 && i < |x|
    ensures |y| == |x|
  {
    var y := if i - k - 1 >= 0 && s != 0 then x[i - k - 1 := BitOr(x[i - k - 1], Word(Shl(v, 32 - s)))] else x;
    if i - k >= 0 then y[i - k := BitOr(y[i - k], Shr(v, s))] else y
  }

  lemma LimbsLowered(x: seq<nat>, v: nat, i: nat, k: nat, s: nat)
    requires s < 32 && i < |x|
    ensures ShrLimb(x, v, i, k, s) ==
              (var y := if i - k - 1 >= 0 && s != 0
                        then x[i - k - 1 := BitOr(x[i - k - 1], Word(Shl(v, 32 - s)))] else x;
               if i - k >= 0 then y[i - k := BitOr(y[i - k], Shr(v, s))] else y)
  {
  }

  /** `i` limbs are shifted; `rest` is what fell off the bottom. */
  ghost predicate ShrInv(x: seq<nat>, a: seq<nat>, i: nat, k: nat, s: nat, rest: int) {
    && |x| == |a| == WIDTH && Normal(x) && Normal(a) && i <= WIDTH && s < 32
    && Val(a[..i]) == Shl(Val(x), 32 * k + s) + rest
    && 0 <= rest && (i <= k ==> rest < Place(1, i)) && (i > k ==> rest < Pow2(32 * k + s))
    && (forall j :: 0 <= j < WIDTH && i - k <= j ==> x[j] == 0)
    && (i > k ==> x[i - k - 1] < Pow2(32 - s))
  }

  lemma ShrStart(a: seq<nat>, shift: nat)
    requires |a| == WIDTH && Normal(a)
    ensures forall x: seq<nat> :: |x| == WIDTH && (forall i :: 0 <= i < WIDTH ==> x[i] == 0) ==>
                                    ShrInv(x, a, 0, shift / 32, shift % 32, 0)
  {
    hide Pow2, Shl;
    ShlAdd(0, 0, shift);
    forall x: seq<nat> | |x| == WIDTH && (forall i :: 0 <= i < WIDTH ==> x[i] == 0)
      ensures ShrInv(x, a, 0, shift / 32, shift % 32, 0)
    {
      ValZeros(x);
    }
  }

  lemma ShrStep(x: seq<nat>, a: seq<nat>, i: nat, k: nat, s: nat, rest: int) returns (rest': int)
    requires i < WIDTH && ShrInv(x, a, i, k, s, rest)
    ensures ShrInv(ShrLimb(x, a[i], i, k, s), a, i + 1, k, s, rest')
  {
    hide Shl, Place, Val, Pow2, ShrLimb, BitOr, Shr, Low;
    var v := a[i];
    Prefix(a, i);
    LimbLowered(x, v, i, k, s);
    if i < k {
      rest' := rest + Place(v, i);
      RestGrows(rest, v, i, MAX_U32);
      PlaceCarry(1, i);
    } else if i == k {
      rest' := rest + Place(Low(v, s), i);
      ShrSplit(v, s);
      RestGrows(rest, Low(v, s), i, Pow2(s));
      PlacePow2(s, i);
    } else {
      rest' := rest;
    }
  }

  lemma RestGrows(rest: nat, v: nat, i: nat, m: nat)
    requires rest < Place(1, i) && v < m
    ensures 0 <= rest + Place(v, i) < Place(m, i)
  {
    hide Place;
    PlaceAdd(v, 1, i);
    PlaceOrder(v + 1, m, i);
    PlaceOrder(0, v, i);
  }

  /** Where a limb lands; at limb `k` its low bits fall off. */
  lemma LimbLowered(x: seq<nat>, v: nat, i: nat, k: nat, s: nat)
    requires |x| == WIDTH && Normal(x) && i < WIDTH && v < MAX_U32 && s < 32
    requires forall j :: 0 <= j < WIDTH && i - k <= j ==> x[j] == 0
    requires i > k ==> x[i - k - 1] < Pow2(32 - s)
    ensures var y := ShrLimb(x, v, i, k, s);
            && Normal(y) && (forall j :: 0 <= j < WIDTH && i + 1 - k <= j ==> y[j] == 0)
            && (i >= k ==> y[i - k] < Pow2(32 - s))
            && (i < k ==> y == x)
            && (i == k ==> Shl(Val(y), 32 * k + s) == Shl(Val(x), 32 * k + s) + Place(v, i) - Place(Low(v, s), i))
            && (i > k ==> Shl(Val(y), 32 * k + s) == Shl(Val(x), 32 * k + s) + Place(v, i))
  {
    hide Shl, Place, Val, Pow2, BitOr, Shr, Low;
    if i >= k {
      var t := i - k;
      var hi := Shr(v, s);
      ShrSplit(v, s);
      Pow2Is32();
      ShrBound(v, s, 32 - s);
      Pow2Grows(32 - s, 32);
      BitOrZero(hi);
      var y := if t >= 1 && s != 0 then x[t - 1 := BitOr(x[t - 1], Word(Shl(v, 32 - s)))] else x;
      if t >= 1 && s != 0 {
        LowerHalf(x, v, t, k, s);
      }
      ValUpdate(y, t, hi);
      ShlAdd(Val(y), Place(hi, t), 32 * k + s);
      PlaceShifted(hi, t, k, s);
      PlaceAdd(Shl(hi, s), Low(v, s), i);
      NothingLow(v, s, i);
    }
  }

  lemma NothingLow(v: nat, s: nat, i: nat)
    ensures s == 0 ==> Low(v, s) == 0 && Place(0, i) == 0
  {
    PlaceOrder(0, 0, i);
  }

  /** The low bits of a limb go to the top of the limb below. */
  lemma LowerHalf(x: seq<nat>, v: nat, t: nat, k: nat, s: nat)
    requires |x| == WIDTH && Normal(x) && 1 <= t < WIDTH && v < MAX_U32 && 0 < s < 32
    requires x[t - 1] < Pow2(32 - s)
    ensures var lo := Word(Shl(v, 32 - s));
            var y := x[t - 1 := BitOr(x[t - 1], lo)];
            && Normal(y)
            && Shl(Val(y), 32 * k + s) == Shl(Val(x), 32 * k + s) + Place(Low(v, s), t + k)
  {
    hide Shl, Place, Val, Pow2, BitOr, Shr, Low;
    var l, lo := Low(v, s), Word(Shl(v, 32 - s));
    WordSplit(v, 32 - s);
    BitOrDisjoint(x[t - 1], l, 32 - s);
    Fits(x[t - 1], lo, l, 32 - s);
    ValUpdate(x, t - 1, x[t - 1] + lo);
    ShlAdd(Val(x), Place(lo, t - 1), 32 * k + s);
    PlaceShifted(lo, t - 1, k, s);
    ShlTwice(l, 32 - s, s);
    Shl32(l, 0);
    ShlNone(l);
    PlaceCarry(l, t + k - 1);
  }

  lemma ShrEnd(x: seq<nat>, a: seq<nat>, shift: nat, rest: int)
    requires ShrInv(x, a, WIDTH, shift / 32, shift % 32, rest) && a[..WIDTH] == a
    ensures Val(x) == Val(a) / Pow2(shift)
  {
    hide Shl, Place, Val, Pow2;
    ShlIsTimes(Val(x), shift);
    if WIDTH <= shift / 32 {
      PlacePow2(0, WIDTH);
      Pow2None();
      Pow2Grows(32 * WIDTH, shift);
    }
    QuotientIs(Val(a), Val(x), rest, Pow2(shift));
  }

  // ---- Multiplication

  function Times(x: int, y: int): int {
    x * y
  }

  lemma TimesIs(x: int, y: int)
    ensures Times(x, y) == x * y
  {
  }

  lemma TimesAdd(x: int, y: int, c: int)
    ensures Times(x + y, c) == Times(x, c) + Times(y, c)
    ensures Times(c, x + y) == Times(c, x) + Times(c, y)
    ensures Times(0, c) == 0 && Times(c, 0) == 0
  {
  }

  lemma TimesPlace(v: int, i: nat, c: int)
    ensures Times(Place(v, i), c) == Place(Times(v, c), i)
    ensures Times(c, Place(v, i)) == Place(Times(c, v), i)
  {
    PlaceTimes(v, i, c);
    assert c * v == v * c && c * Place(v, i) == Place(v, i) * c;
  }

  lemma TimesOrder(a: nat, b: nat, m: nat)
    requires a <= m && b <= m
    ensures 0 <= a * b <= m * m
  {
    assert a * b <= a * m;
    assert a * m <= m * m;
  }

  /** A product of two words and two more words still fit in 64 bits. */
  lemma WordProduct(carry: nat, x: nat, a: nat, b: nat)
    requires carry < MAX_U32 && x < MAX_U32 && a < MAX_U32 && b < MAX_U32
    ensures 0 <= a * b && carry + x + a * b < TWO64
    ensures (carry + x + a * b) / MAX_U32 < MAX_U32
    ensures a * b == Times(a, b)
  {
    TimesIs(a, b);
    hide Times;
    TimesOrder(a, b, MAX_U32 - 1);
    var p := a * b;
    assert p <= 0xFFFF_FFFE_0000_0001;
  }

  lemma MulStart(x: seq<nat>, c: int, s: seq<nat>)
    ensures Times(Val(x[..0]), c) == 0 && Val(s[..0]) == 0 && Place(0, 0) == 0
  {
  }

  lemma MulLimb(x: seq<nat>, s: seq<nat>, i: nat, b32: nat, carry: nat, n: nat)
    requires i < |x| == |s| && n == carry + Times(b32, x[i])
    requires Times(Val(x[..i]), b32) == Val(s[..i]) + Place(carry, i)
    ensures Times(Val(x[..i + 1]), b32) == Val(s[..i] + [Word(n)]) + Place(n / MAX_U32, i + 1)
  {
    hide Val, Place;
    Prefix(x, i);
    ValAppend(s[..i], Word(n));
    PlaceSplit(n, i);
    PlaceAdd(carry, Times(b32, x[i]), i);
    TimesAdd(Val(x[..i]), Place(x[i], i), b32);
    TimesPlace(x[i], i, b32);
    assert Times(b32, x[i]) == Times(x[i], b32);
  }

  /** One cell of the product table. */
  lemma MulCell(s: seq<nat>, y: seq<nat>, i: nat, j: nat, aj: nat, carry: nat, n: nat)
    requires i + j < |s| && i < |y| && n == carry + s[i + j] + Times(aj, y[i])
    ensures Val(s[i + j := Word(n)]) + Place(n / MAX_U32, i + j + 1)
            == Val(s) + Place(carry, i + j) + Place(Times(aj, y[i]), i + j)
    ensures Place(Times(aj, Val(y[..i + 1])), j) == Place(Times(aj, Val(y[..i])), j) + Place(Times(aj, y[i]), i + j)
  {
    hide Val, Place, Times;
    ValUpdate(s, i + j, Word(n));
    PlaceSplit(n, i + j);
    PlaceAdd(Word(n), s[i + j], i + j);
    PlaceAdd(carry + s[i + j], Times(aj, y[i]), i + j);
    PlaceAdd(carry, s[i + j], i + j);
    Prefix(y, i);
    TimesAdd(Val(y[..i]), Place(y[i], i), aj);
    TimesPlace(y[i], i, aj);
    PlaceAdd(Times(aj, Val(y[..i])), Place(Times(aj, y[i]), i), j);
    PlacePlace(Times(aj, y[i]), i, j);
  }

  lemma MulRow(a: seq<nat>, y: seq<nat>, j: nat)
    requires j < |a|
    ensures Place(Times(a[j], Val(y[..0])), j) == 0 && Place(0, j) == 0
    ensures Times(Val(a[..j + 1]), Val(y)) == Times(Val(a[..j]), Val(y)) + Place(Times(a[j], Val(y)), j)
  {
    hide Place;
    PlaceOrder(0, 0, j);
    Prefix(a, j);
    hide Val;
    TimesAdd(Val(a[..j]), Place(a[j], j), Val(y));
    TimesPlace(a[j], j, Val(y));
  }

  lemma {:induction false} ValSplit(s: seq<nat>, i: nat)
    requires i <= |s|
    ensures Val(s) == Val(s[..i]) + Place(Val(s[i..]), i)
  {
    if i > 0 {
      ValSplit(s[1..], i - 1);
      assert s[..i][1..] == s[1..][..i - 1] && s[1..][i - 1..] == s[i..];
    }
  }

  /** The row ends where the product leaves the 256 bits. */
  lemma RowEnd(a: seq<nat>, y: seq<nat>, j: nat, carry: nat, q: int) returns (q': int)
    requires j < |a| && j <= WIDTH && |y| == WIDTH
    ensures Place(q', WIDTH) == Place(q, WIDTH) + Place(carry, WIDTH)
                                + Place(Times(a[j], Val(y)), j) - Place(Times(a[j], Val(y[..WIDTH - j])), j)
  {
    hide Val, Place, Times;
    var i := WIDTH - j;
    var high := Times(a[j], Val(y[i..]));
    ValSplit(y, i);
    TimesAdd(Val(y[..i]), Place(Val(y[i..]), i), a[j]);
    TimesPlace(Val(y[i..]), i, a[j]);
    PlaceAdd(Times(a[j], Val(y[..i])), Place(high, i), j);
    PlacePlace(high, i, j);
    q' := q + carry + high;
    PlaceAdd(q, carry, WIDTH);
    PlaceAdd(q + carry, high, WIDTH);
  }

  // ---- Division

  /** The low `t` bits of the number are clear, limb by limb. */
  ghost predicate ClearBelow(s: seq<nat>, t: nat) {
    && (forall j :: 0 <= j < |s| && j < t / 32 ==> s[j] == 0)
    && (t / 32 < |s| ==> Low(s[t / 32], t % 32) == 0)
  }

  lemma {:induction false} LowZero(s: nat)
    ensures Low(0, s) == 0
  {
    if s > 0 {
      LowZero(s - 1);
    }
  }

  lemma ClearAll(s: seq<nat>, t: nat, d: nat)
    requires forall i :: 0 <= i < |s| ==> s[i] == 0
    ensures ClearBelow(s, t) && Times(Val(s), d) == 0
  {
    ValZeros(s);
    LowZero(t % 32);
  }

  lemma SmallerBits(n: nat, d: nat, nb: nat, db: nat)
    requires nb < db && (if nb == 0 then n == 0 else n < Pow2(nb)) && Pow2(db - 1) <= d
    ensures n < d && n / d == 0 && d * 0 == 0
  {
    Pow2Grows(nb, db - 1);
    QuotientIs(n, 0, n, d);
  }

  lemma AlignedBits(n: nat, d: nat, nb: nat, db: nat)
    requires 0 < db <= nb <= 256 && n < Pow2(nb) && Pow2(db - 1) <= d < Pow2(db)
    ensures n < Shl(d, nb - db + 1)
    ensures (d * Pow2(nb - db)) % Pow2(256) == Shl(d, nb - db)
  {
    hide Shl, Pow2;
    var t := nb - db;
    ShlOrder(Pow2(db - 1), d, t + 1);
    ShlOne(db - 1);
    ShlTwice(1, db - 1, t + 1);
    ShlOne(nb);
    ShlIsTimes(d, t);
    ShlOrder(d, Pow2(db), t);
    ShlOne(db);
    ShlTwice(1, db, t);
    Pow2Grows(nb, 256);
    ModIs(Shl(d, t), Shl(d, t), 0, Pow2(256));
  }

  /** One turn of the division loop, whether or not the divisor fits. */
  lemma DivStep(s: seq<nat>, d: nat, t: nat, v: nat, num: seq<nat>)
    requires |s| == WIDTH && Normal(s) && t < 256 && ClearBelow(s, t + 1) && v < Shl(d, t + 1)
    requires |num| == WIDTH && Normal(num) && Val(num) == v
    ensures var y := s[t / 32 := BitOr(s[t / 32], Shl(1, t % 32))];
            && Normal(y) && ClearBelow(y, t) && Times(Val(y), d) == Times(Val(s), d) + Shl(d, t)
    ensures ClearBelow(s, t)
    ensures v >= Shl(d, t) ==> (v - Shl(d, t)) % Pow2(256) == v - Shl(d, t) < Shl(d, t)
    ensures t > 0 ==> Shl(d, t) / Pow2(1) == Shl(d, t - 1)
  {
    hide Val, Place, Pow2, Low, BitOr, Times, Normal;
    ValBound(num);
    SetBit(s, t);
    var y := s[t / 32 := BitOr(s[t / 32], Shl(1, t % 32))];
    Pow2IsShl(d, t);
    TimesAdd(Val(s), Pow2(t), d);
    TwoTo256();
    if v >= Shl(d, t) {
      ModIs(v - Shl(d, t), v - Shl(d, t), 0, Pow2(256));
    }
    Pow2One();
  }

  lemma Pow2One()
    ensures Pow2(1) == 2
  {
  }

  lemma Pow2IsShl(d: nat, t: nat)
    ensures Times(Pow2(t), d) == Shl(d, t)
    ensures Shl(d, t + 1) == 2 * Shl(d, t)
  {
    ShlIsTimes(d, t);
  }

  /** Setting bit `t` of a number whose low bits are clear adds 2^t. */
  lemma SetBit(s: seq<nat>, t: nat)
    requires |s| == WIDTH && Normal(s) && t < 256 && ClearBelow(s, t + 1)
    ensures var y := s[t / 32 := BitOr(s[t / 32], Shl(1, t % 32))];
            Normal(y) && ClearBelow(y, t) && Val(y) == Val(s) + Pow2(t)
    ensures ClearBelow(s, t)
  {
    hide Val, Place, Pow2, Low, BitOr, Shl;
    var w, r := t / 32, t % 32;
    assert (t + 1) / 32 == (if r == 31 then w + 1 else w) && (t + 1) % 32 == (if r == 31 then 0 else r + 1);
    LowZero(r);
    LowZero(32);
    ShlOne(r);
    OrBit(s[w], r);
    ValUpdate(s, w, s[w] + Pow2(r));
    PlacePow2(r, w);
  }

  lemma OrBit(x: nat, r: nat)
    requires x < MAX_U32 && r < 32 && (if r == 31 then x == 0 else Low(x, r + 1) == 0)
    ensures Shl(1, r) >= 0 && BitOr(x, Shl(1, r)) == x + Pow2(r) < MAX_U32
    ensures Low(x, r) == 0 && Low(x + Pow2(r), r) == 0
  {
    hide Shl, Pow2, BitOr, Low;
    LowZero(r + 1);
    Pow2Is32();
    ClearBit(x, r, 31 - r);
    ShlOne(r);
    var h := Shr(x, r + 1);
    ShrSplit(x, r + 1);
    Pow2Grows(r, r + 1);
    BitOrDisjoint(Pow2(r), h, r + 1);
  }

  lemma {:induction false} ClearBit(x: nat, r: nat, t: nat)
    requires Low(x, r + 1) == 0 && x < Pow2(r + 1 + t)
    ensures x + Pow2(r) < Pow2(r + 1 + t)
    ensures Low(x, r) == 0 && Low(x + Pow2(r), r) == 0
  {
    if r == 0 {
      assert Low(x, 1) == x % 2 + 2 * Low(x / 2, 0);
    } else {
      ClearBit(x / 2, r - 1, t);
      assert (x + Pow2(r)) / 2 == x / 2 + Pow2(r - 1);
    }
  }

  // ---- Compact form

  /** The mantissa that SetCompact uses. */
  function CompactWord(c: nat): nat {
    var size, word := c / 0x100_0000, c % 0x80_0000;
    if size <= 3 then Shr(word, 8 * (3 - size)) else word
  }

  lemma BitOrDisjoint32(x: nat, y: nat)
    requires x < MAX_U32
    ensures Shl(y, 32) >= 0 && BitOr(x, Shl(y, 32)) == x + MAX_U32 * y
  {
    hide Shl, Pow2, BitOr;
    Pow2Is32();
    BitOrDisjoint(x, y, 32);
    Shl32(y, 0);
    ShlNone(y);
  }

  lemma LowLimbs(s: seq<nat>)
    requires |s| == WIDTH && Normal(s)
    ensures s[0] + MAX_U32 * s[1] < TWO64
    ensures Val(s) % TWO64 == s[0] + MAX_U32 * s[1]
  {
    var rest := Val(s[1..][1..]);
    assert Val(s[1..]) == s[1] + MAX_U32 * rest;
    assert Val(s) == s[0] + MAX_U32 * Val(s[1..]);
    hide Val;
    assert Val(s) == s[0] + MAX_U32 * s[1] + TWO64 * rest;
  }

  lemma SmallCompact(c: nat)
    requires c / 0x100_0000 <= 3
    ensures FullValue(c) < TWO64 && FullValue(c) < Pow2(256) && FullValue(c) % Pow2(256) == FullValue(c)
  {
    hide Pow2, Shl;
    ShrAtMost(c % 0x80_0000, 8 * (3 - c / 0x100_0000));
    Pow2Is32();
    Pow2Grows(32, 256);
    hide Shr;
    ModIs(FullValue(c), FullValue(c), 0, Pow2(256));
  }

  lemma {:induction false} ShrAtMost(x: nat, s: nat)
    ensures Shr(x, s) <= x
  {
    if s > 0 {
      ShrAtMost(x / 2, s - 1);
    }
  }

  /** Which mantissas of one, two and three bytes fit when shifted by `t` bits. */
  lemma WordBytes(w: nat, t: nat)
    requires w < 0x80_0000 && t % 8 == 0
    ensures Shl(w, t) >= Pow2(256) <==>
              w != 0 && (t > 248 || (w > 0xff && t > 240) || (w > 0xffff && t > 232))
  {
    hide Pow2, Shl;
    Pow2Constants();
    ShlOrder(0, 0, t);
    if w == 0 {
    } else if w <= 0xff {
      BytesFit(w, t, 8, 0);
    } else if w <= 0xffff {
      BytesFit(w, t, 16, 8);
    } else {
      BytesFit(w, t, 24, 16);
    }
  }

  lemma BytesFit(w: nat, t: nat, hi: nat, lo: nat)
    requires t % 8 == 0 && hi == lo + 8 <= 24 && lo % 8 == 0
    requires w < Pow2(hi) && (w >= Pow2(lo) || (lo == 0 && 0 < w))
    ensures Shl(w, t) >= Pow2(256) <==> t > 256 - hi
  {
    hide Pow2, Shl;
    Pow2None();
    ShlOne(hi);
    ShlTwice(1, hi, t);
    ShlOne(hi + t);
    ShlOne(lo);
    ShlTwice(1, lo, t);
    ShlOne(lo + t);
    ShlOrder(Pow2(lo), w, t);
    ShlOrder(w, Pow2(hi), t);
    if t <= 256 - hi {
      Pow2Grows(hi + t, 256);
    } else {
      Pow2Grows(256, lo + t);
    }
  }

  lemma LengthIs(x: nat, n: nat)
    requires n == 0 <==> x == 0
    requires n > 0 ==> Pow2(n - 1) <= x < Pow2(n)
    ensures BitLen(x) == n
  {
    if n > 0 {
      BitLenUnique(x, n);
    }
  }

  /** Neither GetLow64 nor the store into a uint32 loses anything of the leading bytes. */
  lemma LeadingWord(x: nat)
    ensures Size(x) <= 3 ==> Word(Shl(x % TWO64, 8 * (3 - Size(x)))) == Mantissa(x)
    ensures Size(x) > 3 ==> Word(x / Pow2(8 * (Size(x) - 3)) % TWO64) == Mantissa(x)
  {
    hide Shl, Shr, Pow2, BitLen, Size, Mantissa;
    MantissaBound(x);
    MantissaIs(x);
    if Size(x) <= 3 {
      BitLenBounds(x);
      Pow2Constants();
      Pow2Grows(BitLen(x), 24);
    } else {
      ShrIsQuotient(x, 8 * (Size(x) - 3));
    }
  }

  lemma ShrIsQuotient(x: nat, s: nat)
    ensures x / Pow2(s) == Shr(x, s)
  {
    hide Pow2, Shl, Shr, Low;
    ShrSplit(x, s);
    ShlIsTimes(Shr(x, s), s);
    QuotientIs(x, Shr(x, s), Low(x, s), Pow2(s));
  }

  lemma JoinSize(w: nat, size: nat, sign: bool)
    requires w < 0x80_0000 && size < 256
    ensures Shl(size, 24) >= 0
    ensures BitOr(BitOr(w, Shl(size, 24)), if sign then 0x80_0000 else 0)
            == w + size * 0x100_0000 + (if sign then 0x80_0000 else 0)
  {
    hide Pow2, Shl, BitOr;
    Pow2Constants();
    BitOrDisjoint(w, size, 24);
    BitOrZero(w + Shl(size, 24));
    ShlIsTimes(size, 24);
    if sign {
      SignInto(w, size);
    }
  }

  lemma ShlStep24(x: nat)
    ensures Shl(x, 24) == 2 * Shl(x, 23)
  {
  }

  /** The sign bit lies between the mantissa and the size. */
  lemma SignInto(w: nat, size: nat)
    requires w < 0x80_0000
    ensures Shl(size, 24) >= 0
    ensures BitOr(w + Shl(size, 24), 0x80_0000) == w + Shl(size, 24) + 0x80_0000
  {
    hide Pow2, Shl, BitOr;
    Pow2Constants();
    OrMiddle(w, size, 23);
    ShlStep24(size);
    ShlInside(size, 23);
  }

  lemma {:induction false} OrMiddle(w: nat, size: nat, n: nat)
    requires w < Pow2(n)
    ensures Shl(2 * size, n) >= 0
    ensures BitOr(w + Shl(2 * size, n), Pow2(n)) == w + Shl(2 * size, n) + Pow2(n)
  {
    if n == 0 {
      BitOrZero(size);
    } else {
      OrMiddle(w / 2, size, n - 1);
      ShlAdd(0, 0, n);
      ShlOrder(0, 2 * size, n);
      assert (w + Shl(2 * size, n)) / 2 == w / 2 + Shl(2 * size, n - 1);
      assert (w + Shl(2 * size, n)) % 2 == w % 2;
    }
  }
}
