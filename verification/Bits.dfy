/** Shifts and bitwise or on unbounded naturals, as the word operations of the source use them. */
module Bits {
  import opened Limbs

  /** x << s */
  function Shl(x: int, s: nat): (r: int)
    ensures x >= 0 ==> r >= 0
  {
    if s == 0 then x else 2 * Shl(x, s - 1)
  }

  /** x >> s */
  function Shr(x: nat, s: nat): nat {
    if s == 0 then x else Shr(x / 2, s - 1)
  }

  /** The low `s` bits of x. */
  function Low(x: nat, s: nat): nat {
    if s == 0 then 0 else x % 2 + 2 * Low(x / 2, s - 1)
  }

  /** x | y */
  function BitOr(x: nat, y: nat): nat {
    if x == 0 && y == 0 then 0
    else (if x % 2 == 1 || y % 2 == 1 then 1 else 0) + 2 * BitOr(x / 2, y / 2)
  }

  /** The low 32 bits, as a store into a uint32 keeps them. */
  function Word(x: nat): (w: nat)
    ensures w < MAX_U32
  {
    x % MAX_U32
  }

  lemma {:induction false} ShlAdd(x: int, y: int, s: nat)
    ensures Shl(x + y, s) == Shl(x, s) + Shl(y, s)
    ensures Shl(0, s) == 0
  {
    if s > 0 {
      ShlAdd(x, y, s - 1);
    }
  }

  lemma {:induction false} ShlTwice(x: int, s: nat, t: nat)
    ensures Shl(Shl(x, s), t) == Shl(x, s + t)
  {
    if t > 0 {
      ShlTwice(x, s, t - 1);
    }
  }

  lemma {:induction false} ShlInside(x: int, s: nat)
    ensures Shl(2 * x, s) == 2 * Shl(x, s)
  {
    if s > 0 {
      ShlInside(x, s - 1);
    }
  }

  lemma {:induction false} ShlIsTimes(x: int, s: nat)
    ensures Shl(x, s) == x * Pow2(s)
  {
    if s > 0 {
      ShlIsTimes(x, s - 1);
      var p := Pow2(s - 1);
      assert 2 * (x * p) == x * (2 * p);
    }
  }

  lemma {:induction false} ShlOne(s: nat)
    ensures Shl(1, s) == Pow2(s)
  {
    if s > 0 {
      ShlOne(s - 1);
    }
  }

  lemma {:induction false} ShlOrder(x: int, y: int, s: nat)
    requires x <= y
    ensures Shl(x, s) <= Shl(y, s)
    ensures x < y ==> Shl(x, s) < Shl(y, s)
    ensures Shl(0, s) == 0
  {
    if s > 0 {
      ShlOrder(x, y, s - 1);
    }
  }

  lemma ShlNone(x: int)
    ensures Shl(x, 0) == x
  {
  }

  lemma Shl8(x: int, s: nat)
    ensures Shl(x, s + 8) == 256 * Shl(x, s)
  {
    assert Shl(x, s + 2) == 4 * Shl(x, s);
    assert Shl(x, s + 4) == 4 * Shl(x, s + 2);
    assert Shl(x, s + 6) == 4 * Shl(x, s + 4);
    assert Shl(x, s + 8) == 4 * Shl(x, s + 6);
  }

  lemma Shl32(x: int, s: nat)
    ensures Shl(x, s + 32) == MAX_U32 * Shl(x, s)
  {
    hide Shl;
    Shl8(x, s);
    Shl8(x, s + 8);
    Shl8(x, s + 16);
    Shl8(x, s + 24);
  }

  lemma {:induction false} ShlPlace(v: int, i: nat, s: nat)
    ensures Shl(Place(v, i), s) == Place(Shl(v, s), i)
  {
    if s > 0 {
      ShlPlace(v, i, s - 1);
      PlaceAdd(Shl(v, s - 1), Shl(v, s - 1), i);
    }
  }

  /** Shifting by whole limbs moves a limb up. */
  lemma {:induction false} PlaceUp(v: int, i: nat, k: nat)
    ensures Place(v, i + k) == Shl(Place(v, i), 32 * k)
  {
    if k > 0 {
      PlaceUp(v, i, k - 1);
      Shl32(Place(v, i), 32 * (k - 1));
    }
  }

  lemma {:induction false} ShrSplit(x: nat, s: nat)
    ensures x == Shl(Shr(x, s), s) + Low(x, s)
    ensures Low(x, s) < Pow2(s)
  {
    if s > 0 {
      ShrSplit(x / 2, s - 1);
    }
  }

  lemma {:induction false} ShrBound(x: nat, s: nat, t: nat)
    requires x < Pow2(s + t)
    ensures Shr(x, s) < Pow2(t)
  {
    if s > 0 {
      ShrBound(x / 2, s - 1, t);
    }
  }

  /** Whether the top bit of an (n+1)-bit number is set. */
  lemma {:induction false} TopBit(x: nat, n: nat)
    requires x < Pow2(n + 1)
    ensures Shr(x, n) % 2 == 1 <==> x >= Pow2(n)
  {
    if n > 0 {
      TopBit(x / 2, n - 1);
    }
  }

  /** A word shifted left by `s` over a limb boundary: the part that stays and the part that moves on. */
  lemma WordSplit(x: nat, s: nat)
    requires x < MAX_U32 && s < 32
    ensures Shl(x, s) == Word(Shl(x, s)) + MAX_U32 * Shr(x, 32 - s)
    ensures Word(Shl(x, s)) == Shl(Low(x, 32 - s), s)
    ensures Shr(x, 32 - s) < Pow2(s)
  {
    hide Shl, Shr, Low, Pow2;
    var t := 32 - s;
    var h, l := Shr(x, t), Low(x, t);
    ShrSplit(x, t);
    Pow2Is32();
    ShrBound(x, t, s);
    ShlAdd(Shl(h, t), l, s);
    ShlTwice(h, t, s);
    Shl32(h, 0);
    ShlNone(h);
    LowShifted(l, s, t);
  }

  lemma LowShifted(l: nat, s: nat, t: nat)
    requires s + t == 32 && l < Pow2(t)
    ensures 0 <= Shl(l, s) < MAX_U32
  {
    hide Shl, Pow2;
    ShlOrder(l, Pow2(t), s);
    ShlOrder(0, l, s);
    ShlOne(t);
    ShlTwice(1, t, s);
    ShlOne(32);
    Pow2Is32();
  }

  lemma {:induction false} BitOrZero(y: nat)
    ensures BitOr(0, y) == y && BitOr(y, 0) == y
  {
    if y > 0 {
      BitOrZero(y / 2);
    }
  }

  lemma {:induction false} BitOrSym(x: nat, y: nat)
    ensures BitOr(x, y) == BitOr(y, x)
  {
    if x != 0 || y != 0 {
      BitOrSym(x / 2, y / 2);
    }
  }

  /** Or of numbers with no bit in common is their sum. */
  lemma {:induction false} BitOrDisjoint(x: nat, m: nat, s: nat)
    requires x < Pow2(s)
    ensures Shl(m, s) >= 0
    ensures BitOr(x, Shl(m, s)) == x + Shl(m, s)
    ensures BitOr(Shl(m, s), x) == x + Shl(m, s)
  {
    ShlOrder(0, m, s);
    if s == 0 {
      BitOrZero(m);
    } else {
      ShlInside(m, s - 1);
      assert Shl(m, s) / 2 == Shl(m, s - 1);
      BitOrDisjoint(x / 2, m, s - 1);
      BitOrZero(0);
    }
    BitOrSym(x, Shl(m, s));
  }
}
