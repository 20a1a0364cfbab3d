/** Accumulated work: nine 32-bit limbs, each kept in a uint64. */
module AccumPow {
  import opened Chain
  import opened Limbs

  const LIMBS: nat := 9

  class AccumPow {
    const n32: array<nat>

    ghost predicate Valid()
      reads this, n32
    {
      n32.Length == LIMBS && Normal(n32[..])
    }

    ghost function Value(): nat
      reads this, n32
    {
      Val(n32[..])
    }

    constructor ()
      ensures Valid() && fresh(n32) && Value() == 0
    {
      n32 := new nat[LIMBS](_ => 0);
      new;
      ValZeros(n32[..]);
    }

    /** add_pow: the guard is what the code needs not to carry past the last limb. */
    method AddPow(zeroBits: nat)
      requires Valid() && zeroBits < 32 * LIMBS && Value() + Pow2(zeroBits) < Place(1, LIMBS)
      modifies n32
      ensures Valid() && Value() == old(Value()) + Pow2(zeroBits)
    {
      hide Pow2, Place, Val;
      var idx, remain := zeroBits / 32, zeroBits % 32;
      PlacePow2(remain, idx);
      Pow2Small(remain);
      ghost var was := n32[..];
      ValUpdate(was, idx, n32[idx] + Pow2(remain));
      n32[idx] := n32[idx] + Pow2(remain);
      assert n32[..] == was[idx := was[idx] + Pow2(remain)];
      while n32[idx] >= MAX_U32
        invariant idx < LIMBS && n32[idx] < 2 * MAX_U32
        invariant forall j :: 0 <= j < LIMBS && j != idx ==> n32[j] < MAX_U32
        invariant Value() == old(Value()) + Pow2(zeroBits)
        decreases LIMBS - idx
      {
        ghost var s := n32[..];
        NoCarryOut(s, idx);
        CarryKeeps(s, idx);
        n32[idx] := n32[idx] - MAX_U32;
        n32[idx + 1] := n32[idx + 1] + 1;
        assert n32[..] == s[idx := s[idx] - MAX_U32][idx + 1 := s[idx + 1] + 1];
        idx := idx + 1;
      }
    }

    /** sub_pow: false, and nothing changed, exactly when less than 2^zeroBits is left. */
    method SubPow(zeroBits: nat) returns (ok: bool)
      requires Valid() && zeroBits < 32 * LIMBS
      modifies n32
      ensures Valid()
      ensures ok <==> old(Value()) >= Pow2(zeroBits)
      ensures ok ==> Value() == old(Value()) - Pow2(zeroBits)
      ensures !ok ==> n32[..] == old(n32[..])
    {
      hide Pow2, Place, Val;
      var idx, remain := zeroBits / 32, zeroBits % 32;
      PlacePow2(remain, idx);
      Pow2Small(remain);
      var v := Pow2(remain);
      ghost var was := n32[..];
      if n32[idx] < v {
        var copy := n32[..];
        BorrowFirst(was, idx, v);
        n32[idx] := n32[idx] + MAX_U32 - v;
        assert n32[..] == was[idx := was[idx] + MAX_U32 - v];
        idx := idx + 1;
        while idx <= 8
          invariant 0 < idx <= LIMBS && Valid()
          invariant Value() == old(Value()) - Pow2(zeroBits) + Place(1, idx)
          decreases LIMBS - idx
        {
          ghost var s := n32[..];
          BorrowNext(s, idx);
          if n32[idx] == 0 {
            n32[idx] := MAX_U32 - 1;
            assert n32[..] == s[idx := MAX_U32 - 1];
          } else {
            n32[idx] := n32[idx] - 1;
            assert n32[..] == s[idx := s[idx] - 1];
            return true;
          }
          idx := idx + 1;
        }
        ValBound(n32[..]);
        forall i | 0 <= i < LIMBS {
          n32[i] := copy[i];
        }
        assert n32[..] == was;
        return false;
      }
      SubEnough(was, idx, v);
      n32[idx] := n32[idx] - v;
      assert n32[..] == was[idx := was[idx] - v];
      return true;
    }

    /** operator> is numeric order. */
    predicate Greater(other: AccumPow)
      requires Valid() && other.Valid()
      reads this, n32, other, other.n32
      ensures Greater(other) <==> Value() > other.Value()
    {
      var a, b := n32[..], other.n32[..];
      Decides(a, b);
      if a[8] > b[8] then true
      else if a[8] < b[8] then false
      else if a[7] > b[7] then true
      else if a[7] < b[7] then false
      else if a[6] > b[6] then true
      else if a[6] < b[6] then false
      else if a[5] > b[5] then true
      else if a[5] < b[5] then false
      else if a[4] > b[4] then true
      else if a[4] < b[4] then false
      else if a[3] > b[3] then true
      else if a[3] < b[3] then false
      else if a[2] > b[2] then true
      else if a[2] < b[2] then false
      else if a[1] > b[1] then true
      else if a[1] < b[1] then false
      else a[0] > b[0]
    }

    /** operator==. */
    predicate Equal(other: AccumPow)
      requires Valid() && other.Valid()
      reads this, n32, other, other.n32
      ensures Equal(other) <==> Value() == other.Value()
    {
      EqualValues(n32[..], other.n32[..]);
      n32[..] == other.n32[..]
    }

    /** Block::add_difficulty_from: the work of a block from the work of its parent. The limbs cannot overflow below
        height 2^33. */
    method AddDifficultyFrom(other: AccumPow, b: Block)
      requires Valid() && other.Valid() && n32 != other.n32
      requires b.Block? && HeadersOk(b) && Height(b) < 2 * MAX_U32 && other.Value() == Work(b.parent)
      modifies n32
      ensures Valid() && Value() == Work(b) && Greater(other)
    {
      hide Pow2, Place, Val, NextZeroBits;
      forall i | 0 <= i < LIMBS {
        n32[i] := other.n32[i];
      }
      assert n32[..] == old(other.n32[..]);
      WorkFits(b);
      AddPow(b.zeroBits);
      assert other.Value() == Work(b.parent);
    }
  }

  /** A block's work: 2^zero_bits for every block of its ancestry except genesis. */
  ghost function Work(b: Block): nat {
    if b.Genesis? then 0 else Work(b.parent) + Pow2(b.zeroBits)
  }

  /** The most that `h` blocks can weigh. */
  ghost function MostWork(h: nat): nat {
    if h == 0 then 0 else MostWork(h - 1) + Pow2(255)
  }

  lemma {:induction false} WorkBound(b: Block)
    requires HeadersOk(b)
    ensures Work(b) <= MostWork(Height(b))
  {
    hide Pow2, NextZeroBits;
    if b.Block? {
      WorkBound(b.parent);
      Pow2Grows(b.zeroBits, 255);
    }
  }

  lemma {:induction false} MostWorkIs(h: nat, p: nat)
    requires p == Pow2(255)
    ensures MostWork(h) == h * p
  {
    hide Pow2;
    if h > 0 {
      MostWorkIs(h - 1, p);
    }
  }

  lemma OrderTimes(n: nat, m: nat, p: nat)
    requires n < m && p > 0
    ensures n * p < m * p
  {
  }

  /** Below height 2^33 the work fits in the nine limbs, so add_pow never carries past the last. */
  lemma WorkFits(b: Block)
    requires HeadersOk(b) && Height(b) < 2 * MAX_U32
    ensures Work(b) < Place(1, LIMBS)
  {
    hide Pow2, Place, HeadersOk, Height, Work, MostWork;
    WorkBound(b);
    MostWorkBelow(Height(b));
  }

  lemma MostWorkBelow(h: nat)
    requires h < 2 * MAX_U32
    ensures MostWork(h) < Place(1, LIMBS)
  {
    hide Pow2, Place, MostWork;
    Pow2By32(255);
    Pow2Twice(287);
    PlacePow2(0, LIMBS);
    Pow2Twice(0);
    var p := Pow2(255);
    MostWorkIs(h, p);
    OrderTimes(h, 2 * MAX_U32, p);
  }

  lemma Pow2Twice(n: nat)
    ensures Pow2(n + 1) == 2 * Pow2(n) && Pow2(0) == 1
  {
  }

  /** The more blocks on top, the heavier: a strict descendant always has more work. */
  lemma {:induction false} WorkGrows(a: Block, b: Block)
    requires IsAncestor(a, b)
    ensures Work(a) <= Work(b)
    ensures a != b ==> Work(a) < Work(b)
  {
    hide Pow2;
    if a != b {
      WorkGrows(a, b.parent);
    }
  }

  // ---- Limbs

  lemma NoCarryOut(s: seq<nat>, i: nat)
    requires i < |s| == LIMBS && s[i] >= MAX_U32 && Val(s) < Place(1, LIMBS)
    ensures i + 1 < LIMBS
  {
    hide Val, Place;
    ValAtLeast(s, i);
    PlaceOrder(MAX_U32, s[i], i);
    PlaceCarry(1, i);
  }

  /** Moving 2^32 from one limb to the next as 1 keeps the number. */
  lemma CarryKeeps(s: seq<nat>, i: nat)
    requires i + 1 < |s| && s[i] >= MAX_U32
    ensures Val(s[i := s[i] - MAX_U32][i + 1 := s[i + 1] + 1]) == Val(s)
  {
    hide Val, Place;
    ValUpdate(s, i, s[i] - MAX_U32);
    ValUpdate(s[i := s[i] - MAX_U32], i + 1, s[i + 1] + 1);
    PlaceCarry(1, i);
    PlaceAdd(0, MAX_U32, i);
    PlaceOrder(0, 0, i);
  }

  lemma BorrowFirst(s: seq<nat>, i: nat, v: nat)
    requires i < |s| && s[i] < v < MAX_U32
    ensures Val(s[i := s[i] + MAX_U32 - v]) == Val(s) - Place(v, i) + Place(1, i + 1)
  {
    hide Val, Place;
    ValUpdate(s, i, s[i] + MAX_U32 - v);
    PlaceAdd(MAX_U32, v, i);
    PlaceCarry(1, i);
  }

  /** A borrow is paid by the limb, or passed on by an empty one. */
  lemma BorrowNext(s: seq<nat>, i: nat)
    requires i < |s|
    ensures s[i] == 0 ==> Val(s[i := MAX_U32 - 1]) == Val(s) - Place(1, i) + Place(1, i + 1)
    ensures s[i] > 0 ==> Val(s[i := s[i] - 1]) == Val(s) - Place(1, i)
  {
    hide Val, Place;
    PlaceCarry(1, i);
    if s[i] == 0 {
      ValUpdate(s, i, MAX_U32 - 1);
      PlaceAdd(MAX_U32, 1, i);
    } else {
      ValUpdate(s, i, s[i] - 1);
      PlaceAdd(0, 1, i);
      PlaceOrder(0, 0, i);
    }
  }

  lemma SubEnough(s: seq<nat>, i: nat, v: nat)
    requires i < |s| && s[i] >= v
    ensures Val(s) >= Place(v, i)
    ensures Val(s[i := s[i] - v]) == Val(s) - Place(v, i)
  {
    hide Val, Place;
    ValUpdate(s, i, s[i] - v);
    ValAtLeast(s, i);
    PlaceOrder(v, s[i], i);
    PlaceAdd(0, v, i);
    PlaceOrder(0, 0, i);
  }

  lemma EqualValues(a: seq<nat>, b: seq<nat>)
    requires |a| == |b| && Normal(a) && Normal(b)
    ensures a == b <==> Val(a) == Val(b)
  {
    if Val(a) == Val(b) {
      ValInjective(a, b);
    }
  }

  /** The highest limb up to `i` in which `a` and `b` differ, or -1. */
  ghost function HighestDiff(a: seq<nat>, b: seq<nat>, i: int): (d: int)
    requires |a| == |b| && -1 <= i < |a|
    ensures -1 <= d <= i && (d >= 0 ==> a[d] != b[d])
    ensures forall j :: d < j <= i ==> a[j] == b[j]
  {
    if i < 0 || a[i] != b[i] then i else HighestDiff(a, b, i - 1)
  }

  lemma Decides(a: seq<nat>, b: seq<nat>)
    requires |a| == |b| == LIMBS && Normal(a) && Normal(b)
    ensures var d := HighestDiff(a, b, LIMBS - 1);
            if d < 0 then Val(a) == Val(b) else (Val(a) > Val(b) <==> a[d] > b[d])
  {
    var d := HighestDiff(a, b, LIMBS - 1);
    if d < 0 {
      assert a == b;
    } else if a[d] > b[d] {
      ValCompare(a, b, d);
    } else {
      ValCompare(b, a, d);
    }
  }
}
