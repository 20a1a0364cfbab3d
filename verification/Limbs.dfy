/** Numbers in little-endian base 2^32, and the powers of two they need. */
module Limbs {

  const MAX_U32: nat := 0x1_0000_0000

  function Pow2(n: nat): (p: nat)
    ensures p > 0
  {
    if n == 0 then 1 else 2 * Pow2(n - 1)
  }

  lemma Pow2By8(n: nat)
    ensures Pow2(n + 8) == 256 * Pow2(n)
  {
    assert Pow2(n + 2) == 4 * Pow2(n);
    assert Pow2(n + 4) == 4 * Pow2(n + 2);
    assert Pow2(n + 6) == 4 * Pow2(n + 4);
    assert Pow2(n + 8) == 4 * Pow2(n + 6);
  }

  lemma Pow2By32(n: nat)
    ensures Pow2(n + 32) == MAX_U32 * Pow2(n)
  {
    hide Pow2;
    Pow2By8(n);
    Pow2By8(n + 8);
    Pow2By8(n + 16);
    Pow2By8(n + 24);
  }

  lemma Pow2Is32()
    ensures Pow2(32) == MAX_U32 && Pow2(0) == 1
  {
    Pow2By32(0);
    hide Pow2;
    Pow2None();
  }

  lemma Pow2None()
    ensures Pow2(0) == 1
  {
  }

  lemma {:induction false} Pow2Grows(a: nat, b: nat)
    requires a <= b
    ensures Pow2(a) <= Pow2(b)
    ensures a < b ==> 2 * Pow2(a) <= Pow2(b)
  {
    if a < b {
      Pow2Grows(a, b - 1);
    }
  }

  lemma Pow2Small(r: nat)
    requires r < 32
    ensures 2 * Pow2(r) <= MAX_U32
  {
    hide Pow2;
    Pow2Grows(r, 32);
    Pow2Is32();
  }

  /** The amount `v` at limb `i`: v * 2^(32 i). */
  function Place(v: int, i: nat): int {
    if i == 0 then v else MAX_U32 * Place(v, i - 1)
  }

  lemma {:induction false} PlaceAdd(a: int, b: int, i: nat)
    ensures Place(a + b, i) == Place(a, i) + Place(b, i)
    ensures Place(a - b, i) == Place(a, i) - Place(b, i)
  {
    if i > 0 {
      PlaceAdd(a, b, i - 1);
    }
  }

  /** A carry out of one limb is one unit of the next. */
  lemma {:induction false} PlaceCarry(v: int, i: nat)
    ensures Place(v, i + 1) == Place(MAX_U32 * v, i)
  {
    if i > 0 {
      PlaceCarry(v, i - 1);
    }
  }

  lemma {:induction false} PlaceOrder(a: int, b: int, i: nat)
    requires a <= b
    ensures Place(a, i) <= Place(b, i)
    ensures a < b ==> Place(a, i) < Place(b, i)
    ensures Place(0, i) == 0
  {
    if i > 0 {
      PlaceOrder(a, b, i - 1);
    }
  }

  lemma {:induction false} PlacePow2(r: nat, i: nat)
    ensures Place(Pow2(r), i) == Pow2(32 * i + r)
  {
    if i > 0 {
      PlacePow2(r, i - 1);
      Pow2By32(32 * (i - 1) + r);
    }
  }

  /** The number that the limbs stand for. */
  function Val(s: seq<nat>): nat {
    if s == [] then 0 else s[0] + MAX_U32 * Val(s[1..])
  }

  predicate Normal(s: seq<nat>) {
    forall i :: 0 <= i < |s| ==> s[i] < MAX_U32
  }

  lemma {:induction false} ValUpdate(s: seq<nat>, i: nat, v: nat)
    requires i < |s|
    ensures Val(s[i := v]) == Val(s) + Place(v - s[i], i)
  {
    if i == 0 {
      assert s[i := v][1..] == s[1..];
    } else {
      ValUpdate(s[1..], i - 1, v);
      assert s[i := v][1..] == s[1..][i - 1 := v];
    }
  }

  lemma {:induction false} ValAppend(s: seq<nat>, v: nat)
    ensures Val(s + [v]) == Val(s) + Place(v, |s|)
  {
    if s == [] {
      assert [v][1..] == [];
    } else {
      ValAppend(s[1..], v);
      assert (s + [v])[1..] == s[1..] + [v];
    }
  }

  lemma {:induction false} ValBound(s: seq<nat>)
    requires Normal(s)
    ensures Val(s) < Place(1, |s|)
  {
    if s != [] {
      ValBound(s[1..]);
    }
  }

  /** One limb alone bounds the number from below. */
  lemma {:induction false} ValAtLeast(s: seq<nat>, i: nat)
    requires i < |s|
    ensures Val(s) >= Place(s[i], i)
  {
    if i > 0 {
      ValAtLeast(s[1..], i - 1);
    }
  }

  lemma {:induction false} ValZeros(s: seq<nat>)
    requires forall i :: 0 <= i < |s| ==> s[i] == 0
    ensures Val(s) == 0
  {
    if s != [] {
      ValZeros(s[1..]);
    }
  }

  /** The highest limb in which two numbers differ decides. */
  lemma {:induction false} ValCompare(a: seq<nat>, b: seq<nat>, i: nat)
    requires |a| == |b| && i < |a| && Normal(a) && Normal(b)
    requires a[i] > b[i] && forall j :: i < j < |a| ==> a[j] == b[j]
    ensures Val(a) > Val(b)
  {
    if i > 0 {
      ValCompare(a[1..], b[1..], i - 1);
    } else {
      assert a[1..] == b[1..];
    }
  }

  /** Equal numbers have equal limbs. */
  lemma {:induction false} ValInjective(a: seq<nat>, b: seq<nat>)
    requires |a| == |b| && Normal(a) && Normal(b) && Val(a) == Val(b)
    ensures a == b
  {
    if a != [] {
      assert a[0] == b[0];
      ValInjective(a[1..], b[1..]);
      assert a == [a[0]] + a[1..] && b == [b[0]] + b[1..];
    }
  }
}
