/** Variable-length integers: base 128, highest group first, every number written in exactly one way. */
module VarInt {
  import opened Numbers
  import opened Limbs

  type Byte = b: nat | b < 256

  /** The largest value of an unsigned type of `bits` bits. */
  function MaxOf(bits: nat): nat {
    Pow2(bits) - 1
  }

  // ---- As functions

  /** The groups above the last one, each with the continuation bit. */
  function Continued(n: nat): (s: seq<Byte>)
    ensures s != []
  {
    if n <= 0x7F then [n + 0x80] else Continued(n / 128 - 1) + [n % 128 + 0x80]
  }

  function Write(n: nat): (s: seq<Byte>)
    ensures s != []
  {
    if n <= 0x7F then [n] else Continued(n / 128 - 1) + [n % 128]
  }

  function Size(n: nat): nat {
    if n <= 0x7F then 1 else 1 + Size(n / 128 - 1)
  }

  /** What reading leaves: the number and the unread bytes, or one of the two failures. */
  datatype Read = Number(n: nat, rest: seq<Byte>) | TooLarge | EndOfStream

  function ReadFrom(s: seq<Byte>, n: nat, max: nat): Read
    decreases |s|
  {
    if s == [] then EndOfStream
    else if n > max / 128 then TooLarge
    else
      var m := n * 128 + s[0] % 128;
      if s[0] < 0x80 then Number(m, s[1..])
      else if m == max then TooLarge
      else ReadFrom(s[1..], m + 1, max)
  }

  lemma {:induction false} ReadContinued(m: nat, t: seq<Byte>, max: nat)
    requires m < max
    ensures ReadFrom(Continued(m) + t, 0, max) == ReadFrom(t, m + 1, max)
  {
    if m <= 0x7F {
      assert (Continued(m) + t)[1..] == t;
    } else {
      var x: Byte := m % 128 + 0x80;
      ReadContinued(m / 128 - 1, [x] + t, max);
      assert Continued(m) + t == Continued(m / 128 - 1) + ([x] + t);
      assert ([x] + t)[1..] == t;
    }
  }

  /** Reading gives back every number of the type, and leaves what follows it. */
  lemma ReadWrite(n: nat, rest: seq<Byte>, max: nat)
    requires n <= max
    ensures ReadFrom(Write(n) + rest, 0, max) == Number(n, rest)
  {
    if n <= 0x7F {
      assert (Write(n) + rest)[1..] == rest;
    } else {
      var x: Byte := n % 128;
      ReadContinued(n / 128 - 1, [x] + rest, max);
      assert Write(n) + rest == Continued(n / 128 - 1) + ([x] + rest);
      assert ([x] + rest)[1..] == rest;
    }
  }

  /** The bytes of the groups read so far, when the running value is `k`. */
  function Before(k: nat): seq<Byte> {
    if k == 0 then [] else Continued(k - 1)
  }

  /** `max` is the maximum of an unsigned type of at least seven bits. */
  lemma {:induction false} WriteReadFrom(s: seq<Byte>, k: nat, max: nat)
    requires ReadFrom(s, k, max).Number? && max % 128 == 127
    ensures ReadFrom(s, k, max).n <= max
    ensures Before(k) + s == Write(ReadFrom(s, k, max).n) + ReadFrom(s, k, max).rest
    decreases |s|
  {
    var m := k * 128 + s[0] % 128;
    assert Before(k) + s == (Before(k) + [s[0]]) + s[1..];
    GroupRead(k, s[0]);
    hide Before, Write, Continued;
    if s[0] >= 0x80 {
      WriteReadFrom(s[1..], m + 1, max);
    }
  }

  lemma GroupRead(k: nat, x: Byte)
    ensures x < 0x80 ==> Before(k) + [x] == Write(k * 128 + x)
    ensures x >= 0x80 ==> Before(k) + [x] == Before(k * 128 + x % 128 + 1)
  {
  }

  lemma MaxIsFull(bits: nat)
    requires bits >= 7
    ensures MaxOf(bits) % 128 == 127
  {
    Pow2By7(bits - 7);
    hide Pow2;
  }

  /** Every accepted byte string is what the number it gives is written as: there is no other way to write it. */
  lemma WriteRead(s: seq<Byte>, max: nat)
    requires ReadFrom(s, 0, max).Number? && max % 128 == 127
    ensures ReadFrom(s, 0, max).n <= max
    ensures s == Write(ReadFrom(s, 0, max).n) + ReadFrom(s, 0, max).rest
  {
    WriteReadFrom(s, 0, max);
    assert [] + s == s;
  }

  // ---- The bytes

  /** What the continuations add to a number of `t` more groups: 128 + 128^2 + .. + 128^t. */
  function Skipped(t: nat): nat {
    if t == 0 then 0 else 128 * (Skipped(t - 1) + 1)
  }

  /** Group `t` of a number, counted from the lowest. */
  function Group(n: nat, t: nat): nat
    requires n >= Skipped(t)
  {
    (n - Skipped(t)) / Pow2(7 * t) % 128
  }

  lemma GroupAbove128(n: nat, t: nat)
    requires n > 0x7F && n / 128 - 1 >= Skipped(t)
    ensures n >= Skipped(t + 1) && Group(n / 128 - 1, t) == Group(n, t + 1)
  {
    hide Pow2;
    Pow2By7(7 * t);
    DivideTwice(n - Skipped(t + 1), 128, Pow2(7 * t));
    assert (n - Skipped(t + 1)) / 128 == n / 128 - 1 - Skipped(t);
  }

  lemma LowestGroup(n: nat)
    ensures Skipped(0) == 0 && Group(n, 0) == n % 128
  {
    assert Pow2(0) == 1;
  }

  lemma {:induction false} ContinuedBytes(n: nat, i: nat)
    requires i < |Continued(n)|
    ensures var t := |Continued(n)| - 1 - i;
            n >= Skipped(t) && Continued(n)[i] == Group(n, t) + 0x80
  {
    hide Group, Skipped;
    if i == |Continued(n)| - 1 {
      LowestGroup(n);
    } else {
      ContinuedBytes(n / 128 - 1, i);
      GroupAbove128(n, |Continued(n / 128 - 1)| - 1 - i);
    }
  }

  /** Every byte but the last has the continuation bit, and the groups stand highest first. */
  lemma WrittenBytes(n: nat, i: nat)
    requires i < |Write(n)|
    ensures var t := |Write(n)| - 1 - i;
            n >= Skipped(t) && Write(n)[i] == Group(n, t) + if t > 0 then 0x80 else 0
  {
    hide Group, Skipped;
    if i == |Write(n)| - 1 {
      LowestGroup(n);
    } else {
      ContinuedBytes(n / 128 - 1, i);
      GroupAbove128(n, |Continued(n / 128 - 1)| - 1 - i);
    }
  }

  lemma {:induction false} SizeOfContinued(n: nat)
    ensures |Continued(n)| == Size(n)
  {
    if n > 0x7F {
      SizeOfContinued(n / 128 - 1);
    }
  }

  lemma Pow2By7(k: nat)
    ensures Pow2(k + 7) == 128 * Pow2(k)
  {
    assert Pow2(k + 2) == 4 * Pow2(k);
    assert Pow2(k + 4) == 4 * Pow2(k + 2);
    assert Pow2(k + 6) == 4 * Pow2(k + 4);
  }

  lemma {:induction false} SizeBelow(n: nat)
    ensures Size(n) > 1 ==> Pow2(7 * (Size(n) - 1)) <= n
  {
    if n > 0x7F {
      SizeBelow(n / 128 - 1);
      Pow2By7(7 * (Size(n) - 2));
      assert Pow2(0) == 1;
    }
  }

  /** The written length is what GetSizeOfVarInt says, and fits the buffer that WriteVarInt declares. */
  lemma SizeFits(n: nat, bits: nat)
    requires bits > 0 && n <= MaxOf(bits)
    ensures |Write(n)| == Size(n) <= (bits + 6) / 7
  {
    if n > 0x7F {
      SizeOfContinued(n / 128 - 1);
    }
    SizeBelow(n);
    hide Pow2;
    if bits <= 7 * (Size(n) - 1) {
      Pow2Grows(bits, 7 * (Size(n) - 1));
    }
  }

  // ---- The loops

  method GetSizeOfVarInt(i: nat) returns (size: nat)
    ensures size == Size(i)
  {
    var n := i;
    size := 0;
    while true
      invariant size + Size(n) == Size(i)
      decreases n
    {
      size := size + 1;
      if n <= 0x7F {
        break;
      }
      n := n / 128 - 1;
    }
  }

  /** WriteVarInt: the groups are collected lowest first, and written in reverse. */
  method WriteVarInt(os: seq<Byte>, i: nat, bits: nat) returns (out: seq<Byte>)
    requires bits > 0 && i <= MaxOf(bits)
    ensures out == os + Write(i)
  {
    SizeFits(i, bits);
    var tmp := new Byte[(bits + 6) / 7](_ => 0);
    var len := CollectGroups(tmp, i);
    out := AppendBackwards(os, tmp[..len + 1]);
  }

  method CollectGroups(tmp: array<Byte>, i: nat) returns (len: nat)
    requires Size(i) <= tmp.Length
    modifies tmp
    ensures len < tmp.Length && Backwards(tmp[..len + 1]) == Write(i)
  {
    hide Continued, Write;
    var n := i;
    len := 0;
    while true
      invariant len + Size(n) == Size(i) && len < tmp.Length
      invariant Write(i) == Above(n, len) + Backwards(tmp[..len])
      decreases n
    {
      ghost var low := tmp[..len];
      tmp[len] := n % 128 + if len != 0 then 0x80 else 0x00;
      assert tmp[..len + 1] == low + [tmp[len]];
      BackwardsAppend(low, tmp[len]);
      GroupAbove(n, len, low, tmp[len]);
      if n <= 0x7F {
        break;
      }
      n := n / 128 - 1;
      len := len + 1;
    }
  }

  method AppendBackwards(os: seq<Byte>, all: seq<Byte>) returns (out: seq<Byte>)
    ensures out == os + Backwards(all)
  {
    out := os;
    var j: int := |all| - 1;
    assert all[..|all|] == all;
    while j >= 0
      invariant -1 <= j < |all|
      invariant os + Backwards(all) == out + Backwards(all[..j + 1])
    {
      assert all[..j + 1] == all[..j] + [all[j]];
      BackwardsAppend(all[..j], all[j]);
      assert out + ([all[j]] + Backwards(all[..j])) == (out + [all[j]]) + Backwards(all[..j]);
      out := out + [all[j]];
      j := j - 1;
    }
    assert out + [] == out;
  }

  /** What is written for the groups from the `len`-th on, when their value is `n`. */
  function Above(n: nat, len: nat): seq<Byte> {
    if len == 0 then Write(n) else Continued(n)
  }

  function Backwards(s: seq<Byte>): (r: seq<Byte>)
    ensures |r| == |s|
  {
    if s == [] then [] else [s[|s| - 1]] + Backwards(s[..|s| - 1])
  }

  lemma BackwardsAppend(s: seq<Byte>, x: Byte)
    ensures Backwards(s + [x]) == [x] + Backwards(s)
  {
    assert (s + [x])[..|s|] == s;
  }

  lemma GroupAbove(n: nat, len: nat, low: seq<Byte>, x: Byte)
    requires len == |low| && x == n % 128 + (if len != 0 then 0x80 else 0)
    ensures n > 0x7F ==> Above(n, len) + Backwards(low) == Above(n / 128 - 1, len + 1) + ([x] + Backwards(low))
    ensures n <= 0x7F ==> Above(n, len) + Backwards(low) == [x] + Backwards(low)
  {
    if n > 0x7F {
      assert Above(n, len) == Continued(n / 128 - 1) + [x];
      assert (Continued(n / 128 - 1) + [x]) + Backwards(low) == Continued(n / 128 - 1) + ([x] + Backwards(low));
    }
  }

  /** ReadVarInt; the value never leaves the type. */
  method ReadVarInt(stream: seq<Byte>, bits: nat) returns (r: Read)
    requires bits >= 7
    ensures r == ReadFrom(stream, 0, MaxOf(bits))
  {
    MaxIsFull(bits);
    hide MaxOf;
    var n: nat, s := 0, stream;
    while true
      invariant n <= MaxOf(bits)
      invariant ReadFrom(s, n, MaxOf(bits)) == ReadFrom(stream, 0, MaxOf(bits))
      decreases |s|
    {
      if s == [] {
        return EndOfStream;
      }
      var chData := s[0];
      if n > MaxOf(bits) / 128 {
        return TooLarge;
      }
      s := s[1..];
      n := n * 128 + chData % 128;
      if chData >= 0x80 {
        if n == MaxOf(bits) {
          return TooLarge;
        }
        n := n + 1;
      } else {
        return Number(n, s);
      }
    }
  }
}
