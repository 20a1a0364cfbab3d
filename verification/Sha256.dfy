/** The buffering of SHA-256 over an abstract compression function. */
module Sha256 {
  import opened Numbers

  type Byte = b: nat | b < 256

  type Compression = (seq<nat>, seq<Byte>) -> seq<nat>

  const BLOCK: nat := 64

  /** One application of the compression function per 64-byte block; an incomplete block at the end is not read. */
  function Fold(f: Compression, s: seq<nat>, m: seq<Byte>): seq<nat>
    decreases |m|
  {
    if |m| < BLOCK then s else Fold(f, f(s, m[..BLOCK]), m[BLOCK..])
  }

  /** WriteBE32 and WriteBE64: `n` bytes, highest first. */
  function BigEndian(x: nat, n: nat): (b: seq<Byte>)
    ensures |b| == n
  {
    if n == 0 then [] else BigEndian(x / 256, n - 1) + [x % 256]
  }

  function Pow256(n: nat): (p: nat)
    ensures p > 0
  {
    if n == 0 then 1 else 256 * Pow256(n - 1)
  }

  /** Where the bytes of a number stand: the highest first. */
  lemma {:induction false} BigEndianAt(x: nat, n: nat, i: nat)
    requires i < n
    ensures BigEndian(x, n)[i] == x / Pow256(n - 1 - i) % 256
  {
    if i < n - 1 {
      BigEndianAt(x / 256, n - 1, i);
      DivideTwice(x, 256, Pow256(n - 2 - i));
      assert 256 * Pow256(n - 2 - i) == Pow256(n - 1 - i);
    } else {
      assert Pow256(0) == 1;
    }
  }

  /** The number that bytes stand for, the highest first. */
  function ReadBytes(b: seq<Byte>): nat {
    if b == [] then 0 else 256 * ReadBytes(b[..|b| - 1]) + b[|b| - 1]
  }

  lemma {:induction false} ReadBack(x: nat, n: nat)
    requires x < Pow256(n)
    ensures ReadBytes(BigEndian(x, n)) == x
  {
    if n > 0 {
      assert x / 256 < Pow256(n - 1);
      ReadBack(x / 256, n - 1);
      assert BigEndian(x, n)[..n - 1] == BigEndian(x / 256, n - 1);
    }
  }

  function Words(s: seq<nat>): seq<Byte> {
    if s == [] then [] else BigEndian(s[0], 4) + Words(s[1..])
  }

  function Zeros(k: nat): (z: seq<Byte>)
    ensures |z| == k && forall i :: 0 <= i < k ==> z[i] == 0
  {
    seq(k, i => 0)
  }

  /** `k` zero bytes between the bit 1 and the length make the padded message end on a block. */
  predicate EndsBlock(n: nat, k: nat) {
    (n + 1 + k + 8) % BLOCK == 0
  }

  ghost predicate LeastZeros(n: nat, k: nat) {
    EndsBlock(n, k) && forall j: nat :: j < k ==> !EndsBlock(n, j)
  }

  /** The message as section 5.1.1 of FIPS 180-4 pads it, in bytes. */
  ghost predicate IsPadded(p: seq<Byte>, m: seq<Byte>) {
    exists k: nat :: LeastZeros(|m|, k) && p == m + [0x80] + Zeros(k) + BigEndian(8 * |m|, 8)
  }

  lemma {:induction false} FoldSplit(f: Compression, s: seq<nat>, a: seq<Byte>, b: seq<Byte>)
    requires |a| % BLOCK == 0
    ensures Fold(f, s, a + b) == Fold(f, Fold(f, s, a), b)
    decreases |a|
  {
    if a == [] {
      assert a + b == b;
    } else {
      FoldSplit(f, f(s, a[..BLOCK]), a[BLOCK..], b);
      assert (a + b)[..BLOCK] == a[..BLOCK] && (a + b)[BLOCK..] == a[BLOCK..] + b;
    }
  }

  /** Each block is compressed with the state that those before it left. */
  lemma FoldLast(f: Compression, s: seq<nat>, a: seq<Byte>, block: seq<Byte>)
    requires |a| % BLOCK == 0 && |block| == 64
    ensures Fold(f, s, a + block) == f(Fold(f, s, a), block)
  {
    FoldSplit(f, s, a, block);
    assert block[..BLOCK] == block;
  }

  /** The end of a message that fills no block. */
  function Rest(m: seq<Byte>): (r: seq<Byte>)
    ensures |r| == |m| % BLOCK
  {
    m[|m| - |m| % BLOCK..]
  }

  class CSHA256 {
    const transform: Compression
    const initial: seq<nat>
    var s: seq<nat>
    const buf: array<Byte>
    var bytes: nat

    /** Everything written since the last reset. */
    ghost var message: seq<Byte>

    ghost predicate Valid()
      reads this, buf
    {
      && buf.Length == BLOCK && bytes == |message|
      && s == Fold(transform, initial, message)
      && buf[..bytes % BLOCK] == Rest(message)
    }

    constructor (transform: Compression, initial: seq<nat>)
      ensures Valid() && message == [] && fresh(buf)
      ensures this.transform == transform && this.initial == initial
    {
      this.transform, this.initial, s, bytes := transform, initial, initial, 0;
      buf := new Byte[BLOCK](_ => 0);
      message := [];
    }

    /** Transform on `blocks` blocks in a row. */
    method TransformBlocks(chunk: seq<Byte>)
      requires |chunk| % BLOCK == 0
      modifies this`s
      ensures s == Fold(transform, old(s), chunk)
    {
      var rest := chunk;
      while rest != []
        invariant |rest| % BLOCK == 0
        invariant Fold(transform, s, rest) == Fold(transform, old(s), chunk)
        decreases |rest|
      {
        s := transform(s, rest[..BLOCK]);
        rest := rest[BLOCK..];
      }
    }

    /** memcpy into the buffer. */
    method Fill(at: nat, data: seq<Byte>)
      requires at + |data| <= buf.Length
      modifies buf
      ensures buf[..] == old(buf[..at]) + data + old(buf[at + |data|..])
    {
      var i := 0;
      while i < |data|
        invariant i <= |data|
        invariant forall j :: 0 <= j < at || at + i <= j < buf.Length ==> buf[j] == old(buf[j])
        invariant forall j :: 0 <= j < i ==> buf[at + j] == data[j]
      {
        buf[at + i] := data[i];
        i := i + 1;
      }
    }

    /** Write: however a message is cut into calls, the state is that of the whole message. */
    method Write(data: seq<Byte>)
      requires Valid()
      modifies this`s, this`bytes, this`message, buf
      ensures Valid() && message == old(message) + data
    {
      hide Fold, Rest;
      var d := data;
      var bufsize := bytes % BLOCK;
      if bufsize != 0 && bufsize + |data| >= BLOCK {
        FillBlock(data[..BLOCK - bufsize]);
        d := data[BLOCK - bufsize..];
      }
      ghost var m := message;
      if |d| >= BLOCK {
        WriteBlocks(d);
        d := d[BLOCK * (|d| / BLOCK)..];
      }
      if |d| > 0 {
        KeepRest(d);
      }
      assert message == old(message) + data;
    }

    /** The buffer is filled and processed. */
    method FillBlock(x: seq<Byte>)
      requires Valid() && bytes % BLOCK + |x| == BLOCK
      modifies this`s, this`bytes, this`message, buf
      ensures Valid() && message == old(message) + x && bytes % BLOCK == 0
    {
      hide Fold, Rest;
      ghost var m := message;
      Fill(bytes % BLOCK, x);
      assert buf[..] == Rest(m) + x;
      FilledBlock(transform, initial, m, x);
      bytes := bytes + |x|;
      message := message + x;
      TransformBlocks(buf[..]);
    }

    /** The buffer is filled with what remains. */
    method KeepRest(d: seq<Byte>)
      requires Valid() && bytes % BLOCK + |d| < BLOCK
      modifies this`bytes, this`message, buf
      ensures Valid() && message == old(message) + d
    {
      hide Fold, Rest;
      ghost var m, at := message, bytes % BLOCK;
      Fill(bytes % BLOCK, d);
      assert buf[..at + |d|] == Rest(m) + d;
      AddedRest(transform, initial, m, d);
      bytes := bytes + |d|;
      message := message + d;
    }

    /** Whole blocks go to the compression function directly. */
    method WriteBlocks(d: seq<Byte>)
      requires Valid() && bytes % BLOCK == 0
      modifies this`s, this`bytes, this`message
      ensures Valid() && message == old(message) + d[..BLOCK * (|d| / BLOCK)] && bytes % BLOCK == 0
    {
      hide Fold;
      var whole := d[..BLOCK * (|d| / BLOCK)];
      FoldSplit(transform, initial, message, whole);
      TransformBlocks(whole);
      bytes := bytes + |whole|;
      message := message + whole;
    }

    /** Finalize: the digest of the padded message. */
    method Finalize() returns (hash: seq<Byte>)
      requires Valid() && bytes < 0x2000_0000_0000_0000
      modifies this`s, this`bytes, this`message, buf
      ensures Valid() && IsPadded(message, old(message)) && |message| % BLOCK == 0
      ensures |message| >= 8 && ReadBytes(message[|message| - 8..]) == 8 * |old(message)|
      ensures hash == Words(Fold(transform, initial, message)) && IsDigest(hash, Fold(transform, initial, message))
    {
      hide Fold, Rest, IsPadded, BigEndian, Zeros, ReadBytes, IsDigest;
      ghost var m := message;
      var bits := bytes * 8 % 0x1_0000_0000_0000_0000;
      assert bits == 8 * |m|;
      var sizedesc := BigEndian(bits, 8);
      var pad: seq<Byte> := [0x80] + Zeros(63);
      var n := 1 + (119 - bytes % 64) % 64;
      Write(pad[..n]);
      Write(sizedesc);
      Padding(m, pad, n);
      PaddedBytes(message, m);
      WordsAreDigest(s);
      return Words(s);
    }

    method Reset()
      requires buf.Length == BLOCK
      modifies this`s, this`bytes, this`message
      ensures Valid() && message == []
    {
      bytes := 0;
      s := initial;
      message := [];
    }
  }

  /** A message is whole blocks and a rest that the compression function has not seen. */
  lemma HeadAndRest(f: Compression, initial: seq<nat>, m: seq<Byte>) returns (h: seq<Byte>)
    ensures m == h + Rest(m) && |h| % BLOCK == 0 && |Rest(m)| < BLOCK && |m| % BLOCK == |Rest(m)|
    ensures Fold(f, initial, m) == Fold(f, initial, h)
  {
    h := m[..|m| - |m| % BLOCK];
    assert m == h + Rest(m);
    FoldSplit(f, initial, h, Rest(m));
    hide Rest;
    assert Fold(f, Fold(f, initial, h), Rest(m)) == Fold(f, initial, h);
  }

  /** Four bytes of the digest for each word of the state, the highest first. */
  ghost predicate IsDigest(hash: seq<Byte>, s: seq<nat>) {
    |hash| == 4 * |s| && forall k :: 0 <= k < |hash| ==> hash[k] == s[k / 4] / Pow256(3 - k % 4) % 256
  }

  lemma {:induction false} WordsAreDigest(s: seq<nat>)
    ensures IsDigest(Words(s), s)
  {
    hide BigEndian, Pow256;
    if s != [] {
      var w, r := BigEndian(s[0], 4), s[1..];
      WordsAreDigest(r);
      forall k | 0 <= k < |Words(s)| ensures Words(s)[k] == s[k / 4] / Pow256(3 - k % 4) % 256 {
        if k < 4 {
          BigEndianAt(s[0], 4, k);
        } else {
          assert Words(s)[k] == Words(r)[k - 4] && r[(k - 4) / 4] == s[k / 4];
        }
      }
    }
  }

  /** A padded message is the message, a byte 0x80, fewer than 64 zeros and the length in bits in eight bytes, the
      highest first, and it fills its blocks of 64. */
  lemma PaddedBytes(p: seq<Byte>, m: seq<Byte>)
    requires IsPadded(p, m) && |m| < 0x2000_0000_0000_0000
    ensures |m| + 9 <= |p| < |m| + 73 && |p| % 64 == 0
    ensures m <= p && p[|m|] == 0x80
    ensures forall i :: |m| < i < |p| - 8 ==> p[i] == 0
    ensures ReadBytes(p[|p| - 8..]) == 8 * |m|
  {
    hide BigEndian, ReadBytes, LeastZeros;
    var k: nat :| LeastZeros(|m|, k) && p == m + [0x80] + Zeros(k) + BigEndian(8 * |m|, 8);
    PaddedLength(|m|);
    LeastOnce(|m|, k, (119 - |m| % 64) % 64);
    FillsBlocks(|m|);
    assert p[|p| - 8..] == BigEndian(8 * |m|, 8);
    assert Pow256(2) == 0x1_0000 && Pow256(4) == 0x1_0000_0000 && Pow256(6) == 0x1_0000_0000_0000;
    ReadBack(8 * |m|, 8);
  }

  lemma FillsBlocks(n: nat)
    ensures (n + 1 + (119 - n % 64) % 64 + 8) % 64 == 0
  {
  }

  /** There is only one way to cut a message into whole blocks and a rest. */
  lemma RestIs(m: seq<Byte>, h: seq<Byte>, r: seq<Byte>)
    requires m == h + r && |h| % BLOCK == 0 && |r| < BLOCK
    ensures Rest(m) == r && |m| % BLOCK == |r|
  {
    RemainderIs(|h|, |r|);
  }

  lemma RemainderIs(h: nat, r: nat)
    requires h % BLOCK == 0 && r < BLOCK
    ensures (h + r) % BLOCK == r
  {
  }

  /** A filled buffer is one more block of the message. */
  lemma FilledBlock(f: Compression, initial: seq<nat>, m: seq<Byte>, x: seq<Byte>)
    requires |Rest(m)| + |x| == BLOCK
    ensures Fold(f, Fold(f, initial, m), Rest(m) + x) == Fold(f, initial, m + x)
    ensures |m + x| % BLOCK == 0 && Rest(m + x) == []
  {
    hide Fold, Rest;
    var h := HeadAndRest(f, initial, m);
    FoldSplit(f, initial, h, Rest(m) + x);
    assert m + x == h + (Rest(m) + x);
    assert m + x == (h + (Rest(m) + x)) + [];
    OneMoreBlock(|h|);
    RestIs(m + x, h + (Rest(m) + x), []);
  }

  lemma OneMoreBlock(h: nat)
    requires h % BLOCK == 0
    ensures (h + BLOCK) % BLOCK == 0
  {
  }

  /** Bytes that fill no block only lengthen the rest. */
  lemma AddedRest(f: Compression, initial: seq<nat>, m: seq<Byte>, d: seq<Byte>)
    requires |Rest(m)| + |d| < BLOCK
    ensures Fold(f, initial, m + d) == Fold(f, initial, m)
    ensures Rest(m + d) == Rest(m) + d && |m + d| % BLOCK == |Rest(m)| + |d|
  {
    hide Rest;
    var h := HeadAndRest(f, initial, m);
    FoldSplit(f, initial, h, Rest(m) + d);
    assert m + d == h + (Rest(m) + d);
    assert Fold(f, Fold(f, initial, h), Rest(m) + d) == Fold(f, initial, h);
    hide Fold;
    RestIs(m + d, h, Rest(m) + d);
  }

  lemma PaddedLength(n: nat)
    ensures LeastZeros(n, (119 - n % 64) % 64)
  {
  }

  lemma Padding(m: seq<Byte>, pad: seq<Byte>, n: nat)
    requires pad == [0x80] + Zeros(63) && n == 1 + (119 - |m| % 64) % 64
    ensures n <= 64
    ensures var p := m + pad[..n] + BigEndian(8 * |m|, 8); IsPadded(p, m) && |p| % BLOCK == 0
  {
    PaddedLength(|m|);
    hide LeastZeros;
    assert EndsBlock(|m|, n - 1);
    assert pad[..n] == [0x80] + Zeros(n - 1);
    assert m + ([0x80] + Zeros(n - 1)) == m + [0x80] + Zeros(n - 1);
  }

  lemma LeastOnce(n: nat, k: nat, l: nat)
    requires LeastZeros(n, k) && LeastZeros(n, l)
    ensures k == l
  {
    hide EndsBlock;
  }

  /** A message has only one padding. */
  lemma PaddedOnce(p: seq<Byte>, q: seq<Byte>, m: seq<Byte>)
    requires IsPadded(p, m) && IsPadded(q, m)
    ensures p == q
  {
    var k: nat :| LeastZeros(|m|, k) && p == m + [0x80] + Zeros(k) + BigEndian(8 * |m|, 8);
    var l: nat :| LeastZeros(|m|, l) && q == m + [0x80] + Zeros(l) + BigEndian(8 * |m|, 8);
    LeastOnce(|m|, k, l);
  }
}
