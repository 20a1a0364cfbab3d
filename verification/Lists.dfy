/** Sequences used as the std::list containers of the ledger: removal by value, order-preserving
    restriction, and the lists that hold the same elements in another order. */
module Lists {

  datatype Option<+T> = None | Some(value: T)

  predicate NoDup<T(==)>(q: seq<T>) {
    forall i, j :: 0 <= i < j < |q| ==> q[i] != q[j]
  }

  /** `q` without the elements of `m`, in the order of `q`. */
  function Minus<T(==,!new)>(q: seq<T>, m: seq<T>): (r: seq<T>)
    ensures forall x :: x in r <==> x in q && x !in m
    ensures |r| <= |q|
  {
    if q == [] then []
    else if q[0] in m then Minus(q[1..], m)
    else [q[0]] + Minus(q[1..], m)
  }

  /** pop_back on a list; popping an empty list is undefined in C++ and is ruled out separately. */
  function DropLast<T>(q: seq<T>): seq<T> {
    if q == [] then [] else q[..|q| - 1]
  }

  /** list::erase of the first match. */
  function EraseFirst<T(==)>(q: seq<T>, x: T): seq<T> {
    if q == [] then [] else if q[0] == x then q[1..] else [q[0]] + EraseFirst(q[1..], x)
  }

  lemma {:induction false} EraseNone<T(!new)>(q: seq<T>, x: T)
    requires x !in q
    ensures EraseFirst(q, x) == q
  {
    if q != [] {
      EraseNone(q[1..], x);
    }
  }

  lemma {:induction false} EraseAt<T(!new)>(q: seq<T>, i: nat, x: T)
    requires i < |q| && q[i] == x && x !in q[..i]
    ensures EraseFirst(q, x) == q[..i] + q[i + 1..]
  {
    if i > 0 {
      assert q[..i][0] == q[0] && q[1..][..i - 1] == q[..i][1..];
      EraseAt(q[1..], i - 1, x);
      assert q[..i] == [q[0]] + q[1..][..i - 1];
    }
  }

  lemma {:induction false} EraseCounts<T(!new)>(q: seq<T>, x: T)
    requires x in q
    ensures |EraseFirst(q, x)| == |q| - 1
    ensures multiset(q) == multiset{x} + multiset(EraseFirst(q, x))
  {
    assert q == [q[0]] + q[1..];
    if q[0] != x {
      EraseCounts(q[1..], x);
      assert multiset([q[0]] + EraseFirst(q[1..], x)) == multiset{q[0]} + multiset(EraseFirst(q[1..], x));
    }
  }

  /** On a list without repetitions the first match is the only one. */
  lemma {:induction false} EraseIsMinus<T(!new)>(q: seq<T>, x: T)
    requires NoDup(q)
    ensures EraseFirst(q, x) == Minus(q, [x])
  {
    if q != [] {
      assert q[0] !in q[1..];
      if q[0] == x {
        MinusNone(q[1..], [x]);
      } else {
        EraseIsMinus(q[1..], x);
      }
    }
  }

  lemma MinusStep<T(!new)>(x: T, q: seq<T>, m: seq<T>)
    ensures Minus([x] + q, m) == if x in m then Minus(q, m) else [x] + Minus(q, m)
  {
    assert ([x] + q)[1..] == q;
  }

  lemma {:induction false} MinusAppend<T(!new)>(a: seq<T>, b: seq<T>, m: seq<T>)
    ensures Minus(a + b, m) == Minus(a, m) + Minus(b, m)
  {
    hide Minus;
    if a == [] {
      assert a + b == b;
      MinusOfNone(b, m);
    } else {
      var x, c := a[0], a[1..];
      MinusAppend(c, b, m);
      assert a == [x] + c && a + b == [x] + (c + b);
      MinusStep(x, c, m);
      MinusStep(x, c + b, m);
      assert [x] + (Minus(c, m) + Minus(b, m)) == ([x] + Minus(c, m)) + Minus(b, m);
    }
  }

  lemma MinusOfNone<T(!new)>(b: seq<T>, m: seq<T>)
    ensures Minus([], m) + Minus(b, m) == Minus(b, m)
  {
  }

  lemma {:induction false} MinusNoDup<T(!new)>(q: seq<T>, m: seq<T>)
    requires NoDup(q)
    ensures NoDup(Minus(q, m))
  {
    if q != [] {
      MinusNoDup(q[1..], m);
      assert q[0] !in q[1..];
    }
  }

  /** Only membership in `m` of the elements of `q` matters. */
  lemma {:induction false} MinusCong<T(!new)>(q: seq<T>, m: seq<T>, n: seq<T>)
    requires forall x :: x in q ==> (x in m <==> x in n)
    ensures Minus(q, m) == Minus(q, n)
  {
    if q != [] {
      MinusCong(q[1..], m, n);
    }
  }

  lemma {:induction false} MinusNone<T(!new)>(q: seq<T>, m: seq<T>)
    requires forall x :: x in q ==> x !in m
    ensures Minus(q, m) == q
  {
    if q != [] {
      MinusNone(q[1..], m);
    }
  }

  lemma {:induction false} MinusTwice<T(!new)>(q: seq<T>, m: seq<T>, n: seq<T>)
    ensures Minus(Minus(q, m), n) == Minus(q, m + n)
  {
    if q != [] {
      MinusTwice(q[1..], m, n);
      if q[0] !in m {
        assert Minus(q, m) == [q[0]] + Minus(q[1..], m);
        assert Minus(q, m)[1..] == Minus(q[1..], m);
      }
    }
  }

  // ---- The same elements in another order

  /** Neither list repeats an element, and both have the same ones. */
  ghost predicate Permuted<T(!new)>(a: seq<T>, b: seq<T>) {
    NoDup(a) && NoDup(b) && forall x :: x in a <==> x in b
  }

  lemma {:induction false} NoDupCount<T(!new)>(q: seq<T>, x: T)
    requires NoDup(q)
    ensures multiset(q)[x] == if x in q then 1 else 0
  {
    if q != [] {
      NoDupCount(q[1..], x);
      assert q == [q[0]] + q[1..];
    }
  }

  lemma {:induction false} CountedTwice<T(!new)>(q: seq<T>, i: nat, j: nat)
    requires i < j < |q| && q[i] == q[j]
    ensures multiset(q)[q[i]] >= 2
  {
    assert q == [q[0]] + q[1..];
    if i > 0 {
      CountedTwice(q[1..], i - 1, j - 1);
    } else {
      assert q[j] == q[1..][j - 1];
      assert q[j] in multiset(q[1..]);
    }
  }

  /** Everything a forward transaction looks at in a joined list. */
  lemma PermutedSame<T(!new)>(a: seq<T>, b: seq<T>)
    requires Permuted(a, b)
    ensures multiset(a) == multiset(b) && |a| == |b|
  {
    forall x ensures multiset(a)[x] == multiset(b)[x] {
      NoDupCount(a, x);
      NoDupCount(b, x);
    }
    assert multiset(a) == multiset(b);
    assert |multiset(a)| == |a| && |multiset(b)| == |b|;
  }

  /** To be a permutation of a list without repetitions is to have its multiset. */
  lemma PermutedIff<T(!new)>(a: seq<T>, b: seq<T>)
    requires NoDup(b)
    ensures Permuted(a, b) <==> multiset(a) == multiset(b)
  {
    if Permuted(a, b) {
      PermutedSame(a, b);
    }
    if multiset(a) == multiset(b) {
      forall x ensures x in a <==> x in b {
        assert x in a <==> x in multiset(a);
        assert x in b <==> x in multiset(b);
      }
      forall i, j | 0 <= i < j < |a| ensures a[i] != a[j] {
        if a[i] == a[j] {
          CountedTwice(a, i, j);
          NoDupCount(b, a[i]);
        }
      }
    }
  }

  lemma PermutedPushBack<T(!new)>(a: seq<T>, b: seq<T>, x: T)
    requires Permuted(a, b) && x !in b
    ensures Permuted(a + [x], b + [x])
  {
  }

  lemma PermutedErase<T(!new)>(a: seq<T>, b: seq<T>, x: T)
    requires Permuted(a, b)
    ensures Permuted(EraseFirst(a, x), EraseFirst(b, x))
  {
    EraseIsMinus(a, x);
    EraseIsMinus(b, x);
    MinusNoDup(a, [x]);
    MinusNoDup(b, [x]);
  }
}
