/** The accounts in order of wealth: an ordered multiset of account objects whose key, the balance, changes. */
module RichIndex {
  import opened Numbers
  import opened Lists

  class Account {
    const id: nat
    var balance: nat

    constructor (id: nat)
      ensures this.id == id && balance == 0
    {
      this.id, balance := id, 0;
    }
  }

  /** Rich_Comp: the richer first, then the lower id. */
  predicate Before(a: Account, b: Account)
    reads a, b
  {
    a.balance > b.balance || (a.balance == b.balance && a.id < b.id)
  }

  /** How many elements at the start of `s` come before `a`. */
  function LowerBound(s: seq<Account>, a: Account): (n: nat)
    reads s, a
    ensures n <= |s|
    ensures forall i :: 0 <= i < n ==> Before(s[i], a)
    ensures n < |s| ==> !Before(s[n], a)
  {
    if s == [] || !Before(s[0], a) then 0 else 1 + LowerBound(s[1..], a)
  }

  /** How many elements at the start of `s` does `a` not come before. */
  function UpperBound(s: seq<Account>, a: Account): (n: nat)
    reads s, a
    ensures n <= |s|
    ensures forall i :: 0 <= i < n ==> !Before(a, s[i])
    ensures n < |s| ==> Before(a, s[n])
  {
    if s == [] || Before(a, s[0]) then 0 else 1 + UpperBound(s[1..], a)
  }

  ghost predicate Sorted(s: seq<Account>)
    reads s
  {
    forall i, j :: 0 <= i < j < |s| ==> !Before(s[j], s[i])
  }

  /** `s` without its element `i`. */
  function Without(s: seq<Account>, i: nat): (r: seq<Account>)
    requires i < |s|
  {
    s[..i] + s[i + 1..]
  }

  class RichIndex {
    var index: seq<Account>

    /** Every account object ever made, and those not unregistered. */
    ghost var accounts: set<Account>
    ghost var live: set<Account>

    /** The index is in order, holds each object at most once and every object that has coins; an account that
        was unregistered has none, and live accounts have different ids. */
    ghost predicate Valid()
      reads this, accounts
    {
      && Sound()
      && (forall a :: a in accounts && a !in live ==> a.balance == 0)
      && (forall a :: a in accounts && a.balance > 0 ==> a in index)
    }

    ghost predicate Sound()
      reads this, accounts
    {
      && live <= accounts
      && (forall a :: a in index ==> a in accounts)
      && NoDup(index) && Sorted(index)
      && (forall a, b :: a in live && b in live && a != b ==> a.id != b.id)
    }

    constructor ()
      ensures Valid() && index == [] && accounts == {} && live == {}
    {
      index, accounts, live := [], {}, {};
    }

    /** del_account_rich: searches among the elements with the same key. The key must be the one the account was
        entered with, which holds because every change of a balance takes the account out first. */
    method Del(a: Account)
      requires Sound() && a in accounts
      modifies this`index
      ensures Sound() && a !in index
      ensures forall x :: x != a ==> (x in index <==> x in old(index))
    {
      hide Before, LowerBound, UpperBound;
      var iter, end := LowerBound(index, a), UpperBound(index, a);
      SameKey(index, a);
      while iter < end
        invariant iter <= |index| && end <= |index| && index == old(index) && Sound()
        invariant forall j :: 0 <= j < iter ==> index[j] != a
        invariant forall j :: end <= j < |index| ==> index[j] != a
      {
        if index[iter] == a {
          TakenOut(index, iter);
          index := Without(index, iter);
          return;
        }
        iter := iter + 1;
      }
    }

    /** add_account_rich: a multiset inserts behind the elements with the same key. */
    method Add(a: Account)
      requires Sound() && a in accounts && a !in index
      modifies this`index
      ensures Sound()
      ensures forall x :: x in index <==> x in old(index) || x == a
    {
      hide Before;
      var at := UpperBound(index, a);
      PutIn(index, a, at);
      index := index[..at] + [a] + index[at..];
    }

    /** Account::add_balance */
    method AddBalance(a: Account, value: nat)
      requires Valid() && a in live && a.balance + value < TWO64
      modifies this`index, a`balance
      ensures Valid() && a in index && a.balance == old(a.balance) + value
      ensures forall x :: x != a ==> (x in index <==> x in old(index))
    {
      hide Sorted;
      Del(a);
      NewKey(a, a.balance + value);
      Add(a);
    }

    /** Account::sub_balance */
    method SubBalance(a: Account, value: nat)
      requires Valid() && a in live && value <= a.balance
      modifies this`index, a`balance
      ensures Valid() && a in index && a.balance == old(a.balance) - value
      ensures forall x :: x != a ==> (x in index <==> x in old(index))
    {
      hide Sorted;
      Del(a);
      NewKey(a, a.balance - value);
      Add(a);
    }

    /** Account::set_balance */
    method SetBalance(a: Account, value: nat)
      requires Valid() && a in live && value < TWO64
      modifies this`index, a`balance
      ensures Valid() && a in index && a.balance == value
      ensures forall x :: x != a ==> (x in index <==> x in old(index))
    {
      hide Sorted;
      Del(a);
      NewKey(a, value);
      Add(a);
    }

    /** The balance of an account that is not in the index. */
    method NewKey(a: Account, value: nat)
      requires Sound() && a in live && a !in index
      modifies a`balance
      ensures Sound() && a.balance == value
    {
      ghost var s := index;
      assert forall i :: 0 <= i < |s| ==> s[i] != a;
      a.balance := value;
    }

    /** A new account starts without coins and outside the index. */
    method Register(id: nat) returns (a: Account)
      requires Valid() && forall x :: x in live ==> x.id != id
      modifies this`accounts, this`live
      ensures Valid() && fresh(a) && a.id == id && live == old(live) + {a} && index == old(index)
    {
      a := new Account(id);
      accounts, live := accounts + {a}, live + {a};
    }

    /** Undoing a registration leaves the object in the index, without coins. */
    method Unregister(a: Account)
      requires Valid() && a in live && a.balance == 0
      modifies this`live
      ensures Valid() && live == old(live) - {a} && index == old(index)
    {
      live := live - {a};
    }

    /** The rich list up to the first account without coins. */
    method RichList() returns (list: seq<Account>)
      requires Valid()
      ensures forall a :: a in list <==> a in live && a.balance > 0
      ensures forall i, j :: 0 <= i < j < |list| ==>
                list[i].balance > list[j].balance || (list[i].balance == list[j].balance && list[i].id < list[j].id)
    {
      var n := 0;
      while n < |index| && index[n].balance > 0
        invariant n <= |index| && forall i :: 0 <= i < n ==> index[i].balance > 0
      {
        n := n + 1;
      }
      list := index[..n];
      CutAtZero(index, n, accounts);
      Strict(this, list);
    }

    /** The console's top100: the first hundred elements of the index. */
    method Top100() returns (top: seq<Account>)
      requires Valid()
      ensures |top| <= 100
      ensures forall i, j :: 0 <= i < j < |top| ==> top[i].balance >= top[j].balance
      ensures forall a, i :: a in live && a.balance > 0 && a !in top && 0 <= i < |top| ==>
                top[i].balance > a.balance || (top[i].balance == a.balance && top[i].id <= a.id)
      ensures |top| < 100 ==> forall a :: a in live && a.balance > 0 ==> a in top
    {
      top := [];
      var cnt := 0;
      while cnt < |index| && cnt < 100
        invariant cnt <= |index| && cnt <= 100 && top == index[..cnt]
      {
        top := top + [index[cnt]];
        cnt := cnt + 1;
      }
      forall a, i | a in live && a.balance > 0 && a !in top && 0 <= i < |top| ensures !Before(a, top[i]) {
        assert a in index;
        var j :| 0 <= j < |index| && index[j] == a;
        assert forall k :: 0 <= k < cnt ==> top[k] == index[k];
        assert j >= cnt;
      }
    }
  }

  lemma SameKey(s: seq<Account>, a: Account)
    requires Sorted(s)
    ensures forall i :: 0 <= i < LowerBound(s, a) ==> s[i] != a
    ensures forall i :: UpperBound(s, a) <= i < |s| ==> s[i] != a
  {
    forall i | UpperBound(s, a) <= i < |s| ensures s[i] != a {
      var n := UpperBound(s, a);
      assert Before(a, s[n]);
      if n < i {
        assert !Before(s[i], s[n]);
      }
    }
  }

  lemma TakenOut(s: seq<Account>, i: nat)
    requires Sorted(s) && NoDup(s) && i < |s|
    ensures Sorted(Without(s, i)) && NoDup(Without(s, i))
    ensures forall x :: x in Without(s, i) <==> x in s && x != s[i]
  {
    hide Before;
    var r := Without(s, i);
    assert forall j :: 0 <= j < |r| ==> r[j] == s[if j < i then j else j + 1];
    forall x ensures x in r <==> x in s && x != s[i] {
      if x in s && x != s[i] {
        var j :| 0 <= j < |s| && s[j] == x;
        assert r[if j < i then j else j - 1] == x;
      }
    }
  }

  lemma PutIn(s: seq<Account>, a: Account, at: nat)
    requires Sorted(s) && NoDup(s) && a !in s && at == UpperBound(s, a)
    ensures Sorted(s[..at] + [a] + s[at..]) && NoDup(s[..at] + [a] + s[at..])
  {
    PutAround(s, a, at);
    hide Before, UpperBound;
    var r := s[..at] + [a] + s[at..];
    forall i, j | 0 <= i < j < |r| ensures !Before(r[j], r[i]) && r[i] != r[j] {
      assert r[i] == (if i < at then s[i] else if i == at then a else s[i - 1]);
      assert r[j] == (if j < at then s[j] else if j == at then a else s[j - 1]);
    }
  }

  lemma PutAround(s: seq<Account>, a: Account, at: nat)
    requires Sorted(s) && at == UpperBound(s, a)
    ensures at <= |s| && (forall j :: 0 <= j < at ==> !Before(a, s[j]))
    ensures (forall j :: at <= j < |s| ==> !Before(s[j], a))
  {
    forall j | at <= j < |s| ensures !Before(s[j], a) {
      assert j > at ==> !Before(s[j], s[at]);
    }
  }

  lemma CutAtZero(s: seq<Account>, n: nat, accounts: set<Account>)
    requires Sorted(s) && n <= |s| && (forall i :: 0 <= i < n ==> s[i].balance > 0) && (n < |s| ==> s[n].balance == 0)
    requires forall a :: a in s ==> a in accounts
    ensures forall a :: a in s[..n] <==> a in s && a.balance > 0
  {
    forall a ensures a in s[..n] <==> a in s && a.balance > 0 {
      if a in s && a.balance > 0 {
        var i :| 0 <= i < |s| && s[i] == a;
        assert i < n;
        assert s[..n][i] == a;
      }
    }
  }

  /** Accounts with coins have different ids, so the order among them is strict. */
  lemma Strict(r: RichIndex, list: seq<Account>)
    requires r.Valid() && list <= r.index && forall a :: a in list ==> a.balance > 0
    ensures forall i, j :: 0 <= i < j < |list| ==> Before(list[i], list[j])
  {
    forall i, j | 0 <= i < j < |list| ensures Before(list[i], list[j]) {
      var a, b := list[i], list[j];
      assert a == r.index[i] && b == r.index[j];
      assert a in r.index && b in r.index;
    }
  }
}
