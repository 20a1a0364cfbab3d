/** What mine_tx selects is the body of a valid block. */
module Selection {
  import opened Lists
  import opened Chain
  import opened Books
  import opened Invariant
  import opened Blocks
  import opened Replayed
  import opened Fidelity
  import opened Rollbacks
  import opened Conservation

  // ---- mine_tx does not enter new accounts in m_account_by_id; no check reads that index

  ghost predicate SameButIndex(a: Books, b: Books) {
    a == b.(reg := b.reg.(byId := a.reg.byId))
  }

  lemma IndexFreeTx(a: Books, b: Books, tx: Tx, h: nat)
    requires SameButIndex(a, b)
    ensures TxOk(a, tx) == TxOk(b, tx)
    ensures SameButIndex(ApplyTx(a, tx, h, false), ApplyTx(b, tx, h, true))
  {
    hide ForumOk, ApplyForum, PaidTo, BodyDelta, FeeDelta;
    assert ApplyMoney(a, tx) == ApplyMoney(b, tx);
  }

  lemma {:induction false} IndexFree(a: Books, b: Books, txs: seq<Tx>, h: nat)
    requires SameButIndex(a, b)
    ensures TxsFit(a, txs, h, false) == TxsFit(b, txs, h, true)
    ensures SameButIndex(ApplyTxs(a, txs, h, false), ApplyTxs(b, txs, h, true))
    decreases |txs|
  {
    hide SameButIndex, TxOk, FormatOk, ApplyTx;
    if txs != [] {
      var init := txs[..|txs| - 1];
      IndexFree(a, b, init, h);
      IndexFreeTx(ApplyTxs(a, init, h, false), ApplyTxs(b, init, h, true), txs[|txs| - 1], h);
    }
  }

  lemma TxsAppend(p: Books, txs: seq<Tx>, tx: Tx, h: nat, index: bool)
    ensures TxsFit(p, txs + [tx], h, index) <==>
              TxsFit(p, txs, h, index) && FormatOk(tx) && TxOk(ApplyTxs(p, txs, h, index), tx)
    ensures ApplyTxs(p, txs + [tx], h, index) == ApplyTx(ApplyTxs(p, txs, h, index), tx, h, index)
  {
    hide TxOk, FormatOk, ApplyTx;
    assert (txs + [tx])[..|txs|] == txs;
  }

  // ---- Three passes over the pool

  /** What has been selected and what is left, in order. */
  datatype Selecting = Selecting(mined: seq<Tx>, left: seq<Tx>)

  /** One pass: each transaction of `uv`, in order, is selected when it fits on top of those selected before it, and
      left otherwise; the pass ends when 2000 are selected. */
  ghost function Pass(p: Books, mined: seq<Tx>, uv: seq<Tx>, h: nat): Selecting
    decreases |uv|
  {
    if uv == [] || |mined| >= MAX_TXS then Selecting(mined, uv)
    else if TxOk(ApplyTxs(p, mined, h, false), uv[0]) then Pass(p, mined + [uv[0]], uv[1..], h)
    else Resumed(Pass(p, mined, uv[1..], h), [uv[0]])
  }

  /** The same with more transactions left in front. */
  ghost function Resumed(s: Selecting, left: seq<Tx>): Selecting {
    Selecting(s.mined, left + s.left)
  }

  /** At most `n` passes over what is left, until one selects nothing or 2000 are selected. */
  ghost function Passes(p: Books, mined: seq<Tx>, uv: seq<Tx>, h: nat, n: nat): seq<Tx>
    decreases n
  {
    if n == 0 then mined
    else
      var s := Pass(p, mined, uv, h);
      if |s.mined| == |mined| || |s.mined| >= MAX_TXS then s.mined else Passes(p, s.mined, s.left, h, n - 1)
  }

  /** The body that mine_tx selects from a pool on top of the books `p`. */
  ghost function Selected(p: Books, pool: seq<Tx>, h: nat): seq<Tx> {
    Passes(p, [], pool, h, 3)
  }

  /** `tx` did not fit when between `lo` and `hi` of the transactions were selected. */
  ghost predicate Failed(p: Books, mined: seq<Tx>, tx: Tx, h: nat, lo: nat, hi: nat) {
    exists n :: lo <= n <= hi <= |mined| && !TxOk(ApplyTxs(p, mined[..n], h, false), tx)
  }

  /** `tx` was tried and did not fit; if it fits now, there were three passes, of which the first two selected
      something, and it did not fit in any of them. */
  ghost predicate PassedOver(p: Books, mined: seq<Tx>, tx: Tx, h: nat) {
    && Failed(p, mined, tx, h, 0, |mined|)
    && (TxOk(ApplyTxs(p, mined, h, false), tx) ==>
          exists i: nat, j: nat ::
            && 0 < i < j <= |mined|
            && Failed(p, mined, tx, h, 0, i) && Failed(p, mined, tx, h, i, j) && Failed(p, mined, tx, h, j, |mined|))
  }

  lemma {:induction false} PassTries(p: Books, mined: seq<Tx>, uv: seq<Tx>, h: nat)
    requires |mined| <= MAX_TXS
    ensures var s := Pass(p, mined, uv, h);
            && mined <= s.mined && |s.mined| <= MAX_TXS
            && (forall tx :: tx in uv ==> tx in s.mined || tx in s.left)
            && (|s.mined| < MAX_TXS ==> forall tx :: tx in s.left ==> Failed(p, s.mined, tx, h, |mined|, |s.mined|))
    decreases |uv|
  {
    hide TxOk, ApplyTxs;
    if uv != [] && |mined| < MAX_TXS {
      var s := Pass(p, mined, uv, h);
      if TxOk(ApplyTxs(p, mined, h, false), uv[0]) {
        PassTries(p, mined + [uv[0]], uv[1..], h);
        assert uv[0] in mined + [uv[0]];
      } else {
        PassTries(p, mined, uv[1..], h);
        assert s.mined[..|mined|] == mined;
      }
    }
  }

  lemma FailedLonger(p: Books, m: seq<Tx>, mined: seq<Tx>, tx: Tx, h: nat, lo: nat, hi: nat)
    requires m <= mined && Failed(p, m, tx, h, lo, hi)
    ensures Failed(p, mined, tx, h, lo, hi)
  {
    hide TxOk, ApplyTxs;
    var n :| lo <= n <= hi <= |m| && !TxOk(ApplyTxs(p, m[..n], h, false), tx);
    assert mined[..n] == m[..n];
  }

  lemma FailedWider(p: Books, mined: seq<Tx>, tx: Tx, h: nat, lo: nat, hi: nat)
    requires Failed(p, mined, tx, h, lo, hi)
    ensures Failed(p, mined, tx, h, 0, |mined|)
    ensures lo == |mined| ==> !TxOk(ApplyTxs(p, mined, h, false), tx)
  {
    hide TxOk, ApplyTxs;
    assert mined[..|mined|] == mined;
  }

  /** Whatever of the pool is left out of a selection of fewer than 2000 was tried and did not fit. */
  lemma LeftOut(p: Books, pool: seq<Tx>, h: nat, tx: Tx)
    requires tx in pool && |Selected(p, pool, h)| < MAX_TXS && tx !in Selected(p, pool, h)
    ensures PassedOver(p, Selected(p, pool, h), tx, h)
  {
    hide TxOk, ApplyTxs, Pass, Failed;
    var one := Pass(p, [], pool, h);
    PassTries(p, [], pool, h);
    var mined := Selected(p, pool, h);
    if |one.mined| == 0 || |one.mined| >= MAX_TXS {
      FailedWider(p, mined, tx, h, 0, |mined|);
    } else {
      var two := Pass(p, one.mined, one.left, h);
      PassTries(p, one.mined, one.left, h);
      if |two.mined| == |one.mined| || |two.mined| >= MAX_TXS {
        FailedWider(p, mined, tx, h, |one.mined|, |mined|);
      } else {
        PassTries(p, two.mined, two.left, h);
        LastPass(p, two.mined, two.left, h);
        FailedLonger(p, one.mined, mined, tx, h, 0, |one.mined|);
        FailedLonger(p, two.mined, mined, tx, h, |one.mined|, |two.mined|);
        FailedWider(p, mined, tx, h, |two.mined|, |mined|);
      }
    }
  }

  lemma AllLeftOut(p: Books, pool: seq<Tx>, h: nat)
    ensures var mined := Selected(p, pool, h);
            |mined| < MAX_TXS ==> forall tx :: tx in pool && tx !in mined ==> PassedOver(p, mined, tx, h)
  {
    hide Selected, PassedOver;
    forall tx | |Selected(p, pool, h)| < MAX_TXS && tx in pool && tx !in Selected(p, pool, h)
      ensures PassedOver(p, Selected(p, pool, h), tx, h)
    {
      LeftOut(p, pool, h, tx);
    }
  }

  lemma LastPass(p: Books, mined: seq<Tx>, uv: seq<Tx>, h: nat)
    ensures Passes(p, mined, uv, h, 1) == Pass(p, mined, uv, h).mined
  {
    hide Pass;
  }

  /** A transaction of the pool that fits first is selected, so a pool in which one fits gives a body. */
  lemma FirstSelected(p: Books, pool: seq<Tx>, h: nat)
    requires pool != [] && TxOk(p, pool[0])
    ensures Selected(p, pool, h) != [] && Selected(p, pool, h)[0] == pool[0]
  {
    hide TxOk, ApplyTxs;
    NoneApplied(p, h);
    assert [] + [pool[0]] == [pool[0]];
    var one := Pass(p, [], pool, h);
    PassTries(p, [pool[0]], pool[1..], h);
    assert one == Pass(p, [pool[0]], pool[1..], h);
    var two := Pass(p, one.mined, one.left, h);
    PassTries(p, one.mined, one.left, h);
    PassTries(p, two.mined, two.left, h);
    hide Pass;
    LastPass(p, two.mined, two.left, h);
  }

  lemma NoneApplied(p: Books, h: nat)
    ensures ApplyTxs(p, [], h, false) == p
  {
  }

  /** One turn of the loop: `k` transactions of the list are still to be tried in this pass, the others failed in it. */
  lemma PassStep(p: Books, mined: seq<Tx>, uv: seq<Tx>, k: nat, h: nat)
    requires 0 < k <= |uv| && |mined| < MAX_TXS
    ensures var fits := TxOk(ApplyTxs(p, mined, h, false), uv[0]);
            var m, next := if fits then mined + [uv[0]] else mined, if fits then uv[1..] else uv[1..] + [uv[0]];
            Resumed(Pass(p, mined, uv[..k], h), uv[k..]) == Resumed(Pass(p, m, next[..k - 1], h), next[k - 1..])
  {
    hide TxOk, ApplyTxs;
    var tx := uv[0];
    assert uv[..k][0] == tx && uv[..k][1..] == uv[1..k];
    if TxOk(ApplyTxs(p, mined, h, false), tx) {
      assert uv[1..][..k - 1] == uv[1..k] && uv[1..][k - 1..] == uv[k..];
    } else {
      var next := uv[1..] + [tx];
      assert next[..k - 1] == uv[1..k] && next[k - 1..] == uv[k..] + [tx];
      var s := Pass(p, mined, uv[1..k], h);
      assert uv[k..] + ([tx] + s.left) == (uv[k..] + [tx]) + s.left;
    }
  }

  /** A pass that is over, or cut short by 2000 transactions. */
  lemma PassOver(p: Books, mined: seq<Tx>, uv: seq<Tx>, k: nat, h: nat)
    requires k <= |uv| && (k == 0 || |mined| >= MAX_TXS)
    ensures Resumed(Pass(p, mined, uv[..k], h), uv[k..]).mined == mined
    ensures k == 0 ==> Resumed(Pass(p, mined, uv[..k], h), uv[k..]) == Selecting(mined, uv)
  {
    hide TxOk, ApplyTxs;
    assert uv[0..] == uv && uv + [] == uv;
  }

  /** Before the first transaction of a pass is tried. */
  lemma PassBegins(p: Books, mined: seq<Tx>, uv: seq<Tx>, h: nat)
    ensures Resumed(Pass(p, mined, uv[..|uv|], h), uv[|uv|..]) == Pass(p, mined, uv, h)
  {
    hide Pass;
    assert uv[..|uv|] == uv && uv[|uv|..] == [];
    assert [] + Pass(p, mined, uv, h).left == Pass(p, mined, uv, h).left;
  }

  lemma PassesNone(p: Books, mined: seq<Tx>, h: nat, n: nat)
    ensures Passes(p, mined, [], h, n) == mined
  {
  }

  /** Where the loop stops. */
  lemma PassesEnd(p: Books, m0: seq<Tx>, u0: seq<Tx>, mined: seq<Tx>, h: nat, n: nat)
    requires n > 0 && Pass(p, m0, u0, h).mined == mined
    requires |mined| == |m0| || |mined| >= MAX_TXS || n == 1 || Pass(p, m0, u0, h).left == []
    ensures Passes(p, m0, u0, h, n) == mined
  {
    hide Pass;
    PassesNone(p, mined, h, n - 1);
  }

  lemma PassesGoOn(p: Books, m0: seq<Tx>, u0: seq<Tx>, mined: seq<Tx>, uv: seq<Tx>, h: nat, n: nat)
    requires n > 0 && Pass(p, m0, u0, h) == Selecting(mined, uv) && |mined| != |m0| && |mined| < MAX_TXS
    ensures Passes(p, m0, u0, h, n) == Passes(p, mined, uv, h, n - 1)
  {
    hide Pass;
  }

  /** The loop of mine_tx is in the pass that began with `m0` selected and `u0` left, `n` passes before the end: it
      has yet to try the first `k` transactions of `uv` in it, the others failed in it. */
  ghost predicate InPass(p: Books, pool: seq<Tx>, m0: seq<Tx>, u0: seq<Tx>, mined: seq<Tx>, uv: seq<Tx>, k: int, h: nat,
                         n: int) {
    && 0 <= k <= |uv| && n > 0
    && Passes(p, m0, u0, h, n) == Selected(p, pool, h)
    && Pass(p, m0, u0, h) == Resumed(Pass(p, mined, uv[..k], h), uv[k..])
  }

  lemma PassStarts(p: Books, pool: seq<Tx>, h: nat)
    ensures InPass(p, pool, [], pool, [], pool, |pool|, h, 3)
  {
    hide Pass, Passes, Resumed;
    PassBegins(p, [], pool, h);
  }

  lemma PassTurns(p: Books, pool: seq<Tx>, m0: seq<Tx>, u0: seq<Tx>, mined: seq<Tx>, uv: seq<Tx>, k: int, h: nat,
                  n: int)
    requires InPass(p, pool, m0, u0, mined, uv, k, h, n) && k > 0 && |mined| < MAX_TXS
    ensures TxOk(ApplyTxs(p, mined, h, false), uv[0]) ==>
              InPass(p, pool, m0, u0, mined + [uv[0]], uv[1..], k - 1, h, n)
    ensures !TxOk(ApplyTxs(p, mined, h, false), uv[0]) ==>
              InPass(p, pool, m0, u0, mined, uv[1..] + [uv[0]], k - 1, h, n)
  {
    hide Pass, Passes, Resumed, TxOk, ApplyTxs, Selected;
    PassStep(p, mined, uv, k, h);
  }

  lemma PassStops(p: Books, pool: seq<Tx>, m0: seq<Tx>, u0: seq<Tx>, mined: seq<Tx>, uv: seq<Tx>, k: int, h: nat,
                  n: int)
    requires InPass(p, pool, m0, u0, mined, uv, k, h, n)
    requires |mined| >= MAX_TXS || uv == [] || (k == 0 && (n == 1 || |mined| == |m0|))
    ensures mined == Selected(p, pool, h)
  {
    hide Pass, Passes, Resumed, Selected;
    PassOver(p, mined, uv, k, h);
    PassesEnd(p, m0, u0, mined, h, n);
  }

  lemma PassFollows(p: Books, pool: seq<Tx>, m0: seq<Tx>, u0: seq<Tx>, mined: seq<Tx>, uv: seq<Tx>, h: nat, n: int)
    requires InPass(p, pool, m0, u0, mined, uv, 0, h, n) && n > 1 && |mined| != |m0| && |mined| < MAX_TXS
    ensures InPass(p, pool, mined, uv, mined, uv, |uv|, h, n - 1)
  {
    hide Pass, Passes, Resumed, Selected;
    PassOver(p, mined, uv, 0, h);
    PassesGoOn(p, m0, u0, mined, uv, h, n);
    PassBegins(p, mined, uv, h);
  }

  /** How many transactions were tried in `loops` passes and `cnt` turns of the next. */
  predicate FewTries(tries: int, loops: int, total: int, cnt: int) {
    tries <= (if loops == 0 then cnt else if loops == 1 then total + cnt else 2 * total + cnt)
  }

  /** No transaction is selected twice. */
  lemma SelectedOnce(p: Books, txs: seq<Tx>, h: nat, index: bool)
    requires Funded(p, h) && TxsFit(p, txs, h, index)
    ensures NoDup(txs)
  {
    hide Funded, Sound, TxsFit, ApplyTxs;
    FundedSound(p, h);
    NoneBornBefore(p.forum);
    TxsSound(p, txs, h, index, 0);
    forall i, j | 0 <= i < j < |txs| ensures txs[i] != txs[j] {
      assert Ids(txs)[i] != Ids(txs)[j];
    }
  }

  lemma NoneBornBefore(f: Forum)
    ensures LiveFrom(f, 0)
  {
  }

  /** A block with a selected body and a correct header is valid on the ledger mine_tx started from, exactly when each
      transaction is inside its block-id window, which mine_tx does not look at. */
  lemma SelectedBlockOk(s: State, b: Block)
    requires SoundBoundary(s) && b.Block? && b.parent == s.cur && HeaderOk(b)
    requires |b.txs| <= MAX_TXS && b.miner in s.books.reg.accounts
    requires TxsFit(NextBooks(s), b.txs, Height(b), false)
    ensures BlockOk(s, b) <==> InTime(b.txs, Height(b))
  {
    hide SoundBoundary, NextBooks, HeaderOk, TxsFit, InTime, PrepareOk, Sound, FreshIds, IdMap, TopicIds, LiveFrom,
         BlockOk;
    PrepareSound(s);
    IndexFree(NextBooks(s), NextBooks(s), b.txs, Height(b));
    BlockOkWhen(s, b);
  }

  /** Two ledgers that are both faithful to the same branch accept the same blocks. */
  lemma SameAccepted(s: State, t: State, b: Block, top: nat, top': nat)
    requires Faithful(s, top) && Faithful(t, top') && t.cur == s.cur
    requires b.Block? && b.parent == s.cur
    ensures BlockOk(s, b) <==> BlockOk(t, b)
    ensures s.books.reg == t.books.reg
  {
    hide Faithful, BlockOk, Replay;
    ApplyFaithful(s, b, top);
    ApplyFaithful(t, b, top');
    FaithfulMeans(s, top);
    FaithfulMeans(t, top');
  }
}
