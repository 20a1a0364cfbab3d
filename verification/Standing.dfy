/** What a ledger offers to the methods that change it. */
module Standing {
  import opened Lists
  import opened Chain
  import opened Books
  import opened Inverse
  import opened Invariant
  import opened Expiry
  import opened Sim
  import opened Blocks
  import opened Replayed
  import opened Reorg
  import opened UndoLogs
  import opened Fidelity
  import opened Stripped
  import opened Bare
  import opened Cores
  import opened Membership
  import opened Conservation
  import opened Solvency
  import opened Reversible
  import opened LedgerFacts

  lemma FundedOlder(b: Books, h: nat, h': nat)
    requires Funded(b, h) && h <= h'
    ensures Funded(b, h')
  {
    hide NonNegative, Total, FundsOk;
    SoundOlder(b, h, h');
  }

  /** What the next block starts from. */
  lemma NextStands(s: State)
    requires SoundBoundary(s) && Funded(s.books, Height(s.cur))
    ensures var h := Height(s.cur) + 1;
            && Funded(s.books, h)
            && PrepareOk(s, h)
            && ForgetOk(s.books.txMap, LeavingIds(s.byHeight, h))
            && Funded(NextBooks(s), h)
            && LiveFrom(NextBooks(s).forum, Oldest(h))
            && NextBooks(s).reg == s.books.reg
  {
    hide SoundBoundary, Funded, ForgetOk, LeavingIds, NextBooks, ExpireOk, LiveFrom, Sound, FreshIds, IdMap, TopicIds;
    PrepareSound(s);
    FundedOlder(s.books, Height(s.cur), Height(s.cur) + 1);
    FundedPrepare(s);
  }

  /** The books the miner is paid from. */
  lemma PayerStands(p: Books, b: Block, h: nat)
    requires b.Block? && h == Height(b) && Funded(p, h) && LiveFrom(p.forum, Oldest(h))
    requires TxsFit(p, b.txs, h, true) && b.miner in p.reg.accounts
    ensures var m := ApplyTxs(p, b.txs, h, true).bal;
            b.miner in m && RESERVE in m && b.miner != RESERVE && 0 <= m[b.miner] <= TOTAL && 0 <= m[RESERVE] <= TOTAL
  {
    FundedSound(p, h);
    MinerHasBalance(p, b.txs, h, Oldest(h), b.miner);
    FundedTxs(p, b.txs, h, true);
    var x := ApplyTxs(p, b.txs, h, true);
    FundedSound(x, h);
    HasReserve(x, h);
    FundedBounded(x, h);
    NotReserve(p, h, b.miner);
    hide Funded, TxsFit, ApplyTxs, Sound, BoundedForum;
  }

  lemma NotReserve(p: Books, h: nat, who: Pubkey)
    requires Sound(p, h) && who in p.reg.accounts
    ensures who != RESERVE
  {
  }

  lemma PayMinerPlain(m: Balances, miner: Pubkey)
    requires miner in m
    ensures AddBal(m, miner, 0) == m
  {
  }

  // ---- Undoing the current block

  /** The ledger without joined lists and members that a block was applied to. */
  lemma ParentStands(b: Block, r: State)
    requires b.Block? && BareReplay(b).Some? && BareReplay(b.parent) == Some(r)
    ensures r.cur == b.parent && BareBoundary(r) && Funded(r.books, Height(r.cur)) && BareOk(r, b)
  {
    hide BareBoundary, Funded, BareOk, BareReplay, BareBlock, Total;
    BareParent(b);
    BareReplayed(b.parent);
    BareFunded(b.parent);
  }

  lemma BlockStands(b: Block, r: State)
    requires b.Block? && r.cur == b.parent && BareBoundary(r) && Funded(r.books, Height(r.cur)) && BareOk(r, b)
    ensures var p := NextBooks(r);
            && Strip(p) == p && Funded(p, Height(b)) && LiveFrom(p.forum, Oldest(Height(b)))
            && BareFit(p, b.txs, Height(b), true) && b.miner in p.reg.accounts && |b.txs| <= MAX_TXS
  {
    hide SoundBoundary, Funded, NextBooks, LiveFrom, Sound, Strip, BareFit, PrepareOk, HeaderOk, InTime;
    BareOkShape(r, b);
    BareNext(r);
    NextStands(r);
    hide PrepareBooks;
  }

  lemma RewardMark(s: State)
    requires RewardsOk(s, BareMark) && s.cur.Block? && BareReplay(s.cur.parent).Some?
    ensures s.cur in s.rewarded
    ensures s.rewarded[s.cur] == BareRewarded(NextBooks(BareReplay(s.cur.parent).value), s.cur)
  {
    hide BareRewarded, NextBooks, BareReplay;
    assert IsAncestor(s.cur, s.cur);
  }

  /** The balances before the miner was paid, seen from those after. */
  lemma UnpayStands(x: Books, p: Books, b: Block, h: nat)
    requires b.Block? && h == Height(b) && Strip(p) == p && Funded(p, h) && LiveFrom(p.forum, Oldest(h))
    requires BareFit(p, b.txs, h, true) && b.miner in p.reg.accounts
    requires Strip(x) == BareBlockBooks(p, b)
    ensures var m := BareTxs(p, b.txs, h, true).bal;
            && x.bal == PayMiner(m, b.miner, |b.txs|)
            && BareRewarded(p, b) == Rewards(m)
            && b.miner in m && RESERVE in m && b.miner != RESERVE
            && 0 <= m[b.miner] <= TOTAL && 0 <= m[RESERVE] <= TOTAL
            && UnpayMiner(x.bal, b.miner, |b.txs|, Rewards(m)) == m
    ensures Strip(x.(bal := BareTxs(p, b.txs, h, true).bal)) == BareTxs(p, b.txs, h, true)
  {
    hide Funded, PayMiner, UnpayMiner, BareFit, BareTxs, Rewards, LiveFrom, Sound, Strip, BoundedForum, Total;
    var a := BareTxs(p, b.txs, h, true);
    FundedSound(p, h);
    FundedBareTxs(p, b.txs, h, true);
    FundedBounded(a, h);
    FundedSound(a, h);
    BareTxsSound(p, b.txs, h, true, Oldest(h));
    BareIsStripped(p, b.txs, h, true);
    HasBalanceIn(a, h, b.miner);
    HasReserve(a, h);
    NotReserve(p, h, b.miner);
    UnpayPay(a.bal, b.miner, |b.txs|);
    StripBalances(x);
    OnlyBalances(x, x.(bal := a.bal), a);
  }

  /** Each turn of the reverse loop. */
  lemma UndoTurn(x: Books, p: Books, txs: seq<Tx>, i: nat, h: nat, index: bool)
    requires 0 < i <= |txs| && Strip(p) == p && Funded(p, h) && BareFit(p, txs, h, index)
    requires Strip(x) == BareTxs(p, txs[..i], h, index) && LoopDefined(x.forum, txs[..i])
    ensures UndoReady(x, txs[i - 1])
    ensures var y := UndoTx(x, txs[i - 1], index);
            && Strip(y) == BareTxs(p, txs[..i - 1], h, index) && LoopDefined(y.forum, txs[..i - 1])
            && UndoTxs(x, txs[..i], index) == UndoTxs(y, txs[..i - 1], index)
  {
    hide Funded, TxOk, FormatOk, ApplyTx, UndoTx, UndoReady, BareFit, BareTxs, UndoTxs, LoopDefined, Sound, Strip,
         Poppable, Total;
    var c, tx := BareTxs(p, txs[..i - 1], h, index), txs[i - 1];
    BareFitPrefix(p, txs, i, h, index);
    BareTurn(x, p, txs[..i], h, index);
    assert txs[..i][..i - 1] == txs[..i - 1];
    BareIsStripped(p, txs[..i - 1], h, index);
    FundedBareTxs(p, txs[..i - 1], h, index);
    FundedSound(c, h);
    AppliedIsReady(x, c, tx, h, index);
    BareUndo(x, c, tx, h, index);
  }

  lemma {:induction false} BareFitPrefix(p: Books, txs: seq<Tx>, n: nat, h: nat, index: bool)
    requires n <= |txs| && BareFit(p, txs, h, index)
    ensures BareFit(p, txs[..n], h, index)
    decreases |txs|
  {
    hide TxOk, FormatOk, BareTxs;
    if n < |txs| {
      BareFitPrefix(p, txs[..|txs| - 1], n, h, index);
      assert txs[..|txs| - 1][..n] == txs[..n];
    } else {
      assert txs[..n] == txs;
    }
  }

  /** The definitions for the last transaction of the loop. */
  lemma BareTurn(x: Books, p: Books, txs: seq<Tx>, h: nat, index: bool)
    requires txs != [] && BareFit(p, txs, h, index) && Strip(x) == BareTxs(p, txs, h, index)
    requires LoopDefined(x.forum, txs)
    ensures var init, tx := txs[..|txs| - 1], txs[|txs| - 1];
            var c, y := BareTxs(p, init, h, index), UndoTx(x, tx, index);
            && BareFit(p, init, h, index) && FormatOk(tx) && TxOk(c, tx)
            && Strip(x) == Strip(ApplyTx(c, tx, h, index))
            && Poppable(x.forum, tx) && LoopDefined(y.forum, init)
            && UndoTxs(x, txs, index) == UndoTxs(y, init, index)
  {
    hide TxOk, FormatOk, ApplyTx, Strip, Poppable, UndoForum, UndoMoney, UndoRegistry;
  }

  // ---- What expired and comes back

  lemma {:induction false} ExpiredTopicsOk(b: Books, h: nat)
    requires Sound(b, h)
    ensures forall i :: 0 <= i < |ExpiredLog(b.forum, h)| ==>
                          TopicOk(b, ExpiredLog(b.forum, h)[i].key, ExpiredLog(b.forum, h)[i].topic)
    decreases |b.forum.queue|
  {
    hide Sound, TopicOk;
    var f := b.forum;
    if FrontIsOld(f, h) {
      var d := b.(forum := ExpireFront(f));
      var k := f.queue[0];
      ExpireFrontSound(b, h);
      ExpiredTopicsOk(d, h);
      ExpireUnfold(f, h);
      TopicOf(b, h, k);
      hide ExpireFront, ExpiredLog;
      forall i | 0 <= i < |ExpiredLog(d.forum, h)|
        ensures TopicOk(b, ExpiredLog(d.forum, h)[i].key, ExpiredLog(d.forum, h)[i].topic)
      {
        OtherForum(d, b, ExpiredLog(d.forum, h)[i].key, ExpiredLog(d.forum, h)[i].topic);
      }
    } else {
      NothingExpires(f, h);
    }
  }

  lemma TopicOf(b: Books, h: nat, k: Key)
    requires Sound(b, h) && k in b.forum.topics
    ensures TopicOk(b, k, b.forum.topics[k])
  {
    hide TopicOk, ColumnsOk, QueueOk;
  }

  lemma OtherForum(d: Books, b: Books, k: Key, t: Topic)
    requires TopicOk(d, k, t) && d.reg == b.reg && d.txMap == b.txMap
    ensures TopicOk(b, k, t)
  {
    hide TopicOk;
    TopicOkMono(d, b, k, t);
  }

  lemma {:induction false} StripEntry(log: seq<Expired>, i: nat)
    requires i < |log|
    ensures |StripLog(log)| == |log| && StripLog(log)[i] == Expired(log[i].key, StripTopic(log[i].topic))
  {
    if i > 0 {
      StripEntry(log[1..], i - 1);
    } else if |log| > 1 {
      StripEntry(log[1..], 0);
    }
  }

  /** The members of an expired topic are accounts, whoever they are. */
  lemma MembersHaveLists(b: Books, h: nat, k: Key, t: Topic)
    requires Sound(b, h) && TopicOk(b, k, StripTopic(t)) && MembersFit(t) && 0 <= t.balance
    ensures EntryReady(b.forum.joined, Expired(k, t))
  {
    hide TopicsOk, QueueOk, Within;
    forall i | 0 <= i < |t.members| ensures t.members[i].who in b.forum.joined {
      var j := WithinFrom(t.members, t.replies, i);
      assert ReplyOk(b, StripTopic(t).replies[j], t.born);
      assert AccountOk(b, t.members[i].who);
    }
  }

  /** A log that holds what expired at block `h`, with fitting members. */
  lemma StrippedReady(b: Books, h: nat, log: seq<Expired>)
    requires Sound(b, h) && NonNegative(b) && StripLog(log) == ExpiredLog(b.forum, h) && FitLog(log)
    ensures LogReady(b.forum.joined, log)
  {
    hide Sound, NonNegative, ExpiredLog, TopicOk, EntryReady, MembersFit, StripLog;
    ExpiredTopicsOk(b, h);
    ExpiredReady(b, h);
    forall i | 0 <= i < |log| ensures EntryReady(b.forum.joined, log[i]) {
      StripEntry(log, i);
      EntryBalance(b.forum.joined, ExpiredLog(b.forum, h)[i]);
      MembersHaveLists(b, h, log[i].key, log[i].topic);
    }
  }

  lemma EntryBalance(joined: map<Pubkey, seq<Key>>, e: Expired)
    requires EntryReady(joined, e)
    ensures e.topic.balance >= 0
  {
  }

  /** What is needed to put back what expired at block `h`, on books that agree but for joined lists and members with
      those block `h` started from. */
  lemma RestoreStands(x: Books, r: State, log: seq<Expired>)
    requires SoundBoundary(r) && Funded(r.books, Height(r.cur)) && Height(r.cur) + 1 >= TOPIC_LIFE_TIME + 2
    requires Strip(x) == Strip(NextBooks(r))
    requires LogReady(r.books.forum.joined, log)
    requires Worth(log) == Worth(ExpiredLog(r.books.forum, Height(r.cur) + 1))
    ensures LogReady(x.forum.joined, log) && RESERVE in x.bal && Worth(log) <= x.bal[RESERVE] <= TOTAL
  {
    hide SoundBoundary, Funded, Sound, LogReady, ExpiredLog, NextBooks, Worth, BoundedForum, NonNegative, PrepareOk,
         ForgetOk, LiveFrom, Strip;
    var h := Height(r.cur) + 1;
    NextStands(r);
    FundedSound(r.books, h);
    FundedNonNegative(r.books, h);
    ReserveKept(r, h);
    FundedBounded(NextBooks(r), h);
    StrippedKeys(x, NextBooks(r));
    PreparedKeys(r);
    LogReadyKeys(r.books.forum.joined, x.forum.joined, log);
  }

  lemma StrippedKeys(x: Books, y: Books)
    requires Strip(x) == Strip(y)
    ensures x.bal == y.bal && forall p :: p in x.forum.joined <==> p in y.forum.joined
  {
    hide StripTopics;
    assert StripLists(x.forum.joined) == StripLists(y.forum.joined);
    forall p ensures p in x.forum.joined <==> p in y.forum.joined {
      assert p in x.forum.joined <==> p in StripLists(x.forum.joined);
    }
  }

  lemma FundedNonNegative(b: Books, h: nat)
    requires Funded(b, h)
    ensures NonNegative(b)
  {
  }

  lemma ReserveKept(r: State, h: nat)
    requires h == Height(r.cur) + 1 >= TOPIC_LIFE_TIME + 2 && Sound(r.books, h) && NonNegative(r.books)
    ensures RESERVE in NextBooks(r).bal && NextBooks(r).bal[RESERVE] >= Worth(ExpiredLog(r.books.forum, h))
  {
    hide Sound, ExpiredLog, Expire, Worth, LeavingIds, NonNegative, PrepareBooks;
    HasReserve(r.books, h);
    NoneNegative(r.books, RESERVE);
    PreparedBalances(r.books, h, LeavingIds(r.byHeight, h));
  }

  lemma PreparedBalances(b: Books, h: nat, ids: seq<Key>)
    requires h >= TOPIC_LIFE_TIME + 2
    ensures PrepareBooks(b, h, ids).bal == AddBal(b.bal, RESERVE, Worth(ExpiredLog(b.forum, h)))
  {
    hide ExpiredLog, Expire, Worth;
  }

  lemma NoneNegative(b: Books, p: Pubkey)
    requires NonNegative(b) && p in b.bal
    ensures b.bal[p] >= 0
  {
  }

  // ---- When rollback is defined

  /** Every turn of the reverse loop is defined in every turn of rollback's first loop. */
  predicate RollbackDefined(s: State, target: nat)
    decreases Height(s.cur)
  {
    Height(s.cur) > target && CanUndo(s) ==>
      LoopDefined(s.books.forum, s.cur.txs) && RollbackDefined(UndoBlock(s), target)
  }

  /** A ledger that tracks its replay can undo its current block, whatever its joined lists hold. */
  lemma TracksLoop(s: State, top: nat)
    requires Tracks(s, top) && s.cur.Block?
    ensures LoopDefined(s.books.forum, s.cur.txs)
  {
    hide Linked, SoundBoundary, BooksAlike, UndoOk, IndexOk, RewardsOk, Replay, ApplyBlock, BlockOk, NextBooks, TxsFit,
         ApplyTxs, LoopDefined, Sound, PayMiner;
    ReplayStep(s.cur);
    ReplayBoundary(s.cur.parent);
    var r := Replay(s.cur.parent).value;
    AppliedAlike(s, r);
    PrepareInv(r);
    BlockParts(r, s.cur);
    var a := ApplyTxs(NextBooks(r), s.cur.txs, Height(s.cur), true);
    SameBalances(s.books, a, PayMiner(a.bal, s.cur.miner, |s.cur.txs|));
    LoopDefinedAlike(s.books.(bal := a.bal), NextBooks(r), s.cur.txs, Height(s.cur), true);
  }

  lemma SameBalances(x: Books, a: Books, m: Balances)
    requires BooksAlike(x, a.(bal := m))
    ensures BooksAlike(x.(bal := a.bal), a)
  {
  }

  lemma {:induction false} TracksDefined(s: State, f: Block, top: nat)
    requires Tracks(s, top) && IsAncestor(f, s.cur) && InReach(Height(f), top)
    ensures RollbackDefined(s, Height(f))
    decreases Height(s.cur)
  {
    hide Tracks, UndoBlock, CanUndo, LoopDefined, Replay;
    AncestorHeight(f, s.cur);
    if s.cur != f {
      AncestorHeight(f, s.cur.parent);
      TracksLoop(s, top);
      UndoTracks(s, top);
      TracksDefined(UndoBlock(s), f, top);
    }
  }

  // ---- Undoing what mine_tx tried

  /** Whatever of the pool mine_tx selects on top of the books `p`, it can take back. */
  ghost predicate TrialDefined(p: Books, h: nat, pool: seq<Tx>) {
    forall txs :: multiset(txs) <= multiset(pool) && TxsFit(p, txs, h, false) ==>
                    LoopDefined(ApplyTxs(p, txs, h, false).forum, txs)
  }

  /** So it is where, once the next block has expired what it expires, joined lists name such topics only. */
  lemma PeopledTrial(p: Books, h: nat, pool: seq<Tx>)
    requires Sound(p, h) && Peopled(p.forum)
    ensures TrialDefined(p, h, pool)
  {
    hide Sound, Peopled, TxsFit, ApplyTxs, LoopDefined, NoShorter, AllAnswerable;
    forall txs | multiset(txs) <= multiset(pool) && TxsFit(p, txs, h, false)
      ensures LoopDefined(ApplyTxs(p, txs, h, false).forum, txs)
    {
      PeopledTxs(p, txs, h, false);
      NoShorterSelf(ApplyTxs(p, txs, h, false).forum);
      LoopDefinedIff(ApplyTxs(p, txs, h, false).forum, p, txs, h, false);
    }
  }

  /** A ledger whose members and joined lists agree can undo every trial. */
  lemma LinkedTrial(s: State, pool: seq<Tx>)
    requires Boundary(s)
    ensures TrialDefined(NextBooks(s), Height(s.cur) + 1, pool)
  {
    hide Boundary, Sound, Linked, NextBooks, TrialDefined, Peopled;
    PrepareInv(s);
    SoundOf(NextBooks(s), Height(s.cur) + 1);
    LinkedPeopled(NextBooks(s).forum);
    PeopledTrial(NextBooks(s), Height(s.cur) + 1, pool);
  }
}
