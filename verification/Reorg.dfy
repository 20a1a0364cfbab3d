/** Blocks applied to and taken off books that are like those start would rebuild. */
module Reorg {
  import opened Lists
  import opened Chain
  import opened Books
  import opened Inverse
  import opened Invariant
  import opened Expiry
  import opened Sim
  import opened Blocks
  import opened Replayed

  // ---- Blocks on books whose joined lists hold the same topics

  lemma SimExpireFront(s: Forum, r: Forum)
    requires ForumSim(s, r) && r.queue != [] && r.queue[0] in r.topics
    ensures ForumSim(ExpireFront(s), ExpireFront(r))
  {
    hide Permuted, EraseFirst, IsMember;
    var k := r.queue[0];
    forall p | p in r.joined ensures Permuted(EraseFirst(s.joined[p], k), EraseFirst(r.joined[p], k)) {
      PermutedErase(s.joined[p], r.joined[p], k);
    }
    forall p | p in r.joined ensures |EraseFirst(s.joined[p], k)| == |EraseFirst(r.joined[p], k)| {
      PermutedSame(EraseFirst(s.joined[p], k), EraseFirst(r.joined[p], k));
    }
  }

  lemma {:induction false} SimExpire(s: Forum, r: Forum, h: nat)
    requires ForumSim(s, r)
    ensures ForumSim(Expire(s, h), Expire(r, h))
    ensures ExpiredLog(s, h) == ExpiredLog(r, h)
    ensures ExpireOk(s, h) == ExpireOk(r, h)
    decreases |r.queue|
  {
    hide JoinedSame, LeaveAll;
    if FrontIsOld(r, h) {
      SimExpireFront(s, r);
      SimExpire(ExpireFront(s), ExpireFront(r), h);
    }
  }

  lemma SimPrepare(s: Books, r: Books, h: nat, ids: seq<Key>)
    requires BooksSim(s, r)
    ensures BooksSim(PrepareBooks(s, h, ids), PrepareBooks(r, h, ids))
    ensures ExpiredLog(s.forum, h) == ExpiredLog(r.forum, h)
    ensures ExpireOk(s.forum, h) == ExpireOk(r.forum, h)
  {
    hide ForumAlike, JoinedSame, Expire, ExpiredLog, ExpireOk;
    SimExpire(s.forum, r.forum, h);
  }

  lemma {:induction false} SimTxs(s: Books, r: Books, txs: seq<Tx>, h: nat, index: bool)
    requires BooksSim(s, r) && Sound(r, h)
    ensures TxsFit(s, txs, h, index) == TxsFit(r, txs, h, index)
    ensures TxsFit(r, txs, h, index) ==>
              Sound(ApplyTxs(r, txs, h, index), h) && BooksSim(ApplyTxs(s, txs, h, index), ApplyTxs(r, txs, h, index))
    decreases |txs|
  {
    hide Sound, BooksSim, TxOk, FormatOk, ApplyTx;
    if txs != [] {
      var init, tx := txs[..|txs| - 1], txs[|txs| - 1];
      SimTxs(s, r, init, h, index);
      if TxsFit(r, init, h, index) {
        SimTx(ApplyTxs(s, init, h, index), ApplyTxs(r, init, h, index), tx, h, index);
      }
    }
  }

  lemma SimTx(s: Books, r: Books, tx: Tx, h: nat, index: bool)
    requires BooksSim(s, r) && Sound(r, h)
    ensures TxOk(s, tx) == TxOk(r, tx)
    ensures TxOk(r, tx) && FormatOk(tx) ==>
              Sound(ApplyTx(r, tx, h, index), h) && BooksSim(ApplyTx(s, tx, h, index), ApplyTx(r, tx, h, index))
  {
    hide TopicsOk, ColumnsOk, QueueOk, BooksSim, ApplyTx, TxOk, FormatOk;
    SimChecks(s, r, tx);
    if TxOk(r, tx) && FormatOk(tx) {
      SimApply(s, r, tx, h, index);
      SoundKept(r, tx, h, index);
    }
  }

  // ---- What the transactions of a block put into a joined list

  /** The topics that first replies of `p` among `txs` join, in order. */
  ghost function JoinsOf(b: Books, txs: seq<Tx>, h: nat, index: bool, p: Pubkey): seq<Key> {
    if txs == [] then []
    else JoinsOf(b, txs[..|txs| - 1], h, index, p)
         + JoinOf(ApplyTxs(b, txs[..|txs| - 1], h, index).forum, txs[|txs| - 1], p)
  }

  lemma {:induction false} ListAfterTxs(b: Books, txs: seq<Tx>, h: nat, index: bool, p: Pubkey)
    requires Sound(b, h) && TxsFit(b, txs, h, index) && p in b.forum.joined
    ensures p in ApplyTxs(b, txs, h, index).forum.joined
    ensures ApplyTxs(b, txs, h, index).forum.joined[p] == b.forum.joined[p] + JoinsOf(b, txs, h, index, p)
    decreases |txs|
  {
    hide Sound, TxOk, FormatOk, ApplyForum, ApplyRegistry, ApplyMoney, JoinOf;
    if txs != [] {
      var init, tx := txs[..|txs| - 1], txs[|txs| - 1];
      var c := ApplyTxs(b, init, h, index);
      ListAfterTxs(b, init, h, index, p);
      SoundTxs(b, init, h, index);
      NewcomerHasNone(c, tx, h);
      ListGrows(c.forum, tx, h, p);
    }
  }

  lemma {:induction false} SoundTxs(b: Books, txs: seq<Tx>, h: nat, index: bool)
    requires Sound(b, h) && TxsFit(b, txs, h, index)
    ensures Sound(ApplyTxs(b, txs, h, index), h)
    decreases |txs|
  {
    hide TxOk, FormatOk, ApplyTx, Sound;
    if txs != [] {
      SoundTxs(b, txs[..|txs| - 1], h, index);
      SoundKept(ApplyTxs(b, txs[..|txs| - 1], h, index), txs[|txs| - 1], h, index);
    }
  }

  lemma NewcomerHasNone(b: Books, tx: Tx, h: nat)
    requires Sound(b, h) && TxOk(b, tx)
    ensures tx.body.TxReg? ==> tx.pubkey !in b.forum.joined
  {
    hide ForumOk, TopicsOk, QueueOk;
  }

  // ---- Taking transactions back on books whose joined lists hold anything

  lemma DropEndTwice<T>(q: seq<T>, m: nat, n: nat)
    requires m + n <= |q|
    ensures DropEnd(DropEnd(q, m), n) == DropEnd(q, m + n)
  {
  }

  /** The reverse loop takes back the transactions of a block whatever the joined lists hold, and takes as many elements
      off the end of each joined list as the transactions had put there. */
  lemma {:induction false} AlikeUndoTxs(s: Books, b: Books, txs: seq<Tx>, h: nat, index: bool)
    requires Inv(b, h) && TxsFit(b, txs, h, index)
    requires BooksAlike(s, ApplyTxs(b, txs, h, index))
    ensures BooksAlike(UndoTxs(s, txs, index), b)
    ensures forall p :: p in b.forum.joined ==>
              p in s.forum.joined
              && UndoTxs(s, txs, index).forum.joined[p] == DropEnd(s.forum.joined[p], |JoinsOf(b, txs, h, index, p)|)
    decreases |txs|
  {
    hide Inv, BooksAlike, TxOk, FormatOk, ApplyTx, UndoTx, JoinOf, DropEnd;
    if txs == [] {
      AlikeKeys(s, b);
      forall p | p in b.forum.joined ensures DropEnd(s.forum.joined[p], 0) == s.forum.joined[p] {
        DropNone(s.forum.joined[p]);
      }
    } else {
      var init, tx := txs[..|txs| - 1], txs[|txs| - 1];
      var c := ApplyTxs(b, init, h, index);
      TxsInv(b, init, h, index);
      AlikeUndoOne(s, c, tx, h, index);
      AlikeUndoTxs(UndoTx(s, tx, index), b, init, h, index);
      AlikeKeys(UndoTxs(s, txs, index), b);
      forall p | p in b.forum.joined
        ensures p in s.forum.joined
        ensures UndoTxs(s, txs, index).forum.joined[p] == DropEnd(s.forum.joined[p], |JoinsOf(b, txs, h, index, p)|)
      {
        SoundOf(b, h);
        ListAfterTxs(b, init, h, index, p);
        ListAfterTxs(b, txs, h, index, p);
        AlikeList(s, ApplyTxs(b, txs, h, index), p);
        DropEndTwice(s.forum.joined[p], |JoinOf(c.forum, tx, p)|, |JoinsOf(b, init, h, index, p)|);
      }
    }
  }

  lemma SoundOf(b: Books, h: nat)
    requires Inv(b, h)
    ensures Sound(b, h) && Linked(b.forum)
  {
  }

  lemma DropNone<T>(q: seq<T>)
    ensures DropEnd(q, 0) == q
  {
  }

  lemma AlikeKeys(s: Books, r: Books)
    requires BooksAlike(s, r)
    ensures forall p :: p in s.forum.joined <==> p in r.forum.joined
  {
  }

  lemma AlikeList(s: Books, r: Books, p: Pubkey)
    requires BooksAlike(s, r) && p in r.forum.joined
    ensures p in s.forum.joined && |s.forum.joined[p]| == |r.forum.joined[p]|
  {
  }

  lemma AlikeUndoOne(s: Books, c: Books, tx: Tx, h: nat, index: bool)
    requires Inv(c, h) && TxOk(c, tx) && FormatOk(tx)
    requires BooksAlike(s, ApplyTx(c, tx, h, index))
    ensures BooksAlike(UndoTx(s, tx, index), c)
    ensures forall p :: p in c.forum.joined ==>
              p in s.forum.joined
              && UndoTx(s, tx, index).forum.joined[p] == DropEnd(s.forum.joined[p], |JoinOf(c.forum, tx, p)|)
  {
    hide TxOk, FormatOk, ApplyTx, UndoTx, BooksAlike, JoinOf, DropEnd, TopicsOk, ColumnsOk, JoinedOk, MembersOk,
         QueueOk;
    AlikeUndo(s, c, tx, h, index);
  }

  /** From the very books they left behind, the transactions are taken back exactly. */
  lemma {:induction false} UndoTxsExactly(b: Books, txs: seq<Tx>, h: nat, index: bool)
    requires Inv(b, h) && TxsFit(b, txs, h, index)
    ensures UndoTxs(ApplyTxs(b, txs, h, index), txs, index) == b
    decreases |txs|
  {
    hide Inv, TxOk, FormatOk, ApplyTx, UndoTx;
    if txs != [] {
      var init, tx := txs[..|txs| - 1], txs[|txs| - 1];
      TxsInv(b, init, h, index);
      UndoApplyInv(ApplyTxs(b, init, h, index), tx, h, index);
      UndoTxsExactly(b, init, h, index);
    }
  }

  lemma UndoApplyInv(b: Books, tx: Tx, h: nat, index: bool)
    requires Inv(b, h) && TxOk(b, tx) && FormatOk(tx)
    ensures UndoTx(ApplyTx(b, tx, h, index), tx, index) == b
  {
    hide TxOk, FormatOk, ApplyTx, UndoTx, TopicsOk, ColumnsOk, JoinedOk, MembersOk, QueueOk;
    UndoApply(b, tx, h, index);
  }

  lemma UnpayPay(m: Balances, miner: Pubkey, n: nat)
    requires miner in m && RESERVE in m
    ensures UnpayMiner(PayMiner(m, miner, n), miner, n, Rewards(m)) == m
  {
  }

  /** What proc_topic_expired and proc_tx_map did at block `h` is taken back, whatever the joined lists hold. */
  lemma UnprepareAlike(s: Books, r: State)
    requires Boundary(r) && Height(r.cur) + 1 >= TOPIC_LIFE_TIME + 2
    requires BooksAlike(s, NextBooks(r))
    ensures BooksAlike(UnprepareBooks(s, ExpiredLog(r.books.forum, Height(r.cur) + 1), LeavingAt(r)), r.books)
  {
    hide Sound, Linked, ForumAlike, Expire, ExpiredLog, FreshIds, IdMap, TopicIds, Restore, LiveFrom, IndexOk;
    var h := Height(r.cur) + 1;
    var lo := UndoKey(h);
    InvOlder(r.books, h - 1, h);
    RestoreExpireAlike(s.forum, r.books, h);
    LeavingIdsAre(r, h);
    IdsOfLowest(r.cur, lo);
    RememberLowest(r.cur, lo);
    ReserveBack(r.books, h);
  }

  lemma ReserveBack(b: Books, h: nat)
    requires Sound(b, h)
    ensures forall w: int :: AddBal(AddBal(b.bal, RESERVE, w), RESERVE, 0 - w) == b.bal
  {
  }

  /** The joined lists are as before once what expired is back, when they held the same topics without it. */
  lemma UnprepareSim(s: Books, r: State)
    requires Boundary(r) && Height(r.cur) + 1 >= TOPIC_LIFE_TIME + 2
    requires BooksSim(s, NextBooks(r))
    ensures BooksSim(UnprepareBooks(s, ExpiredLog(r.books.forum, Height(r.cur) + 1), LeavingAt(r)), r.books)
  {
    var h := Height(r.cur) + 1;
    hide Inv, BooksAlike, ForumAlike, JoinedSame, NextBooks, Boundary, Expire, ExpiredLog, Restore, LeavingAt,
         UnprepareBooks;
    UnprepareAlike(s, r);
    BoundaryInv(r);
    InvOlder(r.books, h - 1, h);
    PreparedForum(r);
    SimForums(s, NextBooks(r));
    RestoreExpireSim(s.forum, r.books, h);
    RestoredForum(s, ExpiredLog(r.books.forum, h), LeavingAt(r));
  }

  lemma SimForums(s: Books, r: Books)
    requires BooksSim(s, r)
    ensures ForumSim(s.forum, r.forum)
  {
    hide ForumAlike, JoinedSame;
  }

  lemma RestoredForum(s: Books, log: seq<Expired>, gone: Forgotten)
    ensures UnprepareBooks(s, log, gone).forum == Restore(s.forum, log)
  {
    hide Restore;
  }

  /** The miner's pay and the transactions of a block are taken back, whatever the joined lists hold. */
  lemma UndoBooks(x: Books, r: State, b: Block)
    requires Boundary(r) && BlockOk(r, b)
    requires BooksAlike(x, BlockBooks(NextBooks(r), b))
    ensures BooksAlike(UnblockBooks(x, b, BlockRewarded(NextBooks(r), b)), NextBooks(r))
    ensures forall p :: p in NextBooks(r).forum.joined ==>
              && p in x.forum.joined
              && UnblockBooks(x, b, BlockRewarded(NextBooks(r), b)).forum.joined[p]
                 == DropEnd(x.forum.joined[p], |JoinsOf(NextBooks(r), b.txs, Height(b), true, p)|)
  {
    hide Sound, Linked, ForumAlike, PayMiner, UnpayMiner, TxsFit, InTime, ApplyTxs, UndoTxs, Rewards, DropEnd, JoinsOf,
         Boundary, BlockOk, NextBooks;
    var h := Height(b);
    AppliedForum(r, b);
    PrepareInv(r);
    MinerKnown(r, b);
    var p := NextBooks(r);
    var a := ApplyTxs(p, b.txs, h, true);
    HasReserve(a, h);
    UnpayPay(a.bal, b.miner, |b.txs|);
    AlikeUndoTxs(x.(bal := a.bal), p, b.txs, h, true);
  }

  lemma MinerKnown(r: State, b: Block)
    requires Boundary(r) && BlockOk(r, b)
    ensures Sound(ApplyTxs(NextBooks(r), b.txs, Height(b), true), Height(b))
    ensures b.miner in ApplyTxs(NextBooks(r), b.txs, Height(b), true).bal
  {
    hide Sound, Linked, TxsFit, InTime, ApplyTxs, SoundBoundary, PrepareBooks, LiveFrom, HeaderOk, PrepareOk;
    PrepareSound(r);
    SoundTxs(NextBooks(r), b.txs, Height(b), true);
    MinerHasBalance(NextBooks(r), b.txs, Height(b), Oldest(Height(b)), b.miner);
  }

  lemma EarlyBooks(r: State)
    requires Height(r.cur) + 1 < TOPIC_LIFE_TIME + 2
    ensures NextBooks(r) == r.books
  {
  }
}
